/** The status line of a response: the code as Ruby renders an integer, and the
    reason phrase from the connection's two-entry table. */
module Status {
  datatype Option<T> = None | Some(value: T)

  predicate IsDigit(c: char) {
    '0' <= c <= '9'
  }

  predicate AllDigits(s: string) {
    forall i :: 0 <= i < |s| ==> IsDigit(s[i])
  }

  function DigitChar(d: nat): (c: char)
    requires d < 10
    ensures IsDigit(c)
  {
    ('0' as int + d) as char
  }

  function DigitValue(c: char): nat
    requires IsDigit(c)
  {
    c as int - '0' as int
  }

  /** The decimal digits of `n`, most significant first, without leading zeros. */
  function NatDigits(n: nat): (s: string)
    ensures |s| >= 1 && AllDigits(s)
    ensures s[0] == '0' ==> n == 0
    decreases n
  {
    if n < 10 then [DigitChar(n)] else NatDigits(n / 10) + [DigitChar(n % 10)]
  }

  /** The number a string of decimal digits denotes. */
  function DigitsValue(s: string): nat
    requires AllDigits(s)
  {
    if s == [] then 0 else DigitsValue(s[..|s| - 1]) * 10 + DigitValue(s[|s| - 1])
  }

  lemma {:induction false} NatDigitsRoundTrip(n: nat)
    ensures DigitsValue(NatDigits(n)) == n
    decreases n
  {
    if n >= 10 {
      var s := NatDigits(n);
      assert s[..|s| - 1] == NatDigits(n / 10);
      NatDigitsRoundTrip(n / 10);
    }
  }

  /** `Integer#to_s`: how `"#{status}"` renders the status code. */
  function DecimalString(n: int): (s: string)
    ensures s != [] && ' ' !in s
  {
    if n < 0 then "-" + NatDigits(-n) else NatDigits(n)
  }

  /** Reads a decimal integer back, as `Integer("…")` would for these strings. */
  function DecimalValue(s: string): Option<int> {
    if |s| > 1 && s[0] == '-' && AllDigits(s[1..]) then Some(-(DigitsValue(s[1..]) as int))
    else if s != [] && AllDigits(s) then Some(DigitsValue(s))
    else None
  }

  lemma DecimalRoundTrip(n: int)
    ensures DecimalValue(DecimalString(n)) == Some(n)
  {
    if n < 0 {
      var digits := NatDigits(-n);
      var s := "-" + digits;
      assert s[0] == '-' && s[1..] == digits;
      NatDigitsRoundTrip(-n);
    } else {
      var s := NatDigits(n);
      assert IsDigit(s[0]);
      NatDigitsRoundTrip(n);
    }
  }

  /** `get_status_code_reason`: the table `{ 200 => "OK", 400 => "Not Found" }`,
      with the 400 entry as written; any other code finds nothing (`nil`). */
  function Reason(code: int): (r: Option<string>)
    ensures r.Some? <==> code == 200 || code == 400
    ensures r.Some? ==> r.value != ""
  {
    if code == 200 then Some("OK")
    else if code == 400 then Some("Not Found")
    else None
  }

  /** The reason as string interpolation renders it: `nil` becomes "". */
  function ReasonText(code: int): (text: string)
    ensures text == "" <==> Reason(code).None?
    ensures Reason(code).Some? ==> text == Reason(code).value
  {
    match Reason(code)
    case Some(phrase) => phrase
    case None => ""
  }

  const Version: string := "HTTP/1.1 "
  const Crlf: string := "\r\n"

  /** `"HTTP/1.1 #{status} #{reason}\r\n"`. */
  function StatusLine(code: int): (line: string)
    ensures Version <= line
    ensures |line| >= 2 && line[|line| - 2..] == Crlf
  {
    Version + DecimalString(code) + " " + ReasonText(code) + Crlf
  }

  /** The characters of `s` up to the first `stop`: how a client reads one
      field of a line. */
  function TakeUntil(s: string, stop: char): (t: string)
    ensures t <= s && stop !in t
  {
    if s == [] || s[0] == stop then [] else [s[0]] + TakeUntil(s[1..], stop)
  }

  lemma {:induction false} TakeUntilStop(field: string, stop: char, rest: string)
    requires stop !in field
    ensures TakeUntil(field + [stop] + rest, stop) == field
  {
    if field != [] {
      assert (field + [stop] + rest)[1..] == field[1..] + [stop] + rest;
      TakeUntilStop(field[1..], stop, rest);
    }
  }

  /** The status code a client reads from a status line: the token after the
      version. */
  function ParseStatusCode(line: string): Option<int> {
    if Version <= line then DecimalValue(TakeUntil(line[|Version|..], ' ')) else None
  }

  /** A client reading the status line gets back the code the application
      returned, whatever the code and whether or not it has a reason. */
  lemma StatusLineRoundTrip(code: int)
    ensures ParseStatusCode(StatusLine(code)) == Some(code)
  {
    var line := StatusLine(code);
    assert line[|Version|..] == DecimalString(code) + " " + (ReasonText(code) + Crlf);
    TakeUntilStop(DecimalString(code), ' ', ReasonText(code) + Crlf);
    DecimalRoundTrip(code);
  }

  /** A code without a table entry gets an empty reason after a single space. */
  lemma UnknownStatusLine(code: int)
    requires code != 200 && code != 400
    ensures StatusLine(code) == Version + DecimalString(code) + " " + Crlf
  {
  }

  /** The table's two codes rendered by `Integer#to_s`. */
  lemma TableCodeDigits()
    ensures DecimalString(200) == "200" && DecimalString(400) == "400"
  {
    assert NatDigits(2) == "2" && NatDigits(20) == "20";
    assert NatDigits(4) == "4" && NatDigits(40) == "40";
  }

  lemma OkStatusLine()
    ensures StatusLine(200) == "HTTP/1.1 200 OK\r\n"
  {
    TableCodeDigits();
  }

  lemma NotFoundStatusLine()
    ensures StatusLine(400) == "HTTP/1.1 400 Not Found\r\n"
  {
    TableCodeDigits();
  }

  /** The two codes of the table, rendered in full. */
  lemma KnownStatusLines()
    ensures StatusLine(200) == "HTTP/1.1 200 OK\r\n"
    ensures StatusLine(400) == "HTTP/1.1 400 Not Found\r\n"
  {
    OkStatusLine();
    NotFoundStatusLine();
  }
}
