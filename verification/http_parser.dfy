/** The incremental HTTP parser the connections drive. Its internals belong to
    an external library; here it is an oracle that judges the connection's byte
    stream: the request is complete once a given number of bytes has been fed,
    or the stream is rejected once a given number of bytes has been fed. */
module HttpParser {
  newtype byte = x: int | 0 <= x < 256

  /** At least one byte. */
  type Pos = n: nat | 1 <= n witness 1

  /** What the parser exposes once a message is complete: `headers`,
      `request_url` and `http_method`. */
  datatype Request = Request(headers: seq<(string, string)>, url: string, httpMethod: string)

  /** The parser's judgement of a connection's byte stream. */
  datatype Verdict =
    | Completes(at: Pos, request: Request)  // the message ends at byte `at`
    | Rejects(at: Pos)                       // byte `at` makes the stream malformed

  datatype Progress = Parsing | Complete | Failed

  /** What one `parser << data` does: nothing visible, the completion callback,
      or a parse error raised to the caller. */
  datatype Signal = Pending | MessageComplete | ParseError

  datatype State = State(fed: nat, progress: Progress)

  const Initial: State := State(0, Parsing)

  /** Where the parser stands after `fed` bytes of the stream. */
  function ProgressAt(v: Verdict, fed: nat): Progress {
    if fed < v.at then Parsing
    else if v.Completes? then Complete
    else Failed
  }

  /** Feeding `n` more bytes. A complete parser stays complete and quiet; a
      failed one raises again. */
  function Step(v: Verdict, s: State, n: nat): (r: (State, Signal))
    ensures r.0.fed == s.fed + n
    ensures s.progress == ProgressAt(v, s.fed) ==> r.0.progress == ProgressAt(v, r.0.fed)
    ensures r.1 == MessageComplete <==> s.progress == Parsing && r.0.progress == Complete
  {
    var fed := s.fed + n;
    match s.progress
    case Complete => (State(fed, Complete), Pending)
    case Failed => (State(fed, Failed), ParseError)
    case Parsing =>
      if fed < v.at then (State(fed, Parsing), Pending)
      else if v.Completes? then (State(fed, Complete), MessageComplete)
      else (State(fed, Failed), ParseError)
  }

  /** The whole byte stream delivered as the given pieces. */
  function Flatten(pieces: seq<seq<byte>>): seq<byte> {
    if pieces == [] then [] else Flatten(pieces[..|pieces| - 1]) + pieces[|pieces| - 1]
  }

  /** The parser's state after the pieces are fed one after another. */
  function FeedAll(v: Verdict, s: State, pieces: seq<seq<byte>>): State {
    if pieces == [] then s
    else Step(v, FeedAll(v, s, pieces[..|pieces| - 1]), |pieces[|pieces| - 1]|).0
  }

  /** The signals the feeds produce, one per piece. */
  function Signals(v: Verdict, s: State, pieces: seq<seq<byte>>): (sigs: seq<Signal>)
    ensures |sigs| == |pieces|
  {
    if pieces == [] then []
    else
      var init := pieces[..|pieces| - 1];
      Signals(v, s, init) + [Step(v, FeedAll(v, s, init), |pieces[|pieces| - 1]|).1]
  }

  /** A consistency check of the oracle: however the stream is cut into
      pieces, feeding them one after another ends where the whole stream
      takes it. */
  lemma {:induction false} FeedAllIgnoresBoundaries(v: Verdict, pieces: seq<seq<byte>>)
    ensures FeedAll(v, Initial, pieces) == State(|Flatten(pieces)|, ProgressAt(v, |Flatten(pieces)|))
  {
    if pieces != [] {
      FeedAllIgnoresBoundaries(v, pieces[..|pieces| - 1]);
    }
  }

  function CountCompletions(sigs: seq<Signal>): nat {
    if sigs == [] then 0
    else CountCompletions(sigs[..|sigs| - 1]) + (if sigs[|sigs| - 1] == MessageComplete then 1 else 0)
  }

  /** A consistency check of the oracle: over any cutting of the stream into
      pieces, its feeds signal completion once if the stream holds a whole
      message, and never otherwise. */
  lemma {:induction false} CompletionSignalledOnce(v: Verdict, pieces: seq<seq<byte>>)
    ensures CountCompletions(Signals(v, Initial, pieces)) ==
            if v.Completes? && v.at <= |Flatten(pieces)| then 1 else 0
  {
    if pieces != [] {
      var init := pieces[..|pieces| - 1];
      CompletionSignalledOnce(v, init);
      FeedAllIgnoresBoundaries(v, init);
      var sigs := Signals(v, Initial, pieces);
      assert sigs[..|sigs| - 1] == Signals(v, Initial, init);
    }
  }

  /** The parser object: the oracle's verdict on this connection's stream, and
      how far the stream has been fed. */
  class Parser {
    const verdict: Verdict
    var fed: nat
    var progress: Progress

    /** `Http::Parser.new(self)`. */
    constructor (verdict: Verdict)
      ensures this.verdict == verdict && fed == 0 && progress == Parsing
    {
      this.verdict := verdict;
      fed := 0;
      progress := Parsing;
    }

    ghost predicate Valid()
      reads this
    {
      progress == ProgressAt(verdict, fed)
    }

    function CurrentState(): State
      reads this
    {
      State(fed, progress)
    }

    /** `@parser << data`. */
    method Feed(data: seq<byte>) returns (signal: Signal)
      modifies this
      ensures (CurrentState(), signal) == Step(verdict, old(CurrentState()), |data|)
    {
      var (next, sig) := Step(verdict, CurrentState(), |data|);
      fed, progress, signal := next.fed, next.progress, sig;
    }

    /** `headers`, `request_url` and `http_method`, readable once the message
        is complete. */
    function ParsedRequest(): (r: Request)
      requires Valid() && progress == Complete
      reads this
      ensures verdict == Completes(verdict.at, r)
    {
      verdict.request
    }
  }
}
