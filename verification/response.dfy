/** The application's result and how a connection puts it on the wire. */
module Response {
  import opened Status

  /** The response body: a sequence of chunks, and whether the body object
      answers `close`. */
  datatype Body = Plain(chunks: seq<string>) | Closeable(chunks: seq<string>)

  /** What `@app.call(env)` returns: status, headers in iteration order, body. */
  datatype Triple = Triple(status: int, headers: seq<(string, string)>, body: Body)

  /** One observable action of a connection, in the order it happens: a write
      to the peer, the release of the response body, or the closing of the
      connection. The body's release is recorded with the writes so that its
      order relative to them can be stated. */
  datatype Event = Write(data: string) | BodyRelease | CloseConnection

  const BlankLine: string := "\r\n"

  /** `"#{name}: #{value}\r\n"`: the line starts with the name, the value
      sits between the `": "` separator and the closing CRLF. */
  function HeaderLine(header: (string, string)): (line: string)
    ensures |line| == |header.0| + 2 + |header.1| + 2
    ensures line[..|header.0|] == header.0 && line[|header.0|..|header.0| + 2] == ": "
    ensures line[|header.0| + 2..|line| - 2] == header.1 && line[|line| - 2..] == Crlf
  {
    header.0 + ": " + header.1 + Crlf
  }


  /** How a client splits a header line: the name up to the first colon, then
      `": "`, then the value up to the closing CRLF. */
  function ParseHeaderLine(line: string): Option<(string, string)> {
    var name := TakeUntil(line, ':');
    if |name| + 4 <= |line| && line[|name|..|name| + 2] == ": " && line[|line| - 2..] == Crlf
    then Some((name, line[|name| + 2..|line| - 2]))
    else None
  }

  /** A header whose name has no colon is read back as the same name and value. */
  lemma HeaderLineRoundTrip(header: (string, string))
    requires ':' !in header.0
    ensures ParseHeaderLine(HeaderLine(header)) == Some(header)
  {
    var line := HeaderLine(header);
    assert line == header.0 + ":" + (" " + header.1 + Crlf);
    TakeUntilStop(header.0, ':', " " + header.1 + Crlf);
  }

  /** The header lines in the headers' iteration order: line `i` is header `i`'s. */
  function HeaderLines(headers: seq<(string, string)>): (lines: seq<string>)
    ensures |lines| == |headers|
    ensures forall i :: 0 <= i < |headers| ==> lines[i] == HeaderLine(headers[i])
  {
    if headers == [] then [] else HeaderLines(headers[..|headers| - 1]) + [HeaderLine(headers[|headers| - 1])]
  }

  /** The strings `send_response` writes, one per write call: the status line,
      one line per header, the blank line, then every body chunk. */
  function Writes(t: Triple): (w: seq<string>)
    ensures |w| == 2 + |t.headers| + |t.body.chunks|
  {
    [StatusLine(t.status)] + HeaderLines(t.headers) + [BlankLine] + t.body.chunks
  }

  function WriteEvents(w: seq<string>): (e: seq<Event>)
    ensures |e| == |w|
  {
    if w == [] then [] else WriteEvents(w[..|w| - 1]) + [Write(w[|w| - 1])]
  }

  lemma {:induction false} WriteEventsAt(w: seq<string>)
    ensures forall i :: 0 <= i < |w| ==> WriteEvents(w)[i] == Write(w[i])
    decreases |w|
  {
    if w != [] {
      WriteEventsAt(w[..|w| - 1]);
    }
  }

  /** Everything `send_response` does before closing: the writes, then the
      body's `close` when the body has one. */
  function Transmission(t: Triple): seq<Event> {
    WriteEvents(Writes(t)) + (if t.body.Closeable? then [BodyRelease] else [])
  }

  /** Everything `send_response` does, ending with the connection's close. */
  function ResponseEvents(t: Triple): seq<Event> {
    Transmission(t) + [CloseConnection]
  }

  /** The shape of `ResponseEvents` for any list of writes. */
  lemma EventOrder(w: seq<string>, closeable: bool)
    ensures var e := WriteEvents(w) + (if closeable then [BodyRelease] else []) + [CloseConnection];
      && |e| == |w| + (if closeable then 1 else 0) + 1
      && (forall i :: 0 <= i < |e| ==> (e[i].Write? <==> i < |w|))
      && (BodyRelease in e <==> closeable)
      && e[|e| - 1] == CloseConnection
      && CloseConnection !in e[..|e| - 1]
  {
    var we := WriteEvents(w);
    var release: seq<Event> := if closeable then [BodyRelease] else [];
    var e := we + release + [CloseConnection];
    WriteEventsAt(w);
    forall k | 0 <= k < |e|
      ensures e[k].Write? <==> k < |w|
    {
      if k < |w| {
        assert e[k] == we[k];
      } else if k < |w| + |release| {
        assert e[k] == release[k - |w|];
      } else {
        assert e[k] == CloseConnection;
      }
    }
    assert CloseConnection !in we && BodyRelease !in we by {
      forall x | x in we
        ensures x.Write?
      {
        var k :| 0 <= k < |we| && we[k] == x;
        assert we[k] == Write(w[k]);
      }
    }
    assert e[..|e| - 1] == we + release;
    if closeable {
      assert e[|w|] == BodyRelease;
    }
  }

  /** The order of a response: first exactly 2 + |headers| + |chunks| writes,
      then the body's release if and only if the body is closeable, and the
      close last and only once. */
  lemma ResponseEventOrder(t: Triple)
    ensures var e := ResponseEvents(t);
      && |e| == 2 + |t.headers| + |t.body.chunks| + (if t.body.Closeable? then 1 else 0) + 1
      && (forall i :: 0 <= i < |e| ==> (e[i].Write? <==> i < 2 + |t.headers| + |t.body.chunks|))
      && (BodyRelease in e <==> t.body.Closeable?)
      && e[|e| - 1] == CloseConnection
      && CloseConnection !in e[..|e| - 1]
  {
    EventOrder(Writes(t), t.body.Closeable?);
  }

  /** The bytes written: the concatenation of the strings in order. */
  function Concat(parts: seq<string>): string {
    if parts == [] then "" else Concat(parts[..|parts| - 1]) + parts[|parts| - 1]
  }

  /** The bytes that reach the peer through a sequence of events. */
  function Wire(events: seq<Event>): string {
    if events == [] then ""
    else
      var last := events[|events| - 1];
      Wire(events[..|events| - 1]) + (if last.Write? then last.data else "")
  }

  lemma {:induction false} ConcatAppend(a: seq<string>, b: seq<string>)
    ensures Concat(a + b) == Concat(a) + Concat(b)
    decreases |b|
  {
    if b == [] {
      assert a + b == a;
    } else {
      var init := b[..|b| - 1];
      assert (a + b)[..|a + b| - 1] == a + init;
      assert (a + b)[|a + b| - 1] == b[|b| - 1];
      ConcatAppend(a, init);
    }
  }

  lemma {:induction false} WireAppend(a: seq<Event>, b: seq<Event>)
    ensures Wire(a + b) == Wire(a) + Wire(b)
    decreases |b|
  {
    if b == [] {
      assert a + b == a;
    } else {
      var init := b[..|b| - 1];
      assert (a + b)[..|a + b| - 1] == a + init;
      assert (a + b)[|a + b| - 1] == b[|b| - 1];
      WireAppend(a, init);
    }
  }

  lemma {:induction false} WireOfWrites(w: seq<string>)
    ensures Wire(WriteEvents(w)) == Concat(w)
    decreases |w|
  {
    if w != [] {
      assert WriteEvents(w)[..|w| - 1] == WriteEvents(w[..|w| - 1]);
      WireOfWrites(w[..|w| - 1]);
    }
  }

  lemma WriteEventsSnoc(w: seq<string>, x: string)
    ensures WriteEvents(w + [x]) == WriteEvents(w) + [Write(x)]
  {
    assert (w + [x])[..|w|] == w;
  }

  lemma {:induction false} WriteEventsAppend(a: seq<string>, b: seq<string>)
    ensures WriteEvents(a + b) == WriteEvents(a) + WriteEvents(b)
    decreases |b|
  {
    if b == [] {
      assert a + b == a;
    } else {
      var init := b[..|b| - 1];
      assert (a + b)[..|a + b| - 1] == a + init;
      WriteEventsAppend(a, init);
    }
  }

  /** The events of the writes of a response, between earlier events `before`
      and later events `after`, are the writes one part at a time. */
  lemma WriteEventsOfParts(before: seq<Event>, first: string, middle: seq<string>, last: string,
                           rest: seq<string>, after: seq<Event>)
    ensures before + (WriteEvents([first] + middle + [last] + rest) + after) ==
            before + [Write(first)] + WriteEvents(middle) + [Write(last)] + WriteEvents(rest) + after
  {
    WriteEventsAppend([first] + middle + [last], rest);
    WriteEventsAppend([first] + middle, [last]);
    WriteEventsAppend([first], middle);
    assert [first][..0] == [];
    assert [last][..0] == [];
  }

  predicate EndsWithCrlf(s: string) {
    |s| >= 2 && s[|s| - 2..] == Crlf
  }

  lemma {:induction false} HeaderBlockEndsWithCrlf(statusLine: string, headers: seq<(string, string)>)
    requires EndsWithCrlf(statusLine)
    ensures EndsWithCrlf(statusLine + Concat(HeaderLines(headers)))
    decreases |headers|
  {
    if headers != [] {
      var init := headers[..|headers| - 1];
      assert HeaderLines(headers)[..|headers| - 1] == HeaderLines(init);
      HeaderBlockEndsWithCrlf(statusLine, init);
      var line := HeaderLine(headers[|headers| - 1]);
      var s := statusLine + Concat(HeaderLines(headers));
      assert s == (statusLine + Concat(HeaderLines(init))) + line;
      assert s[|s| - 2..] == line[|line| - 2..];
    }
  }

  /** The response head: status line, header lines and the blank line. */
  function Head(t: Triple): string {
    StatusLine(t.status) + Concat(HeaderLines(t.headers)) + BlankLine
  }

  lemma WireOfResponseEvents(t: Triple)
    ensures Wire(ResponseEvents(t)) == Concat(Writes(t))
  {
    var release: seq<Event> := if t.body.Closeable? then [BodyRelease] else [];
    var tail := release + [CloseConnection];
    assert ResponseEvents(t) == WriteEvents(Writes(t)) + tail;
    WireAppend(WriteEvents(Writes(t)), tail);
    assert tail[..|tail| - 1] == release;
    assert Wire(release) == "" by {
      if release != [] {
        assert release[..0] == [];
      }
    }
    WireOfWrites(Writes(t));
  }

  lemma ConcatOfParts(first: string, middle: seq<string>, last: string, rest: seq<string>)
    ensures Concat([first] + middle + [last] + rest) == first + Concat(middle) + last + Concat(rest)
  {
    ConcatAppend([first] + middle + [last], rest);
    ConcatAppend([first] + middle, [last]);
    ConcatAppend([first], middle);
    assert [first][..0] == [];
    assert [last][..0] == [];
  }

  lemma ConcatOfWrites(t: Triple)
    ensures Concat(Writes(t)) == Head(t) + Concat(t.body.chunks)
  {
    ConcatOfParts(StatusLine(t.status), HeaderLines(t.headers), BlankLine, t.body.chunks);
  }

  lemma EndsWithEmptyLine(front: string)
    requires EndsWithCrlf(front)
    ensures var h := front + BlankLine; |h| >= 4 && h[|h| - 4..] == "\r\n\r\n"
  {
    var h := front + BlankLine;
    assert h[|h| - 4..] == front[|front| - 2..] + BlankLine;
  }

  lemma KeepsVersion(line: string, rest: string)
    requires Version <= line
    ensures Version <= line + rest
  {
    assert (line + rest)[..|Version|] == line[..|Version|];
  }

  lemma HeadShape(line: string, headers: seq<(string, string)>)
    requires Version <= line && EndsWithCrlf(line)
    ensures var h := line + Concat(HeaderLines(headers)) + BlankLine;
      Version <= h && |h| >= 4 && h[|h| - 4..] == "\r\n\r\n"
  {
    HeaderBlockEndsWithCrlf(line, headers);
    EndsWithEmptyLine(line + Concat(HeaderLines(headers)));
    KeepsVersion(line, Concat(HeaderLines(headers)) + BlankLine);
  }

  /** On the wire a response is its head followed by the body chunks verbatim,
      and the head starts with the version and always ends in an empty line,
      so the header block is terminated before any body byte. */
  lemma WireOfResponse(t: Triple)
    ensures Wire(ResponseEvents(t)) == Head(t) + Concat(t.body.chunks)
    ensures Version <= Head(t)
    ensures |Head(t)| >= 4 && Head(t)[|Head(t)| - 4..] == "\r\n\r\n"
  {
    WireOfResponseEvents(t);
    ConcatOfWrites(t);
    HeadShape(StatusLine(t.status), t.headers);
  }

  lemma OneHeaderOneChunk(status: int, header: (string, string), chunk: string)
    ensures Wire(ResponseEvents(Triple(status, [header], Plain([chunk]))))
            == StatusLine(status) + HeaderLine(header) + BlankLine + chunk
  {
    var t := Triple(status, [header], Plain([chunk]));
    WireOfResponse(t);
    assert HeaderLines([header]) == [HeaderLine(header)] by {
      assert [header][..0] == [];
    }
    assert Concat([HeaderLine(header)]) == HeaderLine(header) by {
      assert [HeaderLine(header)][..0] == [];
    }
    assert Concat([chunk]) == chunk by {
      assert [chunk][..0] == [];
    }
  }

  lemma ContentTypeLine()
    ensures HeaderLine(("Content-Type", "text/plain")) == "Content-Type: text/plain\r\n"
  {
  }

  /** The example response: 200, one Content-Type header, body "hello". */
  lemma ExampleResponse()
    ensures Wire(ResponseEvents(Triple(200, [("Content-Type", "text/plain")], Plain(["hello"]))))
            == "HTTP/1.1 200 OK\r\n" + "Content-Type: text/plain\r\n" + "\r\n" + "hello"
  {
    OneHeaderOneChunk(200, ("Content-Type", "text/plain"), "hello");
    OkStatusLine();
    ContentTypeLine();
  }

  /** The outgoing side of a connection: an append-only record of its events.
      For the blocking connection this is the socket, for the event-driven one
      the reactor's send queue. */
  class Sink {
    var events: seq<Event>

    constructor ()
      ensures events == []
    {
      events := [];
    }

    predicate IsClosed()
      reads this
    {
      CloseConnection in events
    }

    /** `@socket.write data` / `send_data data`; writing after the close is an error. */
    method Send(data: string)
      requires !IsClosed()
      modifies this
      ensures events == old(events) + [Write(data)]
    {
      events := events + [Write(data)];
    }

    /** `body.close`, recorded in order with the writes. */
    method ReleaseBody()
      modifies this
      ensures events == old(events) + [BodyRelease]
    {
      events := events + [BodyRelease];
    }

    /** `@socket.close` / `close_connection_after_writing`; closing twice does nothing. */
    method Close()
      modifies this
      ensures events == if old(IsClosed()) then old(events) else old(events) + [CloseConnection]
    {
      if !IsClosed() {
        events := events + [CloseConnection];
      }
    }
  }

  /** `headers.each_pair { |name, value| write "#{name}: #{value}\r\n" }`. */
  method SendHeaderLines(sink: Sink, headers: seq<(string, string)>)
    requires !sink.IsClosed()
    modifies sink
    ensures sink.events == old(sink.events) + WriteEvents(HeaderLines(headers))
    ensures !sink.IsClosed()
  {
    for i := 0 to |headers|
      invariant sink.events == old(sink.events) + WriteEvents(HeaderLines(headers[..i]))
      invariant !sink.IsClosed()
    {
      assert headers[..i + 1][..i] == headers[..i];
      WriteEventsSnoc(HeaderLines(headers[..i]), HeaderLine(headers[i]));
      sink.Send(HeaderLine(headers[i]));
    }
    assert headers[..|headers|] == headers;
  }

  /** `body.each { |chunk| write chunk }`. */
  method SendChunks(sink: Sink, chunks: seq<string>)
    requires !sink.IsClosed()
    modifies sink
    ensures sink.events == old(sink.events) + WriteEvents(chunks)
    ensures !sink.IsClosed()
  {
    for i := 0 to |chunks|
      invariant sink.events == old(sink.events) + WriteEvents(chunks[..i])
      invariant !sink.IsClosed()
    {
      assert chunks[..i + 1] == chunks[..i] + [chunks[i]];
      WriteEventsSnoc(chunks[..i], chunks[i]);
      sink.Send(chunks[i]);
    }
    assert chunks[..|chunks|] == chunks;
  }

  /** The body of `send_response` that both connection kinds share: the status
      line, each header line in order, the blank line, each chunk verbatim,
      then `body.close if body.respond_to? :close`. */
  method Transmit(sink: Sink, t: Triple)
    requires !sink.IsClosed()
    modifies sink
    ensures sink.events == old(sink.events) + Transmission(t)
    ensures !sink.IsClosed()
  {
    ghost var release: seq<Event> := if t.body.Closeable? then [BodyRelease] else [];
    var line := StatusLine(t.status);
    WriteEventsOfParts(sink.events, line, HeaderLines(t.headers), BlankLine, t.body.chunks, release);
    sink.Send(line);
    SendHeaderLines(sink, t.headers);
    sink.Send(BlankLine);
    SendChunks(sink, t.body.chunks);
    if t.body.Closeable? {
      sink.ReleaseBody();
    } else {
      assert sink.events + release == sink.events;
    }
  }
}
