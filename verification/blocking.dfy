/** The blocking connection (`Tube::Connection`): its thread reads the socket in
    chunks of up to 1024 bytes and feeds the parser until the socket is closed
    or at end of stream; the parser's completion callback builds the request
    context, calls the application, writes the response and closes the socket. */
module Blocking {
  import opened Rack
  import opened Response
  import opened HttpParser
  import opened Lifecycle

  const ReadSize: nat := 1024

  /** How `process` ends: after the response, at the end of the peer's stream
      with no complete request, or with the parser's error escaping. */
  datatype Ending = Responded | PeerFinished | ParserRaised

  /** The ending for a stream of `length` bytes. */
  function EndingFor(v: Verdict, length: nat): Ending {
    if length < v.at then PeerFinished
    else if v.Completes? then Responded
    else ParserRaised
  }

  /** An accepted socket: the bytes the peer has sent and this side has not yet
      read (the peer sends nothing more), and the outgoing side. */
  class Socket {
    var input: seq<byte>
    const out: Sink

    constructor (input: seq<byte>)
      ensures this.input == input && fresh(out) && out.events == []
    {
      this.input := input;
      out := new Sink();
    }

    /** `closed?`: true once the connection's close has been recorded. */
    predicate IsClosed()
      reads out
    {
      out.IsClosed()
    }

    /** `eof?`: true exactly when no byte is left for `readpartial` to return. */
    predicate AtEof()
      reads this
    {
      input == []
    }

    /** `readpartial(maxlen)`: between one and `maxlen` of the bytes that have
        arrived, however many the network happens to deliver. */
    method ReadPartial(maxlen: nat) returns (data: seq<byte>)
      requires 1 <= maxlen && !AtEof() && !IsClosed()
      modifies this
      ensures 1 <= |data| <= maxlen && old(input) == data + input
    {
      var n :| 1 <= n <= maxlen && n <= |input|;
      data, input := input[..n], input[n..];
    }
  }

  class Connection {
    const socket: Socket
    const parser: Parser
    const app: App
    ghost var phase: Phase
    ghost var history: seq<Phase>

    /** The parser is consistent with its verdict, the socket carries exactly
        what the bytes fed so far call for, and the phases form a run. */
    ghost predicate Valid()
      reads this, socket.out, parser
    {
      && parser.Valid()
      && socket.out.events == Emitted(parser.verdict, parser.fed, app)
      && IsRun(history)
      && phase == history[|history| - 1]
    }

    /** `Connection.new(socket, app)`, with `Http::Parser.new(self)`; the
        parser comes with its verdict on this socket's stream. */
    constructor (socket: Socket, app: App, verdict: Verdict)
      requires socket.out.events == []
      ensures Valid()
      ensures this.socket == socket && this.app == app
      ensures fresh(parser) && parser.verdict == verdict && parser.fed == 0
      ensures history == [Reading]
    {
      this.socket := socket;
      this.app := app;
      parser := new Parser(verdict);
      phase := Reading;
      history := [Reading];
    }

    /** `process`: read and feed until the socket is closed or at end of
        stream. The socket ends up carrying exactly the response to the
        request if the stream holds a whole one, and nothing otherwise. The
        loop stops on `closed?` exactly when the response was sent, and on
        `eof?` only once every byte of the stream has reached the parser. */
    method Process() returns (ending: Ending)
      requires Valid() && parser.fed == 0 && history == [Reading]
      modifies this, socket, socket.out, parser
      ensures Valid()
      ensures socket.out.events == Emitted(parser.verdict, |old(socket.input)|, app)
      ensures ending == EndingFor(parser.verdict, |old(socket.input)|)
      ensures history == if ending == Responded then [Reading, Responding, Closed] else [Reading, Closed]
      ensures socket.IsClosed() <==> ending == Responded
      ensures ending == PeerFinished ==> socket.AtEof() && parser.fed == |old(socket.input)|
    {
      ghost var length := |socket.input|;
      while !socket.IsClosed() && !socket.AtEof()
        invariant Valid()
        invariant parser.fed + |socket.input| == length
        invariant parser.progress != Failed
        invariant socket.IsClosed() <==> parser.progress == Complete
        invariant history == if parser.progress == Complete then [Reading, Responding, Closed] else [Reading]
        decreases |socket.input|
      {
        var data := socket.ReadPartial(ReadSize);
        var signal := parser.Feed(data);
        if signal == ParseError {
          phase := Closed;
          history := history + [Closed];
          return ParserRaised;
        }
        if signal == MessageComplete {
          OnMessageComplete();
        }
      }
      if socket.IsClosed() {
        ending := Responded;
      } else {
        ending := PeerFinished;
        phase := Closed;
        history := history + [Closed];
      }
    }

    /** `on_message_complete`: build the context from what the parser
        exposes, then respond. */
    method OnMessageComplete()
      requires parser.Valid() && parser.progress == Complete
      requires socket.out.events == [] && history == [Reading] && phase == Reading
      modifies this, socket.out
      ensures Valid()
      ensures socket.out.events == ResponseEvents(app(RequestEnv(parser.verdict.request)))
      ensures history == [Reading, Responding, Closed]
    {
      var request := parser.ParsedRequest();
      var env := CreateRackEnv(request.headers, request.url, request.httpMethod);
      phase := Responding;
      history := history + [Responding];
      SendResponse(env);
    }

    /** `send_response`: call the application, write its response, release
        the body, close the socket. */
    method SendResponse(env: Env)
      requires !socket.IsClosed() && phase == Responding
      modifies this, socket.out
      ensures socket.out.events == old(socket.out.events) + ResponseEvents(app(env))
      ensures history == old(history) + [Closed] && phase == Closed
    {
      var t := app(env);
      Transmit(socket.out, t);
      Close();
    }

    /** `close`: `@socket.close`. */
    method Close()
      requires phase != Closed
      modifies this, socket.out
      ensures socket.out.events ==
              if old(socket.IsClosed()) then old(socket.out.events) else old(socket.out.events) + [CloseConnection]
      ensures history == old(history) + [Closed] && phase == Closed
    {
      socket.out.Close();
      phase := Closed;
      history := history + [Closed];
    }
  }
}
