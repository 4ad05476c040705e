/** The event-driven connection (`Tube::EMConnection`): the reactor hands it
    each piece of data as it arrives, it feeds the parser, and the parser's
    completion callback responds with `send_data` and asks the reactor to close
    the connection once everything is written. */
module Evented {
  import opened Rack
  import opened Response
  import opened HttpParser
  import opened Lifecycle

  /** The phases a connection has gone through, given where its parser stands. */
  function HistoryFor(p: Progress): (h: seq<Phase>)
    ensures IsRun(h)
  {
    match p
    case Parsing => [Reading]
    case Complete => [Reading, Responding, Closed]
    case Failed => [Reading, Closed]
  }

  class EMConnection {
    const app: App
    const parser: Parser
    /** What `send_data` and `close_connection_after_writing` hand to the reactor. */
    const out: Sink
    ghost var phase: Phase
    ghost var history: seq<Phase>

    /** The parser is consistent with its verdict, the reactor holds exactly
        what the bytes fed so far call for, and the phases follow the parser. */
    ghost predicate Valid()
      reads this, parser, out
    {
      && parser.Valid()
      && out.events == Emitted(parser.verdict, parser.fed, app)
      && history == HistoryFor(parser.progress)
      && phase == history[|history| - 1]
    }

    /** `post_init`, which creates the parser (here with its verdict on this
        connection's stream), then the `start_server` block, which sets `app`. */
    constructor (app: App, verdict: Verdict)
      ensures Valid()
      ensures this.app == app && parser.verdict == verdict && parser.fed == 0
      ensures fresh(parser) && fresh(out) && history == [Reading]
    {
      this.app := app;
      parser := new Parser(verdict);
      out := new Sink();
      phase := Reading;
      history := [Reading];
    }

    /** `receive_data`: feed the parser. `raised` says the parser's error
        escaped `receive_data`; nothing in the connection rescues it, and no
        close is recorded for it. */
    method ReceiveData(data: seq<byte>) returns (raised: bool)
      requires Valid()
      modifies this, parser, out
      ensures Valid()
      ensures parser.fed == old(parser.fed) + |data|
      ensures raised <==> parser.progress == Failed
    {
      var signal := parser.Feed(data);
      if signal == ParseError {
        phase := Closed;
        history := HistoryFor(Failed);
        return true;
      }
      if signal == MessageComplete {
        OnMessageComplete();
      }
      raised := false;
    }

    /** `on_message_complete`: build the context from what the parser
        exposes, then respond. */
    method OnMessageComplete()
      requires parser.Valid() && parser.progress == Complete
      requires out.events == [] && history == [Reading] && phase == Reading
      modifies this, out
      ensures Valid()
      ensures out.events == ResponseEvents(app(RequestEnv(parser.verdict.request)))
    {
      var request := parser.ParsedRequest();
      var env := CreateRackEnv(request.headers, request.url, request.httpMethod);
      phase := Responding;
      history := history + [Responding];
      SendResponse(env);
    }

    /** `send_response`: call the application, queue its response with
        `send_data`, release the body, then `close_connection_after_writing`. */
    method SendResponse(env: Env)
      requires !out.IsClosed() && phase == Responding
      modifies this, out
      ensures out.events == old(out.events) + ResponseEvents(app(env))
      ensures history == old(history) + [Closed] && phase == Closed
    {
      var t := app(env);
      Transmit(out, t);
      out.Close();
      phase := Closed;
      history := history + [Closed];
    }
  }
}
