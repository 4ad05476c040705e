/** What one connection does over its lifetime, shared by the blocking and the
    event-driven connection: its phases, and the events it emits once a given
    number of bytes of its stream has reached the parser. */
module Lifecycle {
  import opened Rack
  import opened Response
  import opened HttpParser

  /** The application: `@app.call(env)`, from the request context to the
      response triple. */
  type App = Env -> Triple

  /** A connection reads until the message is complete, responds once, and
      closes its socket; or it stops reading at the end of its stream or at a
      parse error without responding. `Closed` means the connection no longer
      reads or writes; only the path through `Responding` closes the socket
      (the other paths leave no close in the event log). */
  datatype Phase = Reading | Responding | Closed

  predicate Next(p: Phase, q: Phase) {
    || (p == Reading && q == Responding)
    || (p == Reading && q == Closed)
    || (p == Responding && q == Closed)
  }

  /** A history of phases that starts in `Reading` and follows `Next`. */
  predicate IsRun(h: seq<Phase>) {
    && |h| >= 1
    && h[0] == Reading
    && forall i :: 0 < i < |h| ==> Next(h[i - 1], h[i])
  }

  /** Every run is one of four: a connection never reads again once it has
      left `Reading`, and responds at most once. */
  lemma RunShapes(h: seq<Phase>)
    requires IsRun(h)
    ensures h == [Reading] || h == [Reading, Responding] || h == [Reading, Closed]
         || h == [Reading, Responding, Closed]
    ensures forall i :: 0 < i < |h| ==> h[i] != Reading
  {
    forall i | 0 < i < |h| - 1
      ensures h[i] == Responding
    {
      assert Next(h[i - 1], h[i]) && Next(h[i], h[i + 1]);
    }
    if |h| >= 3 {
      assert Next(h[1], h[2]);
    }
    if |h| == 2 {
      assert Next(h[0], h[1]);
      assert h == [h[0], h[1]];
    }
  }

  function RequestEnv(r: Request): Env {
    RackEnv(r.headers, r.url, r.httpMethod)
  }

  /** The events a connection has emitted once `received` bytes of its stream
      have reached the parser: the whole response to the request once the
      message is complete, nothing before that, and nothing ever for a
      rejected stream. */
  function Emitted(v: Verdict, received: nat, app: App): (e: seq<Event>)
    ensures e != [] <==> ProgressAt(v, received) == Complete
    ensures e != [] ==> e == ResponseEvents(app(RequestEnv(v.request)))
  {
    if v.Completes? && v.at <= received then ResponseEvents(app(RequestEnv(v.request))) else []
  }
}
