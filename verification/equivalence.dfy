/** The two ways the server runs a connection (a thread per socket, or the
    reactor) answer the same stream with the same events, however the network
    cuts it into pieces. */
module Equivalence {
  import opened Response
  import opened HttpParser
  import opened Lifecycle
  import opened Blocking
  import opened Evented

  /** The reactor delivering `pieces` to a fresh event-driven connection, one
      `receive_data` each, until the parser's error escapes. */
  method Deliver(em: EMConnection, pieces: seq<seq<byte>>)
    requires em.Valid() && em.parser.fed == 0
    modifies em, em.parser, em.out
    ensures em.Valid()
    ensures em.out.events == Emitted(em.parser.verdict, |Flatten(pieces)|, em.app)
  {
    var i := 0;
    while i < |pieces|
      invariant 0 <= i <= |pieces|
      invariant em.Valid()
      invariant em.parser.fed == |Flatten(pieces[..i])|
      decreases |pieces| - i
    {
      var raised := em.ReceiveData(pieces[i]);
      assert pieces[..i + 1][..i] == pieces[..i];
      i := i + 1;
      if raised {
        assert em.parser.verdict.Rejects?;
        return;
      }
    }
    assert pieces[..|pieces|] == pieces;
  }

  /** Runs one connection of each kind on `stream`: the blocking one reads it
      from its socket, the event-driven one receives it as `pieces`. */
  method ServeBoth(app: App, v: Verdict, stream: seq<byte>, pieces: seq<seq<byte>>)
    returns (threaded: seq<Event>, evented: seq<Event>)
    requires Flatten(pieces) == stream
    ensures threaded == evented
    ensures threaded == Emitted(v, |stream|, app)
  {
    var socket := new Socket(stream);
    var connection := new Connection(socket, app, v);
    var _ := connection.Process();
    threaded := socket.out.events;

    var em := new EMConnection(app, v);
    Deliver(em, pieces);
    evented := em.out.events;
  }
}
