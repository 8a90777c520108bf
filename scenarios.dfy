/**
 * Whole-session walkthroughs of `net`, each on a fresh connection whose
 * codec always succeeds (or always fails), stating what the caller observes.
 */
module Scenarios {
  import opened Wrappers
  import opened JsNumbers
  import opened Messages
  import opened Network
  import Session
  import Heartbeat

  /** A codec whose serialization always succeeds and whose every inbound message is `response`. */
  function FixedCodec(response: Response): Codec
  {
    Codec((r: Request) => Some([]), (raw: seq<byte>) => Some(response))
  }

  /** A connection opened through `connect_host` and its open event. */
  method OpenSession(codec: Codec) returns (net: Net, s: Socket)
    ensures fresh(net) && fresh(s) && net.Valid()
    ensures net.codec == codec && net.socket == s && s.readyState == Open && s.sent == []
    ensures net.sessionId == 0 && net.cbMap == map[] && net.handler == map[]
    ensures net.heartDelay == 5 && !net.beginUpdate && !net.printer && net.invoked == []
    ensures s.openCallback == None && s.closeCallback == None
  {
    net := new Net(codec);
    s := net.ConnectHost("ws://127.0.0.1:8080", None, None);
    s.HandshakeDone();
    net.OnOpen(s);
  }

  /** The response every heartbeat scenario receives: an answer to the first hello. */
  function HelloAnswer(): Response
  {
    Response(Some(1), Some(HelloCmd), Nil)
  }

  /**
   * With interval 5, `update(0)` arms the heartbeat without sending and
   * `update(5)` sends the first hello, under session id 1, due back by 10.
   */
  method FirstHello() returns (net: Net, s: Socket)
    ensures fresh(net) && fresh(s) && net.Valid()
    ensures net.codec == FixedCodec(HelloAnswer()) && net.socket == s && s.readyState == Open
    ensures |s.sent| == 1 && net.cbMap == map[1 := Some(PongAck)] && net.handler == map[]
    ensures net.HeartbeatState() == Heartbeat.Beat(true, 10, false) && net.heartDelay == 5 && !net.printer
  {
    net, s := OpenSession(FixedCodec(HelloAnswer()));
    net.Update(0, 0);
    assert s.sent == [] && net.pingTime == 5;
    net.Update(5, 5);
  }

  /**
   * Heartbeat with interval 5, on a connection whose owner set a print
   * function (so `close()` does not throw): after the first hello,
   * `update(10)` closes the connection unless the hello was acknowledged, in which case it
   * sends the next hello, due at 15.
   */
  method HeartbeatTimeline(acked: bool) returns (hellos: nat, closedAt10: bool, deadline: int)
    ensures hellos == (if acked then 2 else 1)
    ensures closedAt10 == !acked
    ensures deadline == (if acked then 15 else 0)
  {
    var net, s := FirstHello();
    net.SetPrint(Some(App(0)));
    if acked {
      net.Dispatch([]);
      assert net.lastPongCheck;
    }
    net.Update(10, 10);
    hellos := |s.sent|;
    closedAt10 := net.IsClose();
    deadline := net.pingTime;
  }

  /** The codec of the echo scenario: every inbound message answers session 1 with 42. */
  function EchoCodec(): Codec
  {
    FixedCodec(Response(Some(1), Some("hall.echo"), Int(42)))
  }

  /** An open connection with handler 3 registered for `hall.echo`. */
  method EchoRegistered() returns (net: Net)
    ensures fresh(net) && net.Valid() && net.Ready() && fresh(net.socket) && net.invoked == []
    ensures net.codec == EchoCodec() && net.sessionId == 0 && net.cbMap == map[]
    ensures net.handler == map["hall.echo" := App(3)]
  {
    var s;
    net, s := OpenSession(EchoCodec());
    net.Register(Some("hall.echo"), Some(App(3)));
  }

  /** A request sent with callback 7 while handler 3 is registered for its command. */
  method EchoPending() returns (net: Net)
    ensures fresh(net) && net.Valid() && net.socket != null && net.invoked == []
    ensures net.codec == EchoCodec() && net.cbMap == map[1 := Some(App(7))]
  {
    net := EchoRegistered();
    assert Session.NextSession(0) == 1;
    assert net.codec.serialize(MakeRequest(1, "hall.echo", Some(Str("123")), 0)) == Some([]);
    var r := net.SendMsg("hall.echo", Some(Str("123")), Some(App(7)), 0);
  }

  /**
   * On a connection whose owner set a print function, a heartbeat falls
   * due after the connection dropped but before its close event arrived: `send_msg` sends nothing, yet the hello is marked
   * outstanding, so the next due tick times out and `close()` forgets the
   * socket.
   */
  method HelloOnDroppedSocket() returns (frames: nat, outstanding: bool, counter: int, forgottenAt10: bool, deadline: int)
    ensures frames == 0 && outstanding && counter == 0 && forgottenAt10 && deadline == 0
  {
    var net, s := OpenSession(FixedCodec(Response(None, None, Nil)));
    net.SetPrint(Some(App(0)));
    net.Update(0, 0);
    s.ConnectionLost();
    net.Update(5, 5);
    frames := |s.sent|;
    outstanding := !net.lastPongCheck;
    counter := net.sessionId;
    assert net.socket == s;
    net.Update(10, 10);
    forgottenAt10 := net.socket == null;
    deadline := net.pingTime;
  }

  /**
   * A heartbeat timeout with `update` and `close()` as written, on a
   * connection whose owner never called `set_print`: the timeout throws, the
   * socket stays stored and open, and no later tick sends or closes
   * anything, so the dead connection is never detected.
   */
  method TimeoutWithoutPrinter() returns (threw: bool, stillOpen: bool, hellos: nat, quietAt20: bool)
    ensures threw && stillOpen && hellos == 1 && quietAt20
  {
    var net, s := FirstHello();
    threw := net.UpdateAsWritten(10, 10);
    assert net.socket == s && net.HeartbeatState() == Heartbeat.Beat(true, 0, false);
    var threwAgain := net.UpdateAsWritten(15, 15);
    net.Update(20, 20);
    stillOpen := !net.IsClose();
    hellos := |s.sent|;
    quietAt20 := !threwAgain && net.pingTime == 0;
  }

  /**
   * A response is delivered to its pending callback each time it arrives:
   * `dispatch` never removes the entry, and the handler for the same command
   * is not called.
   */
  method RepeatedResponse() returns (calls: seq<Invocation>)
    ensures calls == [Call(App(7), Int(42)), Call(App(7), Int(42))]
  {
    var net := EchoPending();
    net.Dispatch([]);
    net.Dispatch([]);
    calls := net.invoked;
  }

  /**
   * Until the open event stores it, a connecting socket is not `net`'s
   * socket: `is_close` reports true and `send_msg` returns undefined,
   * sending nothing and leaving the counter alone.
   */
  method SendWhileConnecting() returns (closed: bool, r: SendResult, frames: nat, counter: int)
    ensures closed && r == NotOpen && frames == 0 && counter == 0
  {
    var net := new Net(FixedCodec(Response(None, None, Nil)));
    var s := net.ConnectHost("ws://127.0.0.1:8080", None, None);
    closed := net.IsClose();
    r := net.SendMsg("hall.echo", None, None, 0);
    frames := |s.sent|;
    counter := net.sessionId;
  }

  /**
   * A request whose serialization throws still uses up a session id: the
   * next request goes out under id 2.
   */
  method FailedSerializationConsumesId() returns (first: SendResult, second: SendResult, pending: set<int>)
    ensures first == SerializeFailed && second == Sent && pending == {2}
  {
    var codec := Codec((r: Request) => if r.session == 1 then None else Some([]), (raw: seq<byte>) => None);
    var net, s := OpenSession(codec);
    first := net.SendMsg("hall.echo", None, Some(App(1)), 0);
    second := net.SendMsg("hall.echo", None, Some(App(2)), 0);
    pending := net.cbMap.Keys;
  }

  /**
   * With a print function set, `close()` forgets the socket at once, so `is_close` is true, but the
   * pending table is emptied only by the close event that follows, and the
   * dropped callback is never called.
   */
  method CloseThenCloseEvent() returns (closed: bool, pendingAfterClose: nat, pendingAfterEvent: nat, calls: nat)
    ensures closed && pendingAfterClose == 1 && pendingAfterEvent == 0 && calls == 0
  {
    var net, s := OpenSession(FixedCodec(Response(None, None, Nil)));
    net.SetPrint(Some(App(0)));
    var _ := net.SendMsg("hall.echo", None, Some(App(1)), 0);
    net.Close();
    closed := net.IsClose();
    pendingAfterClose := |net.cbMap|;
    s.ConnectionLost();
    net.OnClose(s);
    pendingAfterEvent := |net.cbMap|;
    calls := |net.invoked|;
  }

  /**
   * `close()` as written, on an open connection whose owner never called
   * `set_print`: the log call throws and the socket stays stored and open.
   */
  method CloseWithoutPrinter() returns (threw: bool, stillOpen: bool)
    ensures threw && stillOpen
  {
    var net, s := OpenSession(FixedCodec(Response(None, None, Nil)));
    threw := net.CloseAsWritten();
    stillOpen := !net.IsClose();
  }
}
