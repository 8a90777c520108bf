/**
 * The `net` object of meta.js: one connection at a time, request
 * correlation through session ids, dispatch of inbound messages, and the
 * tick-driven heartbeat. Transport events (open, message, error, close)
 * are methods the transport's owner calls; the WebSocket is a `Socket`
 * object whose ready state and sent frames the model records.
 */
module Network {
  import opened Wrappers
  import opened JsNumbers
  import opened Messages
  import Session
  import Framing
  import Heartbeat

  /** `NET_STATE`: the WebSocket ready states. */
  datatype ReadyState = Connecting | Open | Closing | Closed

  /** The ready state after the WebSocket's `close()`: an open or opening socket starts closing. */
  function AfterClose(s: ReadyState): (r: ReadyState)
    ensures s == Connecting || s == Open ==> r == Closing
    ensures s == Closing || s == Closed ==> r == s
  {
    if s == Connecting || s == Open then Closing else s
  }

  /**
   * A WebSocket: its ready state, the frames `send` was given, and the open
   * and close callbacks `connect_host` captured in its event handlers.
   */
  class Socket {
    const address: string
    const openCallback: Option<Callback>
    const closeCallback: Option<Callback>
    var readyState: ReadyState
    var sent: seq<seq<byte>>

    constructor (address: string, openCallback: Option<Callback>, closeCallback: Option<Callback>)
      ensures this.address == address
      ensures this.openCallback == openCallback && this.closeCallback == closeCallback
      ensures readyState == Connecting && sent == []
    {
      this.address := address;
      this.openCallback := openCallback;
      this.closeCallback := closeCallback;
      readyState := Connecting;
      sent := [];
    }

    /** `socket.send(buf)` on an open socket. */
    method Send(frame: seq<byte>)
      requires readyState == Open
      modifies this
      ensures sent == old(sent) + [frame] && readyState == old(readyState)
    {
      sent := sent + [frame];
    }

    /** `socket.close()`. */
    method Close()
      modifies this
      ensures readyState == AfterClose(old(readyState)) && sent == old(sent)
    {
      readyState := AfterClose(readyState);
    }

    /** The transport completes the handshake. */
    method HandshakeDone()
      requires readyState == Connecting
      modifies this
      ensures readyState == Open && sent == old(sent)
    {
      readyState := Open;
    }

    /** The transport finishes closing, or the connection drops. */
    method ConnectionLost()
      modifies this
      ensures readyState == Closed && sent == old(sent)
    {
      readyState := Closed;
    }
  }

  class Net {
    /** The msgpack library `net` uses. */
    const codec: Codec
    /** The stored WebSocket: set on the open event, cleared only by `close()`. */
    var socket: Socket?
    var sessionId: int
    /** Pending callbacks by session id; an entry may hold no callback (`undefined`). */
    var cbMap: map<int, Option<Callback>>
    /** Standing handlers by command. */
    var handler: map<string, Callback>
    var heartDelay: int
    var pingTime: int
    var lastPongCheck: bool
    var beginUpdate: bool
    /** Whether `set_print` stored a function. */
    var printer: bool
    /** Every callback invocation so far, in order. */
    var invoked: seq<Invocation>

    /**
     * The counter lies in its cycle, the interval is positive, and every
     * pending entry sits under an id `next_session` can issue.
     */
    ghost predicate Valid()
      reads this
    {
      && 0 <= sessionId <= Session.Period
      && heartDelay > 0
      && forall sid | sid in cbMap :: 1 <= sid <= Session.Period
    }

    /** The heartbeat fields. */
    function HeartbeatState(): Heartbeat.Beat
      reads this
    {
      Heartbeat.Beat(beginUpdate, pingTime, lastPongCheck)
    }

    /** A socket is stored and open: the condition `send_msg` tests. */
    predicate Ready()
      reads this, socket
    {
      socket != null && socket.readyState == Open
    }

    /** `ctor`: no connection, counter at 0, the default interval, no handlers. */
    constructor (codec: Codec)
      ensures Valid()
      ensures this.codec == codec && socket == null
      ensures sessionId == 0 && cbMap == map[] && handler == map[]
      ensures heartDelay == Heartbeat.DefaultDelay
      ensures HeartbeatState() == Heartbeat.Beat(false, 0, false)
      ensures !printer && invoked == []
    {
      this.codec := codec;
      socket := null;
      sessionId := 0;
      cbMap := map[];
      handler := map[];
      heartDelay := Heartbeat.DefaultDelay;
      pingTime := 0;
      lastPongCheck := false;
      beginUpdate := false;
      printer := false;
      invoked := [];
    }

    /** `set_print(f)`. */
    method SetPrint(f: Option<Callback>)
      modifies this`printer
      ensures old(Valid()) ==> Valid()
      ensures printer == f.Some?
    {
      printer := f.Some?;
    }

    /** `set_delay(sec)`: only a defined, positive interval replaces the current one. */
    method SetDelay(sec: Option<int>)
      requires Valid()
      modifies this`heartDelay
      ensures Valid()
      ensures heartDelay == if sec.Some? && sec.value > 0 then sec.value else old(heartDelay)
    {
      if sec.Some? && sec.value > 0 {
        heartDelay := sec.value;
      }
    }

    /** `register(cmd, handler)`: both must be truthy; a later registration replaces an earlier one. */
    method Register(cmd: Option<string>, h: Option<Callback>)
      modifies this`handler
      ensures old(Valid()) ==> Valid()
      ensures handler == if cmd.Some? && cmd.value != "" && h.Some? then old(handler)[cmd.value := h.value] else old(handler)
    {
      if cmd.Some? && cmd.value != "" && h.Some? {
        handler := handler[cmd.value := h.value];
      }
    }

    /** `connect_host`: a new socket, still connecting, carrying the two callbacks; `net` itself is untouched. */
    method ConnectHost(address: string, openCallback: Option<Callback>, closeCallback: Option<Callback>)
      returns (s: Socket)
      ensures fresh(s)
      ensures s.address == address && s.openCallback == openCallback && s.closeCallback == closeCallback
      ensures s.readyState == Connecting && s.sent == []
    {
      s := new Socket(address, openCallback, closeCallback);
    }

    /** `connect(host, port)`: `connect_host` on `ws://host:port`. */
    method Connect(host: string, port: string, openCallback: Option<Callback>, closeCallback: Option<Callback>)
      returns (s: Socket)
      ensures fresh(s)
      ensures s.address == "ws://" + host + ":" + port
      ensures s.openCallback == openCallback && s.closeCallback == closeCallback
      ensures s.readyState == Connecting && s.sent == []
    {
      s := ConnectHost("ws://" + host + ":" + port, openCallback, closeCallback);
    }

    /** `is_close`: false exactly when a socket is stored and open or still connecting. */
    function IsClose(): (r: bool)
      reads this, socket
      ensures socket == null ==> r
      ensures Ready() ==> !r
      ensures socket != null && socket.readyState == Connecting ==> !r
      ensures socket != null && (socket.readyState == Closing || socket.readyState == Closed) ==> r
    {
      !(socket != null && (socket.readyState == Open || socket.readyState == Connecting))
    }

    /** Call a callback; the heartbeat acknowledgement sets `last_pong_check`. */
    method Invoke(cb: Callback, arg: Value)
      modifies this`invoked, this`lastPongCheck
      ensures invoked == old(invoked) + [Call(cb, arg)]
      ensures lastPongCheck == (old(lastPongCheck) || cb == PongAck)
    {
      invoked := invoked + [Call(cb, arg)];
      if cb == PongAck {
        lastPongCheck := true;
      }
    }

    /** The open event of socket `s`: store it, disarm the heartbeat, drop pending callbacks, call the open callback. */
    method OnOpen(s: Socket)
      requires Valid()
      modifies this
      ensures Valid()
      ensures socket == s && !beginUpdate && cbMap == map[]
      ensures invoked == old(invoked) + (if s.openCallback.Some? then [Call(s.openCallback.value, Nil)] else [])
      ensures lastPongCheck == (old(lastPongCheck) || s.openCallback == Some(PongAck))
      ensures unchanged(this`sessionId, this`handler, this`heartDelay, this`pingTime, this`printer)
    {
      socket := s;
      beginUpdate := false;
      cbMap := map[];
      if s.openCallback.Some? {
        Invoke(s.openCallback.value, Nil);
      }
    }

    /**
     * The close event of socket `s`: stop the heartbeat and drop every pending
     * callback without calling it, then call the close callback. The stored
     * socket stays.
     */
    method OnClose(s: Socket)
      requires Valid()
      modifies this
      ensures Valid()
      ensures pingTime == 0 && cbMap == map[]
      ensures invoked == old(invoked) + (if s.closeCallback.Some? then [Call(s.closeCallback.value, Nil)] else [])
      ensures lastPongCheck == (old(lastPongCheck) || s.closeCallback == Some(PongAck))
      ensures unchanged(this`socket, this`sessionId, this`handler, this`heartDelay, this`beginUpdate, this`printer)
    {
      pingTime := 0;
      cbMap := map[];
      if s.closeCallback.Some? {
        Invoke(s.closeCallback.value, Nil);
      }
    }

    /** The error event: `close()`. */
    method OnError()
      modifies this, socket
      ensures socket == null
      ensures old(socket) != null ==>
        old(socket).readyState == AfterClose(old(socket.readyState)) && old(socket).sent == old(socket.sent)
      ensures unchanged(this`sessionId, this`cbMap, this`handler, this`heartDelay, this`pingTime,
                        this`lastPongCheck, this`beginUpdate, this`printer, this`invoked)
    {
      Close();
    }

    /**
     * `close()`, without the unguarded log call: close the stored socket and
     * forget it; with no socket stored, nothing happens. Pending callbacks
     * are dropped only by the close event that follows.
     */
    method Close()
      modifies this, socket
      ensures socket == null
      ensures old(socket) != null ==>
        old(socket).readyState == AfterClose(old(socket.readyState)) && old(socket).sent == old(socket.sent)
      ensures unchanged(this`sessionId, this`cbMap, this`handler, this`heartDelay, this`pingTime,
                        this`lastPongCheck, this`beginUpdate, this`printer, this`invoked)
    {
      if socket != null {
        socket.Close();
        socket := null;
      }
    }

    /**
     * `close()` as written: it calls `this.print('active close')` before
     * closing, so when `set_print` never stored a function the call throws
     * and the socket is neither closed nor forgotten.
     */
    method CloseAsWritten() returns (threw: bool)
      modifies this, socket
      ensures threw <==> old(socket) != null && !printer
      ensures threw ==> unchanged(this) && unchanged(socket)
      ensures !threw ==> socket == null
      ensures !threw && old(socket) != null ==>
        old(socket).readyState == AfterClose(old(socket.readyState)) && old(socket).sent == old(socket.sent)
      ensures unchanged(this`sessionId, this`cbMap, this`handler, this`heartDelay, this`pingTime,
                        this`lastPongCheck, this`beginUpdate, this`printer, this`invoked)
    {
      threw := false;
      if socket != null {
        if !printer {
          threw := true;
          return;
        }
        socket.Close();
        socket := null;
      }
    }

    /**
     * What `send_msg(cmd, data, cb)` does to the connection and the session
     * registry. Not open: nothing. Open: the counter advances; then either
     * serialization fails and nothing is sent or registered, or exactly one
     * frame is sent and the new id, only, gets `cb || handler[cmd]`.
     */
    twostate predicate RequestEffect(cmd: string, data: Option<Value>, cb: Option<Callback>, now: int)
      reads this, socket
    {
      && socket == old(socket)
      && if !old(Ready()) then
           && sessionId == old(sessionId) && cbMap == old(cbMap)
           && (socket != null ==> socket.readyState == old(socket.readyState) && socket.sent == old(socket.sent))
         else
           var sid := Session.NextSession(old(sessionId));
           && sessionId == sid
           && socket.readyState == old(socket.readyState)
           && match codec.serialize(MakeRequest(sid, cmd, data, now))
              case None => cbMap == old(cbMap) && socket.sent == old(socket.sent)
              case Some(chunk) =>
                && socket.sent == old(socket.sent) + [Framing.GetSendBuffer(chunk)]
                && cbMap == old(cbMap)[sid := PendingEntry(cb, old(handler), cmd)]
    }

    /** `send_msg(cmd, data, cb)`, with `now` the current time in whole seconds. */
    method SendMsg(cmd: string, data: Option<Value>, cb: Option<Callback>, now: int) returns (r: SendResult)
      requires Valid()
      modifies this, socket
      ensures Valid()
      ensures RequestEffect(cmd, data, cb, now)
      ensures r == if !old(Ready()) then NotOpen
                   else if codec.serialize(MakeRequest(Session.NextSession(old(sessionId)), cmd, data, now)).None? then SerializeFailed
                   else Sent
      ensures unchanged(this`handler, this`heartDelay, this`pingTime, this`lastPongCheck,
                        this`beginUpdate, this`printer, this`invoked)
    {
      if socket != null && socket.readyState == Open {
        var sid := Session.NextSession(sessionId);
        sessionId := sid;
        var request := MakeRequest(sid, cmd, data, now);
        var chunk := codec.serialize(request);
        if chunk.None? {
          return SerializeFailed;
        }
        var buf := Framing.GetSendBuffer(chunk.value);
        socket.Send(buf);
        cbMap := cbMap[sid := PendingEntry(cb, handler, cmd)];
        return Sent;
      }
      return NotOpen;
    }

    /** `dispatch`: decode the message, then call the callback `Route` picks, if any. No table changes. */
    method Dispatch(raw: seq<byte>)
      requires Valid()
      modifies this`invoked, this`lastPongCheck
      ensures Valid()
      ensures codec.deserialize(raw).None? ==> unchanged(this)
      ensures codec.deserialize(raw).Some? ==>
        var resp := codec.deserialize(raw).value;
        var target := Route(cbMap, handler, resp);
        && invoked == old(invoked) + (if target.Some? then [Call(target.value, resp.data)] else [])
        && lastPongCheck == (old(lastPongCheck) || target == Some(PongAck))
    {
      var decoded := codec.deserialize(raw);
      if decoded.None? {
        return;
      }
      var resp := decoded.value;
      if HasPending(cbMap, resp.session) {
        Invoke(cbMap[resp.session.value].value, resp.data);
      } else if resp.cmd.Some? && resp.cmd.value != "" && resp.cmd.value in handler {
        Invoke(handler[resp.cmd.value], resp.data);
      }
    }

    /** `set_ping(dt)`: schedule the first heartbeat one interval after `dt`. */
    method SetPing(dt: int)
      modifies this`pingTime, this`lastPongCheck, this`beginUpdate
      ensures HeartbeatState() == Heartbeat.Beat(true, dt + heartDelay, true)
    {
      pingTime := dt + heartDelay;
      lastPongCheck := true;
      beginUpdate := true;
    }

    /**
     * What `update(dt)` does, `prior` being the socket stored before it:
     * with no socket stored, nothing; otherwise the heartbeat fields follow
     * `Heartbeat.Tick`, and the tick's action has its effect on the
     * connection: none when quiet or arming, `close()` on a
     * timeout, `send_msg('hall.hello')` when a hello is due.
     */
    twostate predicate TickEffect(prior: Socket?, dt: int, now: int)
      reads this, socket, prior
    {
      && prior == old(socket)
      && unchanged(this`handler, this`heartDelay, this`printer, this`invoked)
      && (old(socket) == null ==> unchanged(this))
      && (old(socket) != null ==>
        var (beat, action) := Heartbeat.Tick(old(HeartbeatState()), dt, heartDelay);
        && HeartbeatState() == beat
        && (action == Heartbeat.Quiet || action == Heartbeat.Armed ==>
              socket == old(socket) && unchanged(this`sessionId, this`cbMap) && unchanged(socket))
        && (action == Heartbeat.TimedOut ==>
              && socket == null && unchanged(this`sessionId, this`cbMap)
              && prior.readyState == AfterClose(old(prior.readyState))
              && prior.sent == old(prior.sent))
        && (action == Heartbeat.SendHello ==> RequestEffect(HelloCmd, None, Some(PongAck), now)))
    }

    /**
     * `update(dt)`: with no socket stored, nothing; otherwise one heartbeat
     * tick (`Heartbeat.Tick`), which may send `hall.hello` through
     * `send_msg` or close the connection.
     */
    method Update(dt: int, now: int)
      requires Valid()
      modifies this, socket
      ensures Valid()
      ensures TickEffect(old(socket), dt, now)
    {
      if socket == null {
        return;
      }
      if !beginUpdate {
        SetPing(dt);
        return;
      }
      if pingTime > 0 {
        if dt >= pingTime {
          if !lastPongCheck {
            pingTime := 0;
            Close();
          } else {
            pingTime := dt + heartDelay;
            var _ := SendMsg(HelloCmd, None, Some(PongAck), now);
            lastPongCheck := false;
          }
        }
      }
    }

    /**
     * `update(dt)` as written, calling `close()` as written on a timeout.
     * Without a print function that call throws after `ping_time` was set to
     * 0: the socket stays stored and open, and since `begin_update` stays
     * true and `ping_time` is 0, every later tick is quiet.
     */
    method UpdateAsWritten(dt: int, now: int) returns (threw: bool)
      requires Valid()
      modifies this, socket
      ensures Valid()
      ensures threw <==>
        old(socket) != null && Heartbeat.Tick(old(HeartbeatState()), dt, heartDelay).1 == Heartbeat.TimedOut && !printer
      ensures threw ==>
        && socket == old(socket) && unchanged(socket)
        && HeartbeatState() == Heartbeat.Beat(true, 0, false)
        && unchanged(this`sessionId, this`cbMap, this`handler, this`heartDelay, this`printer, this`invoked)
      ensures !threw ==> TickEffect(old(socket), dt, now)
    {
      threw := false;
      if socket == null {
        return;
      }
      if !beginUpdate {
        SetPing(dt);
        return;
      }
      if pingTime > 0 {
        if dt >= pingTime {
          if !lastPongCheck {
            pingTime := 0;
            threw := CloseAsWritten();
          } else {
            pingTime := dt + heartDelay;
            var _ := SendMsg(HelloCmd, None, Some(PongAck), now);
            lastPongCheck := false;
          }
        }
      }
    }
  }
}
