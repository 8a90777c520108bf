/**
 * The envelopes `net` exchanges, the object codec it delegates to, and the
 * two routing decisions it makes: which callback a sent request leaves
 * pending, and which callback an inbound response reaches.
 */
module Messages {
  import opened Wrappers
  import opened JsNumbers

  /** The values a request or response carries (msgpack's data model without floats). */
  datatype Value =
    | Nil                          // undefined or null
    | Bool(b: bool)
    | Int(i: int)
    | Str(s: string)
    | Bin(bytes: seq<byte>)
    | Arr(items: seq<Value>)
    | Obj(fields: map<string, Value>)

  /** JavaScript truthiness of a value. */
  function Truthy(v: Value): (r: bool)
    ensures v.Nil? ==> !r
    ensures v.Bool? ==> (r <==> v.b)
    ensures v.Str? ==> (r <==> v.s != "")
    ensures v.Int? ==> (r <==> v.i != 0)
    ensures v.Bin? || v.Arr? || v.Obj? ==> r
  {
    match v
    case Nil => false
    case Bool(b) => b
    case Int(i) => i != 0
    case Str(s) => s != ""
    case _ => true
  }

  /** The request object `send_msg` serializes; `data: None` is an absent key. */
  datatype Request = Request(session: int, cmd: string, data: Option<Value>, timestamp: int)

  /** A decoded response: its `session` and `cmd` fields, each possibly absent, and its `data`. */
  datatype Response = Response(session: Option<int>, cmd: Option<string>, data: Value)

  /**
   * The msgpack library: serialization and deserialization, either of which
   * may fail (throw); the model treats both as given functions.
   */
  datatype Codec = Codec(serialize: Request -> Option<seq<byte>>, deserialize: seq<byte> -> Option<Response>)

  /**
   * A callback is an opaque token: an application function, or the
   * heartbeat acknowledgement closure `update` passes with `hall.hello`.
   */
  datatype Callback = App(id: nat) | PongAck

  /** One invocation of a callback with its argument. */
  datatype Invocation = Call(callback: Callback, arg: Value)

  /** What `send_msg` returns: undefined when not open, false when serialization throws, true once sent. */
  datatype SendResult = NotOpen | SerializeFailed | Sent

  /** The command of the heartbeat request. */
  const HelloCmd: string := "hall.hello"

  /** The request `send_msg` builds: `data || undefined` drops a falsy payload. */
  function MakeRequest(sid: int, cmd: string, data: Option<Value>, now: int): (r: Request)
    ensures r.session == sid && r.cmd == cmd && r.timestamp == now
    ensures r.data.Some? <==> data.Some? && Truthy(data.value)
    ensures r.data.Some? ==> r.data == data
  {
    Request(sid, cmd, if data.Some? && Truthy(data.value) then data else None, now)
  }

  /** `cb || this.handler[cmd]`: the entry a sent request leaves under its session id. */
  function PendingEntry(cb: Option<Callback>, handler: map<string, Callback>, cmd: string): (r: Option<Callback>)
    ensures cb.Some? ==> r == cb
    ensures cb.None? ==> (r.Some? <==> cmd in handler)
    ensures cb.None? && cmd in handler ==> r == Some(handler[cmd])
  {
    if cb.Some? then cb else if cmd in handler then Some(handler[cmd]) else None
  }

  /** A session id that names a pending entry holding a callback. */
  predicate HasPending(cbMap: map<int, Option<Callback>>, session: Option<int>)
  {
    session.Some? && session.value != 0 && session.value in cbMap && cbMap[session.value].Some?
  }

  /**
   * The callback `dispatch` calls for a response: the pending entry under a
   * truthy session id if it holds a callback; otherwise the standing handler
   * for a truthy command; otherwise none.
   */
  function Route(cbMap: map<int, Option<Callback>>, handler: map<string, Callback>, resp: Response): (r: Option<Callback>)
    ensures HasPending(cbMap, resp.session) ==> r == cbMap[resp.session.value]
    ensures !HasPending(cbMap, resp.session) && resp.cmd.Some? && resp.cmd.value != "" && resp.cmd.value in handler
      ==> r == Some(handler[resp.cmd.value])
    ensures r.Some? ==> HasPending(cbMap, resp.session) || (resp.cmd.Some? && resp.cmd.value != "" && resp.cmd.value in handler)
  {
    if HasPending(cbMap, resp.session) then cbMap[resp.session.value]
    else if resp.cmd.Some? && resp.cmd.value != "" && resp.cmd.value in handler then Some(handler[resp.cmd.value])
    else None
  }

  /**
   * Request correlation: once a request with a callback is pending under a
   * non-zero id, a response carrying that id reaches that callback, whatever
   * its command and whatever handlers are registered.
   */
  lemma ResponseReachesPending(cbMap: map<int, Option<Callback>>, handler: map<string, Callback>,
                               sid: int, cb: Option<Callback>, cmd: string, resp: Response)
    requires sid >= 1 && resp.session == Some(sid)
    requires PendingEntry(cb, handler, cmd).Some?
    ensures Route(cbMap[sid := PendingEntry(cb, handler, cmd)], handler, resp) == PendingEntry(cb, handler, cmd)
  {
  }

  /**
   * Pending requests do not interfere: where a response goes depends on the
   * pending table only through the entry under the response's own session
   * id, so entries for other ids can be added or removed freely.
   */
  lemma {:induction false} RouteIgnoresOtherSessions(cbMap: map<int, Option<Callback>>, other: map<int, Option<Callback>>,
                                  handler: map<string, Callback>, resp: Response)
    requires resp.session.Some? ==>
      (resp.session.value in cbMap <==> resp.session.value in other) &&
      (resp.session.value in cbMap ==> cbMap[resp.session.value] == other[resp.session.value])
    ensures Route(cbMap, handler, resp) == Route(other, handler, resp)
  {
    assert HasPending(cbMap, resp.session) == HasPending(other, resp.session);
  }
}
