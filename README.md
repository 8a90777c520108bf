# A model of the `meta.js` WebSocket session layer

`meta.js` is the client side of a request/response protocol over a
WebSocket. It sends msgpack-encoded requests, each framed with a two-byte
big-endian length prefix and tagged with a session id from a wrap-around
counter. The id selects the callback that receives the matching response.
Responses without a pending callback go to standing handlers registered per
command. A tick-driven heartbeat sends `hall.hello` once per interval and
closes the connection when a hello goes unanswered.

The model has these modules:

- `Session`: the counter `next_session`, and the cycle of ids it produces.
- `JsNumbers`: the JavaScript conversions the framing relies on. These are
  ToInt32, the `>> 8` and `& 0xff` operators, and Uint8Array's truncation
  of each element to a byte.
- `Framing`: `get_send_buffer`, plus a frame reader as its partner.
- `Utf8`: `get_send_string`. Its two loops are methods (pushing into
  `back`, then masking `back` in place in an array). Both are proved
  against a recursive encoder, which a decoder shows is injective.
- `Messages`: the request and response envelopes, and msgpack as a
  `Codec` of two functions that may fail. Callbacks are tokens. The module
  also holds the two routing decisions: which entry `send_msg` leaves
  pending (`cb || handler[cmd]`) and which callback `dispatch` reaches.
- `Heartbeat`: what one `update` tick does to `begin_update`, `ping_time`
  and `last_pong_check`. Lemmas cover runs of ticks.
- `Network`: the `net` object as a class `Net` whose methods update its
  fields in place. The WebSocket is a class `Socket` holding its ready
  state and the frames it was given. The open, message, error and close
  events are methods its owner calls. Every callback invocation is
  appended to `Net.invoked`; invoking the heartbeat's acknowledgement sets
  `last_pong_check`.
- `Scenarios`: whole sessions driven through `Net`, each stating what the
  caller observes.

The model follows the code where a reader might expect otherwise:

- `dispatch` never deletes a pending entry, so a repeated response calls
  its callback again.
- The close event does not clear the stored socket.
- `send_msg` on a socket that is not open returns `undefined`, not
  `false`.
- A request whose serialization throws still uses up a session id.
- The counter wraps only after exceeding 100,000,000, so the 100,000,002nd
  id is 1 again.

## Model

| member | source | states |
|---|---|---|
| Session.NextSession | meta.js:62-68 | From a counter s >= 0 the id is in [1, 100000001]. It is s + 1, or 1, and it is 1 exactly when s is 0 or exceeds 100000000. |
| Session.SessionCycle | meta.js:62-68 | The k-th id from a zeroed counter is ((k - 1) mod 100000001) + 1. |
| Session.SessionWraps | meta.js:62-68 | The ids start at 1, reach 100000001 on the 100000001st call and restart at 1 on the next. |
| Session.DistinctWithinPeriod | meta.js:62-68 | Two calls fewer than 100000001 apart never return the same id. |
| JsNumbers.ToInt32 | meta.js:48 | The operand conversion of `>>` and `&`: a value in the signed 32-bit range, congruent to x modulo 2^32. |
| JsNumbers.ShiftRight8 | meta.js:48 | `x >> 8` lies in the signed 24-bit range, and for a non-negative 31-bit x it is x / 256. |
| JsNumbers.ToUint8 | meta.js:46-48 | The byte a Uint8Array stores for x is congruent to x modulo 256, and is x itself when x is already a byte. |
| JsNumbers.BitAnd255 | meta.js:40 | `x & 0xff` is x mod 256, for every integer. |
| JsNumbers.ShiftAndMaskBytes | meta.js:48 | After Uint8Array truncation, `x >> 8` is the second-lowest byte of x and `x & 0xff` the lowest. |
| Framing.BigEndian16 | meta.js:46-48 | Two bytes read big-endian give a value in [0, 65535]. |
| Framing.LengthPrefix | meta.js:45-49 | Both branches of the prefix give the bytes [(n / 256) mod 256, n mod 256], which read big-endian give n mod 65536. |
| Framing.GetSendBuffer | meta.js:51-61 | The frame has 2 + n bytes, bytes 2.. are the payload, the prefix reads n mod 65536, and for n <= 255 it is [0, n]. |
| Framing.ParseFrame | meta.js:51-61 | Whatever the reader accepts is the frame of the payload it returns. |
| Framing.FrameRoundTrip | meta.js:51-61 | A frame reads back as its payload exactly when the payload is shorter than 65536 bytes. |
| Framing.PrefixDetermined | meta.js:45-49 | A frame whose prefix states the number of bytes after it is the frame of those bytes. |
| Utf8.LeadOfTwo | meta.js:30 | A 110xxxxx lead byte whose five x bits, for a unit up to 0x7FF, are the unit's bits 6 to 10. |
| Utf8.LeadOfThree | meta.js:34 | A 1110xxxx lead byte whose four x bits are the unit's bits 12 to 15. |
| Utf8.Continuation | meta.js:31-36 | A 10xxxxxx continuation byte whose six x bits are the argument's low six bits. |
| Utf8.ToUint8Array | meta.js:46-48 | The Uint8Array built from numbers has one byte per number, each the number mod 256. |
| Utf8.UnitBits | meta.js:24-37 | A unit c <= 0x7F is one byte c. A unit c <= 0x7FF is 110xxxxx 10xxxxxx, and a larger one is 1110xxxx 10xxxxxx 10xxxxxx; in both the x bits hold c. Every number is below 256. |
| Utf8.EncodeUnit | meta.js:39-41 | Truncating a unit's numbers to bytes leaves them unchanged: one to three bytes. |
| Utf8.EncodeLength | meta.js:22-38 | A string of n units encodes to between n and 3n bytes. |
| Utf8.DecodeEncode | meta.js:21-50 | Every string is recovered from its encoding, so no two strings share one. This holds for surrogates too. |
| Utf8.DecodeUnitPrefix | meta.js:24-37 | Decoding one unit's bytes followed by anything peels off that unit. |
| Utf8.EncodeSnoc | meta.js:22-38 | Encoding one more unit appends that unit's bytes. |
| Utf8.AppendUnit | meta.js:25-37 | One step of the first loop appends, for each branch, that unit's encoding. |
| Utf8.CollectUnits | meta.js:22-38 | The first loop leaves `total` equal to the length of `back`, and `back` holds the string's encoding. |
| Utf8.MaskToBytes | meta.js:39-41 | The second loop replaces every element of `back`, in place, by its value mod 256. |
| Utf8.MaskedBytesUnchanged | meta.js:39-46 | Masking and truncating numbers that are already bytes changes none of them. |
| Utf8.GetSendString | meta.js:21-50 | The result is the frame, as built by `get_send_buffer`, of the string's encoding. |
| Messages.Truthy | meta.js:172 | JavaScript truthiness: undefined, false, 0 and the empty string are falsy; any byte array, array or object, even empty, is truthy. |
| Messages.MakeRequest | meta.js:169-174 | The request carries the new id, the command and the timestamp; `data` is kept exactly when it is truthy. |
| Messages.PendingEntry | meta.js:189 | The pending entry is `cb` when given. Otherwise it is the handler for `cmd`, and it is empty when there is none. |
| Messages.Route | meta.js:216-222 | A truthy session with a pending callback selects that callback. Otherwise a truthy registered command selects its handler, and otherwise nothing is selected. |
| Messages.ResponseReachesPending | meta.js:216-217 | After a send leaves an entry under id sid, a response carrying sid reaches it, whatever its command. |
| Messages.RouteIgnoresOtherSessions | meta.js:216-222 | Where a response goes depends on the pending table only through the entry under its own session id; entries for other ids never change it. |
| Heartbeat.Tick | meta.js:130-162 | For every state and time: a tick before arming arms, with deadline dt + delay and `last_pong_check` true, and sends nothing. Before the deadline, or with no deadline, nothing happens. At or past the deadline an answered hello means a new hello, deadline dt + delay and the pong outstanding; an unanswered one means `ping_time` 0 and close. |
| Heartbeat.Ack | meta.js:156-158 | The acknowledgement marks the pong received and changes nothing else. |
| Heartbeat.UnansweredRunSendsAtMostOneHello | meta.js:146-160 | Without an acknowledgement, any run of ticks sends at most one hello, and none once a hello is outstanding. |
| Heartbeat.UnansweredHelloTimesOut | meta.js:146-153 | An outstanding hello times out at the first tick at or past its deadline, and every earlier tick is quiet. |
| Heartbeat.WorkedExample | meta.js:130-162 | With delay 5: ticks at 0 arm, at 5 send, at 10 time out, unless acknowledged, in which case 10 sends and reschedules to 15. |
| Network.AfterClose | meta.js:196 | The socket's `close()` moves an opening or open socket to closing and leaves a closing or closed one alone. |
| Network.Socket.constructor | meta.js:86-87 | A new socket is connecting, has sent nothing, and captures the open and close callbacks. |
| Network.Socket.Send | meta.js:188 | An open socket's sent log grows by exactly the frame. |
| Network.Socket.Close | meta.js:196 | The ready state follows `AfterClose`; nothing is sent. |
| Network.Socket.HandshakeDone | meta.js:88 | A connecting socket becomes open. |
| Network.Socket.ConnectionLost | meta.js:108 | The socket becomes closed. |
| Network.Net.constructor | meta.js:71-77 | There is no socket, the counter is 0, the delay is 5, there are no handlers and nothing is pending. |
| Network.Net.SetPrint | meta.js:78 | Records whether a print function is stored; nothing else changes. |
| Network.Net.SetDelay | meta.js:79-83 | The delay changes exactly when the argument is defined and positive. |
| Network.Net.Register | meta.js:224-228 | The handler is stored exactly when both command and handler are truthy; the last registration wins. |
| Network.Net.ConnectHost | meta.js:85-118 | Creates a connecting socket carrying the two callbacks and leaves `net` untouched; nothing is stored until the open event. |
| Network.Net.Connect | meta.js:119-121 | `connect_host` on `ws://host:port`. |
| Network.Net.IsClose | meta.js:122-129 | False exactly when a socket is stored and open or connecting. |
| Network.Net.Invoke | meta.js:156-158 | Appends the call to the log; the acknowledgement sets `last_pong_check`. |
| Network.Net.OnOpen | meta.js:88-98 | The open event stores the socket, clears `begin_update`, empties `cb_map` and calls the open callback if one was given. |
| Network.Net.OnClose | meta.js:108-117 | The close event sets `ping_time` to 0, empties `cb_map` without calling any pending callback, calls the close callback, and keeps the stored socket. |
| Network.Net.OnError | meta.js:102-107 | The error event is the corrected `close()` of the finding below. |
| Network.Net.Close | meta.js:193-199 | Closes and forgets a stored socket; with none it changes nothing. Pending entries stay. |
| Network.Net.CloseAsWritten | meta.js:193-199 | As written: with a socket stored and no print function, the call throws and nothing changes. |
| Network.Net.SendMsg | meta.js:164-192 | Not open: `undefined`, nothing changes. Open: the id advances first. If serialization fails it returns false and nothing is sent or registered. Otherwise exactly one frame of the serialized request is sent, only the new id gets `cb`, or else `handler[cmd]`, and it returns true. |
| Network.Net.Dispatch | meta.js:200-223 | A decode failure changes nothing. Otherwise exactly the callback `Route` selects is called with the response data, and no table changes. |
| Network.Net.SetPing | meta.js:130-134 | The heartbeat is armed, with deadline dt + delay and the pong counted as received. |
| Network.Net.Update | meta.js:135-163 | With no socket nothing changes. Otherwise the heartbeat fields follow `Heartbeat.Tick`. A quiet or arming tick changes nothing else, a timeout calls the corrected `close()` of the finding below, and a due hello has exactly the effect of `send_msg('hall.hello')`. |
| Network.Net.UpdateAsWritten | meta.js:135-163 | As written: it throws exactly when a timeout falls due with no print function. Then `ping_time` is 0, the pong is outstanding, `begin_update` stays true and the socket stays stored and untouched. Otherwise it has the effect of `update`. |
| Scenarios.OpenSession | meta.js:85-98 | `connect_host` followed by the open event gives an open, stored socket with nothing pending. |
| Scenarios.FirstHello | meta.js:135-160 | With delay 5, `update(0)` sends nothing and `update(5)` sends one hello under id 1, due by 10. |
| Scenarios.HeartbeatTimeline | meta.js:135-163 | With a print function set, `update(10)` closes the connection after an unanswered hello; after an answered one it sends a second hello, due at 15. |
| Scenarios.HelloOnDroppedSocket | meta.js:154-160 | With a print function set, a due hello on a dropped socket sends nothing and uses no id, yet marks the pong outstanding. The next due tick times out: `ping_time` becomes 0 and `close()` forgets the socket. |
| Scenarios.TimeoutWithoutPrinter | meta.js:146-153 | As written, with no print function, a heartbeat timeout throws and leaves the socket stored and open. Every later tick is quiet, so no further hello is sent and the dead connection is never closed. |
| Scenarios.EchoRegistered | meta.js:224-228 | Registration on an open connection stores the handler. |
| Scenarios.EchoPending | meta.js:164-190 | A request with a callback leaves exactly that callback pending under id 1. |
| Scenarios.RepeatedResponse | meta.js:216-222 | The same response, delivered twice, calls the pending callback twice and never the handler. |
| Scenarios.SendWhileConnecting | meta.js:164-165 | Before the open event, `is_close` is true and `send_msg` returns `undefined` with no effect. |
| Scenarios.FailedSerializationConsumesId | meta.js:165-184 | A failed serialization uses up id 1; the next request goes out under id 2, the only one pending. |
| Scenarios.CloseThenCloseEvent | meta.js:108-117 | With a print function set, after `close()`, `is_close` is true but the entry stays pending. The close event drops it without calling it. |
| Scenarios.CloseWithoutPrinter | meta.js:193-199 | `close()` as written, with no print function, throws and leaves the socket stored and open. |

## Left out

- msgpack (`serialize`, `deserialize`) is a foreign library. It is a
  `Codec` parameter of two functions that may fail; which requests fail to
  serialize is up to it.
- The WebSocket transport is not modelled. This covers construction, the
  binary type, real ready-state transitions and event timing. `Socket`
  records the ready state and sent frames, and events are method calls.
- Logging and the `DEBUG` switch (`open_debug`) are output only and are
  left out. So are the log arguments of `get_send_string` and
  `get_send_buffer` (command and timestamp). The one log call with an
  effect, in `close()`, is a finding below.
- `Date.now()` is a wall clock. The timestamp is a `now` parameter in
  whole seconds.
- `dt` and `heart_delay` are JavaScript numbers. They are modelled as
  integers because they are only added and compared.
- JavaScript's coercion of object keys to strings is not modelled. A
  response's `session` is an optional integer and its `cmd` an optional
  string; other types are left out.
- `handler` and `cb_map` are plain objects, so a lookup such as
  `handler['toString']` also finds members inherited from
  `Object.prototype`, and `register('__proto__', h)` replaces the
  handler table's prototype instead of adding an entry. The model's maps
  hold only the keys stored in them.
- Callbacks are tokens. Their own effects beyond the call are not
  modelled, except the heartbeat acknowledgement's.
- `cb_map` and `ping_time` are `undefined` until the first open event. The
  model starts them as an empty map and 0. `update` treats an undefined
  `ping_time` as 0 would be treated, and `send_msg` writes `cb_map` only
  on an open socket, which the open event stored. `dispatch` on an
  undefined `cb_map` with a truthy session would throw; the model's
  `Dispatch` instead goes on to the handler. Message events follow the
  open event, so dispatch through events always sees a defined `cb_map`.
- Concurrency is not modelled. The JavaScript event loop runs each entry
  point to completion, so each method is atomic.
- Network.Net.Update: calls the corrected `close()` on a timeout. As
  written, with no print function, the timeout throws instead, which
  Network.Net.UpdateAsWritten models (see the finding).
- Network.Net.OnError: calls the corrected `close()`. As written, with no
  print function, the error event's `close()` throws and leaves the socket
  stored, as Network.Net.CloseAsWritten shows.
- Utf8.GetSendString: the message length is not bounded by 65535 bytes,
  and a longer message gets a wrapped prefix, exactly as with
  Framing.GetSendBuffer.

## Findings

| source | as written | input that shows it | evidently intended | confidence | as-written member | corrected member |
|---|---|---|---|---|---|---|
| meta.js:195 | `close()` calls `this.print('active close')` with no check that a print function was stored | `close()`, or the error event, or a heartbeat timeout, on an open connection whose owner never called `set_print`: the call throws before the socket is closed, so the socket stays stored and open. On a heartbeat timeout `ping_time` was already set to 0, so every later tick is quiet: dead-connection detection stops for the rest of the connection, and the exception reaches the caller of `update` | guard the call as every other log call is (`this.DEBUG && this.print`), so `close()` always closes | medium, not executed | Network.Net.CloseAsWritten and Network.Net.UpdateAsWritten (exhibits: Scenarios.CloseWithoutPrinter, Scenarios.TimeoutWithoutPrinter) | Network.Net.Close |
