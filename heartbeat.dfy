/**
 * The heartbeat of `net.update`/`set_ping`: a pure view of the three fields
 * it uses (`begin_update`, `ping_time`, `last_pong_check`) and of what one
 * tick does with them, for a connection whose socket is stored.
 */
module Heartbeat {
  /** `HEART_DELAY_TIME`: the default interval between heartbeats. */
  const DefaultDelay: int := 5

  datatype Beat = Beat(begun: bool, pingTime: int, pongReceived: bool)

  /** What a tick asks of the connection besides the new heartbeat fields. */
  datatype TickAction =
    | Quiet       // nothing
    | Armed       // `set_ping`: first tick after open
    | SendHello   // send `hall.hello` with the acknowledgement callback
    | TimedOut    // the last hello went unanswered: close the connection

  /** `update(dt)` once a socket is stored, with interval `delay`. */
  function Tick(b: Beat, dt: int, delay: int): (r: (Beat, TickAction))
    ensures !b.begun ==> r == (Beat(true, dt + delay, true), Armed)
    ensures b.begun && b.pingTime > 0 && dt >= b.pingTime ==>
      r == if b.pongReceived then (Beat(true, dt + delay, false), SendHello) else (b.(pingTime := 0), TimedOut)
    ensures b.begun && (b.pingTime <= 0 || dt < b.pingTime) ==> r == (b, Quiet)
    ensures r.1 == Armed <==> !b.begun
    ensures r.1 == SendHello ==> b.pongReceived
    ensures r.1 == TimedOut ==> !b.pongReceived
  {
    if !b.begun then (Beat(true, dt + delay, true), Armed)
    else if b.pingTime > 0 && dt >= b.pingTime then
      if !b.pongReceived then (b.(pingTime := 0), TimedOut)
      else (Beat(true, dt + delay, false), SendHello)
    else (b, Quiet)
  }

  /** The state the acknowledgement callback leaves: `last_pong_check = true`. */
  function Ack(b: Beat): (r: Beat)
    ensures r.pongReceived && r.begun == b.begun && r.pingTime == b.pingTime
  {
    b.(pongReceived := true)
  }

  /** The actions of ticks at the given times, with no acknowledgement arriving between them. */
  function Run(b: Beat, times: seq<int>, delay: int): (actions: seq<TickAction>)
    ensures |actions| == |times|
    decreases |times|
  {
    if times == [] then []
    else
      var step := Tick(b, times[0], delay);
      [step.1] + Run(step.0, times[1..], delay)
  }

  function CountHellos(actions: seq<TickAction>): nat
  {
    if actions == [] then 0
    else (if actions[0] == SendHello then 1 else 0) + CountHellos(actions[1..])
  }

  /**
   * Dead-connection detection: without an acknowledgement the monitor sends
   * at most one heartbeat, and none at all once a heartbeat is outstanding.
   */
  lemma {:induction false} UnansweredRunSendsAtMostOneHello(b: Beat, times: seq<int>, delay: int)
    ensures CountHellos(Run(b, times, delay)) <= (if !b.begun || b.pongReceived then 1 else 0)
    decreases |times|
  {
    if times != [] {
      var step := Tick(b, times[0], delay);
      UnansweredRunSendsAtMostOneHello(step.0, times[1..], delay);
    }
  }

  /**
   * An outstanding heartbeat times out at the first tick at or past its
   * deadline, and nothing happens before it.
   */
  lemma {:induction false} UnansweredHelloTimesOut(b: Beat, times: seq<int>, delay: int, k: nat)
    requires b.begun && !b.pongReceived && b.pingTime > 0
    requires k < |times| && times[k] >= b.pingTime
    requires forall j :: 0 <= j < k ==> times[j] < b.pingTime
    ensures forall j :: 0 <= j < k ==> Run(b, times, delay)[j] == Quiet
    ensures Run(b, times, delay)[k] == TimedOut
    decreases k
  {
    if k > 0 {
      UnansweredHelloTimesOut(b, times[1..], delay, k - 1);
      assert Run(b, times, delay) == [Quiet] + Run(b, times[1..], delay);
    }
  }

  /**
   * The timeline with interval 5: the tick at 0 arms, the tick at 5 sends a
   * hello; at 10 the connection times out, unless the acknowledgement came
   * back first, in which case the tick at 10 sends the next hello and
   * reschedules to 15.
   */
  lemma WorkedExample(b: Beat)
    requires !b.begun
    ensures var (b0, a0) := Tick(b, 0, 5);
      a0 == Armed && b0 == Beat(true, 5, true) &&
      var (b5, a5) := Tick(b0, 5, 5);
      a5 == SendHello && b5 == Beat(true, 10, false) &&
      Tick(b5, 10, 5).1 == TimedOut &&
      Tick(Ack(b5), 10, 5) == (Beat(true, 15, false), SendHello)
  {
  }
}
