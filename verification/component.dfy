/**
  `ComponentBase` of src/component_base.h: the lifecycle every firmware
  component goes through. The component's own `Internal*` hooks are
  represented by their results, which are inputs here.
 */
module Component {

  datatype CState = Uninitialized | Initialized | CmdStop | Stopped | Running

  /** A lifecycle call's new state and the value it returns. */
  datatype Reply = Reply(st: CState, ok: bool)

  /** `Init`, with `hookOk` the result of `InternalInit`. */
  function Init(st: CState, hookOk: bool): (r: Reply)
    ensures st == Uninitialized ==> r == Reply(if hookOk then Initialized else Uninitialized, hookOk)
    ensures st != Uninitialized ==> r == Reply(st, true)
  {
    if st == Uninitialized then
      if hookOk then Reply(Initialized, true) else Reply(st, false)
    else Reply(st, true)
  }

  /** `Start`, with `hookOk` the result of `InternalStart`. */
  function Start(st: CState, hookOk: bool): (r: Reply)
    ensures st in {Stopped, Initialized} ==> r == Reply(if hookOk then Running else st, hookOk)
    ensures st == Running ==> r == Reply(Running, true)
    ensures st in {Uninitialized, CmdStop} ==> r == Reply(st, false)
  {
    if st == Stopped || st == Initialized then
      if hookOk then Reply(Running, true) else Reply(st, false)
    else if st == Running then Reply(st, true)
    else Reply(st, false)
  }

  /**
    `Stop`, with `hookOk` the result of `InternalStop` and `stoppedNow`
    whether that hook called `SetStopped`.
   */
  function Stop(st: CState, hookOk: bool, stoppedNow: bool): (r: Reply)
    ensures st == Running && hookOk ==> r == Reply(if stoppedNow then Stopped else CmdStop, true)
    ensures st == Running && !hookOk ==> r == Reply(Running, false)
    ensures st == Stopped ==> r == Reply(Stopped, true)
    ensures st !in {Running, Stopped} ==> r == Reply(st, false)
  {
    if st == Running then
      if hookOk then Reply(if stoppedNow then Stopped else CmdStop, true)
      else Reply(st, false)
    else if st == Stopped then Reply(st, true)
    else Reply(st, false)
  }

  /** Whether `Loop` runs `InternalLoop`. */
  predicate Loops(st: CState) {
    st == Running || st == CmdStop
  }

  /** `SetStopped`, the only way into Stopped apart from being there already. */
  function SetStopped(st: CState): CState {
    Stopped
  }

  /** One lifecycle call, with the hook results it sees. */
  datatype Call =
    | InitCall(hookOk: bool)
    | StartCall(hookOk: bool)
    | StopCall(hookOk: bool, stoppedNow: bool)
    | LoopCall(setsStopped: bool)
    | RestartCall

  /**
    The state after one call. `InternalLoop` may call `SetStopped` (as the
    LEDs do on a stop request); `Restart` never changes the state.
   */
  function Apply(st: CState, c: Call): (r: CState)
    ensures st != Uninitialized ==> r != Uninitialized
    ensures r == Stopped && st != Stopped ==> Stops(c)
    ensures r == Running && st != Running ==> c.StartCall?
    ensures c == RestartCall ==> r == st
  {
    match c
    case InitCall(ok) => Init(st, ok).st
    case StartCall(ok) => Start(st, ok).st
    case StopCall(ok, now) => Stop(st, ok, now).st
    case LoopCall(sets) => if Loops(st) && sets then SetStopped(st) else st
    case RestartCall => st
  }

  function Run(st: CState, cs: seq<Call>): (r: CState)
    ensures st != Uninitialized ==> r != Uninitialized
    ensures st != Stopped && (forall i | 0 <= i < |cs| :: !Stops(cs[i])) ==> r != Stopped
    decreases |cs|
  {
    if cs == [] then st else Run(Apply(st, cs[0]), cs[1..])
  }

  /** Whether a call can put the component in Stopped: a stop whose hook stops at once, or a loop that does. */
  predicate Stops(c: Call) {
    (c.StopCall? && c.hookOk && c.stoppedNow) || (c.LoopCall? && c.setsStopped)
  }

  /** No call sequence takes an initialized component back to Uninitialized. */
  lemma {:induction false} NeverUninitializedAgain(st: CState, cs: seq<Call>)
    requires st != Uninitialized
    ensures Run(st, cs) != Uninitialized
    decreases |cs|
  {
    if cs != [] {
      NeverUninitializedAgain(Apply(st, cs[0]), cs[1..]);
    }
  }

  /** A component ends Stopped only if it started so or some call stopped it. */
  lemma {:induction false} StoppedOnlyViaSetStopped(st: CState, cs: seq<Call>)
    requires st != Stopped && Run(st, cs) == Stopped
    ensures exists i | 0 <= i < |cs| :: Stops(cs[i])
    decreases |cs|
  {
    assert cs != [];
    if Stops(cs[0]) {
    } else {
      var next := Apply(st, cs[0]);
      assert next != Stopped;
      StoppedOnlyViaSetStopped(next, cs[1..]);
      var i :| 0 <= i < |cs[1..]| && Stops(cs[1..][i]);
      assert cs[i + 1] == cs[1..][i];
    }
  }

  /** `Restart` keeps the lifecycle state, and `Loop` runs the component's loop exactly in Running and CmdStop. */
  lemma RestartAndLoop(st: CState)
    ensures Apply(st, RestartCall) == st
    ensures Apply(st, LoopCall(false)) == st
    ensures Apply(st, LoopCall(true)) == (if st in {Running, CmdStop} then Stopped else st)
  {
  }
}
