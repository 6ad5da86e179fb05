/**
  `LED` of src/button_ui/leds.cpp: one LED driven by a state machine that
  takes the latest pending command (blink, constant, pulse or off) and
  plays it. The LED output level, `millis()` and the component's lifecycle
  state are part of the model; the pulse's cosine brightness is not.
 */
module UiLed {
  import opened Wrappers
  import opened Clock
  import Component

  datatype BlinkType = Off | Constant | Blink | Pulse

  /** `LEDBlink`: a command, with the fields each kind uses. */
  datatype LedBlink = LedBlink(kind: BlinkType, brightness: nat, numBlinks: nat, onMs: nat, offMs: nat, hold: bool, cycleMs: nat)

  datatype Phase = Idle | BlinkOn | BlinkOff | ConstOn | Pulsing | Transition

  /** The state machine's own variables: `first_run_` negated, the blink counter and the two timers. */
  datatype Machine = Machine(phase: Phase, entered: bool, blinkNum: nat, lastChange: nat, transStart: nat)

  /** The LED: lifecycle state, machine, pending and current commands, ambient brightness and output level. */
  datatype Led = Led(cstate: Component.CState, m: Machine, cmd: Option<LedBlink>, current: Option<LedBlink>, ambient: nat, level: nat)

  /** The state after a call and the states entered during it, in order. */
  datatype Out = Out(l: Led, entered: seq<Phase>)

  /** A freshly constructed LED. */
  function NewLed(): (l: Led)
    ensures l.m.phase == Idle && !l.m.entered && l.cmd.None? && l.current.None?
  {
    Led(Component.Uninitialized, Machine(Idle, false, 0, 0, 0), Option.None, Option.None, 0, 0)
  }

  /** The default on time of `Blink` for a blink count. */
  function OnDefault(n: nat): nat {
    if n == 1 then 400 else if n == 2 then 100 else if n == 3 then 67 else 50
  }

  /** The default off time of `Blink` for a blink count. */
  function OffDefault(n: nat): nat {
    if n == 1 then 400 else if n == 2 then 300 else if n == 3 then 200 else 150
  }

  /** `Blink`: zero times take the defaults for the count; the command replaces any pending one. */
  function BlinkCmd(l: Led, n: nat, brightness: nat, onMs: nat, offMs: nat, hold: bool): (r: Led)
    ensures r.cmd.Some? && r.cmd.value.kind == Blink && r.cmd.value.numBlinks == n
    ensures r.cmd.value.onMs == (if onMs == 0 then OnDefault(n) else onMs)
    ensures r.cmd.value.offMs == (if offMs == 0 then OffDefault(n) else offMs)
    ensures r == l.(cmd := r.cmd)
  {
    var on := if onMs == 0 then OnDefault(n) else onMs;
    var off := if offMs == 0 then OffDefault(n) else offMs;
    l.(cmd := Some(LedBlink(Blink, brightness, n, on, off, hold, 0)))
  }

  /** `On(brightness)`. */
  function OnCmd(l: Led, brightness: nat): (r: Led)
    ensures r == l.(cmd := Some(LedBlink(Constant, brightness, 0, 0, 0, false, 0)))
  {
    l.(cmd := Some(LedBlink(Constant, brightness, 0, 0, 0, false, 0)))
  }

  /** `Off()`. */
  function OffCmd(l: Led): (r: Led)
    ensures r == l.(cmd := Some(LedBlink(Off, 0, 0, 0, 0, false, 0)))
  {
    l.(cmd := Some(LedBlink(Off, 0, 0, 0, 0, false, 0)))
  }

  /** `Pulse(brightness, cycle_ms)`. */
  function PulseCmd(l: Led, brightness: nat, cycleMs: nat): (r: Led)
    ensures r == l.(cmd := Some(LedBlink(Pulse, brightness, 0, 0, 0, false, cycleMs)))
  {
    l.(cmd := Some(LedBlink(Pulse, brightness, 0, 0, 0, false, cycleMs)))
  }

  /** The brightness of the command being played, 0 if there is none. */
  function Bright(l: Led): nat {
    if l.current.Some? then l.current.value.brightness else 0
  }

  /** `transition_to<p>()`: no state has an exit action, so this is the entry of `p`. */
  function Enter(l: Led, p: Phase, now: nat): (o: Out)
    ensures o.l.m.phase == p && o.entered == [p]
    ensures o.l.cstate == l.cstate && o.l.cmd == l.cmd && o.l.current == l.current && o.l.ambient == l.ambient
    ensures o.l.m.entered == l.m.entered && o.l.m.blinkNum == l.m.blinkNum
    ensures p in {Idle, BlinkOff, Transition} ==> o.l.level == l.ambient
    ensures p in {BlinkOn, ConstOn} && l.current.Some? ==> o.l.level == l.current.value.brightness
  {
    var m := l.m.(phase := p);
    match p
    case Idle => Out(l.(m := m, level := l.ambient), [p])
    case BlinkOn => Out(l.(m := m.(lastChange := now), level := if l.current.Some? then Bright(l) else l.level), [p])
    case BlinkOff => Out(l.(m := m.(lastChange := now), level := l.ambient), [p])
    case ConstOn => Out(l.(m := m, level := if l.current.Some? then Bright(l) else l.level), [p])
    case Pulsing => Out(l.(m := m.(lastChange := now)), [p])
    case Transition => Out(l.(m := m.(transStart := now), level := l.ambient), [p])
  }

  /** A stop request is honoured by calling `SetStopped`. */
  function HonourStop(l: Led): Led {
    if l.cstate == Component.CmdStop then l.(cstate := Component.Stopped) else l
  }

  /** The state a command is played in. */
  function PhaseFor(k: BlinkType): Phase {
    match k
    case Blink => BlinkOn
    case Constant => ConstOn
    case Pulse => Pulsing
    case Off => Idle
  }

  /** `int` arithmetic on the `uint8_t` count: `num_blinks - 1` is -1 for zero blinks. */
  function Last(b: LedBlink): int {
    b.numBlinks - 1
  }

  /** The `loop()` of the current state. */
  function StateLoop(l: Led, now: nat): (o: Out)
    ensures |o.entered| <= 1 && o.l.ambient == l.ambient && o.l.m.entered == l.m.entered
    ensures l.m.phase != Idle ==> o.l.cmd == l.cmd && o.l.current == l.current
    ensures l.m.phase == Idle && l.cmd.Some? ==>
      o.l.cmd.None? && o.l.current == l.cmd && o.entered == [PhaseFor(l.cmd.value.kind)] && o.l.m.blinkNum == 0
    ensures o.l.cstate == l.cstate || (l.cstate == Component.CmdStop && o.l.cstate == Component.Stopped)
    ensures o.l.cstate != l.cstate ==> o.l.m.phase in {Idle, ConstOn, Pulsing} && o.entered == []
  {
    match l.m.phase
    case Idle =>
      if l.cmd.Some? then
        var c := l.(current := l.cmd, cmd := Option.None, m := l.m.(blinkNum := 0));
        Enter(c, PhaseFor(l.cmd.value.kind), now)
      else Out(HonourStop(l), [])
    case BlinkOn =>
      if l.current.Some? && Since(now, l.m.lastChange) >= l.current.value.onMs then
        if l.current.value.hold && l.m.blinkNum == Last(l.current.value) then Enter(l, Idle, now)
        else Enter(l, BlinkOff, now)
      else Out(l, [])
    case BlinkOff =>
      if l.current.Some? && Since(now, l.m.lastChange) >= l.current.value.offMs then
        if l.m.blinkNum < Last(l.current.value) then Enter(l.(m := l.m.(blinkNum := l.m.blinkNum + 1)), BlinkOn, now)
        else Enter(l, Idle, now)
      else Out(l, [])
    case ConstOn =>
      if l.cmd.Some? then Enter(l, Idle, now) else Out(HonourStop(l), [])
    case Pulsing =>
      if l.cmd.Some? then Enter(l, Idle, now) else Out(HonourStop(l), [])
    case Transition =>
      if Since(now, l.m.transStart) >= 1000 then Enter(l, Idle, now) else Out(l, [])
  }

  /** `InternalLoop`: the machine's `loop()`, entering the current state first on the first call. */
  function Loop(l: Led, now: nat): (o: Out)
    ensures o.l.m.entered
  {
    if !l.m.entered then
      var e := Enter(l.(m := l.m.(entered := true)), l.m.phase, now);
      var o := StateLoop(e.l, now);
      Out(o.l, e.entered + o.entered)
    else StateLoop(l, now)
  }

  /** `InternalRestart`: drop both commands and the count, and go to Idle. */
  function Restart(l: Led, now: nat): (o: Out)
    ensures o.l.cmd.None? && o.l.current.None? && o.l.m.blinkNum == 0 && o.l.m.phase == Idle
    ensures o.l.level == l.ambient && o.l.cstate == l.cstate
  {
    Enter(l.(cmd := Option.None, current := Option.None, m := l.m.(blinkNum := 0)), Idle, now)
  }

  /** The playing states hold the command they play; a blink's counter stays below its blink count. */
  predicate Wf(l: Led) {
    (l.m.phase in {BlinkOn, BlinkOff} ==> l.current.Some? && l.current.value.kind == Blink && l.m.blinkNum < Count(l.current.value))
    && (l.m.phase == ConstOn ==> l.current.Some? && l.current.value.kind == Constant)
    && (l.m.phase == Pulsing ==> l.current.Some? && l.current.value.kind == Pulse)
  }

  /** The number of on phases a blink command plays: its count, but at least one. */
  function Count(b: LedBlink): nat {
    if b.numBlinks == 0 then 1 else b.numBlinks
  }

  /** Loops, restarts and new commands keep the machine well formed. */
  lemma OperationsKeepWf(l: Led, now: nat, n: nat, b: nat, on: nat, off: nat, hold: bool, cycle: nat)
    requires Wf(l)
    ensures Wf(Loop(l, now).l) && Wf(Restart(l, now).l)
    ensures Wf(BlinkCmd(l, n, b, on, off, hold)) && Wf(OnCmd(l, b)) && Wf(OffCmd(l)) && Wf(PulseCmd(l, b, cycle))
  {
    var e := if l.m.entered then l else Enter(l.(m := l.m.(entered := true)), l.m.phase, now).l;
    assert Wf(e);
  }

  /** Idle takes the pending command exactly once and starts playing it from the first blink. */
  lemma IdleConsumesCommand(l: Led, now: nat)
    requires l.m.entered && l.m.phase == Idle && l.cmd.Some?
    ensures var o := Loop(l, now).l;
      o.cmd.None? && o.current == l.cmd && o.m.blinkNum == 0 && o.m.phase == PhaseFor(l.cmd.value.kind)
      && o.cstate == l.cstate
  {
  }

  /**
    A stop request is honoured only while Idle (with nothing pending),
    ConstOn or Pulsing; the blink and transition states finish first.
   */
  lemma StopOnlyWhenSettled(l: Led, now: nat)
    requires l.m.entered
    ensures Loop(l, now).l.cstate != l.cstate ==>
      l.cstate == Component.CmdStop && Loop(l, now).l.cstate == Component.Stopped
      && l.m.phase in {Idle, ConstOn, Pulsing} && l.cmd.None?
  {
  }

  /** The number of entries into BlinkOn. */
  function OnEntries(ps: seq<Phase>): nat {
    if ps == [] then 0 else (if ps[0] == BlinkOn then 1 else 0) + OnEntries(ps[1..])
  }

  lemma OnEntriesAppend(a: seq<Phase>, b: seq<Phase>)
    ensures OnEntries(a + b) == OnEntries(a) + OnEntries(b)
  {
    if a == [] {
      assert a + b == b;
    } else {
      assert (a + b)[0] == a[0] && (a + b)[1..] == a[1..] + b;
      OnEntriesAppend(a[1..], b);
    }
  }

  /** On phases still owed: the rest of the current blink and the whole of a pending blink command. */
  function Owed(l: Led): nat
    requires Wf(l)
  {
    (if l.m.phase in {BlinkOn, BlinkOff} then Count(l.current.value) - 1 - l.m.blinkNum else 0)
    + (if l.cmd.Some? && l.cmd.value.kind == Blink then Count(l.cmd.value) else 0)
  }

  /** Each loop call either enters BlinkOn and pays one owed on phase, or pays none. */
  lemma LoopPaysOwed(l: Led, now: nat)
    requires Wf(l) && l.m.entered
    ensures Wf(Loop(l, now).l)
    ensures OnEntries(Loop(l, now).entered) + Owed(Loop(l, now).l) == Owed(l)
  {
    OperationsKeepWf(l, now, 0, 0, 0, 0, false, 0);
    var o := Loop(l, now);
    assert |o.entered| <= 1;
    if o.entered != [] {
      assert o.entered[1..] == [];
    }
  }

  /** A sequence of loop calls at the given times, collecting the states entered. */
  function Run(l: Led, nows: seq<nat>): (o: Out)
    ensures |o.entered| <= 2 * |nows|
    ensures o.l.ambient == l.ambient
    ensures nows != [] ==> o.l.m.entered
    decreases |nows|
  {
    if nows == [] then Out(l, [])
    else
      var o := Loop(l, nows[0]);
      var rest := Run(o.l, nows[1..]);
      Out(rest.l, o.entered + rest.entered)
  }

  /**
    With no new commands, the on phases a run enters plus those still owed
    at its end equal those owed at its start. So a pending blink command of
    `n` blinks, played to the end, lights the LED max(n, 1) times.
   */
  lemma {:induction false} BlinkCount(l: Led, nows: seq<nat>)
    requires Wf(l) && l.m.entered
    ensures Wf(Run(l, nows).l)
    ensures OnEntries(Run(l, nows).entered) + Owed(Run(l, nows).l) == Owed(l)
    decreases |nows|
  {
    if nows != [] {
      var o := Loop(l, nows[0]);
      LoopPaysOwed(l, nows[0]);
      BlinkCount(o.l, nows[1..]);
      OnEntriesAppend(o.entered, Run(o.l, nows[1..]).entered);
    }
  }

  /** The corollary for one command: from Idle with a blink pending, a run that settles back has lit the LED max(n, 1) times. */
  lemma PendingBlinkLightsCount(l: Led, nows: seq<nat>)
    requires l.m.entered && l.m.phase == Idle && l.cmd.Some? && l.cmd.value.kind == Blink
    requires Run(l, nows).l.m.phase == Idle && Run(l, nows).l.cmd.None?
    ensures OnEntries(Run(l, nows).entered) == Count(l.cmd.value)
  {
    BlinkCount(l, nows);
  }

  /** A newer command replaces an older one still pending: only the latest is played. */
  lemma LatestCommandWins(l: Led, n: nat, b: nat, b2: nat, on: nat, off: nat, hold: bool)
    ensures OnCmd(BlinkCmd(l, n, b, on, off, hold), b2).cmd == OnCmd(l, b2).cmd
    ensures BlinkCmd(OffCmd(l), n, b, on, off, hold) == BlinkCmd(l, n, b, on, off, hold)
  {
  }
}
