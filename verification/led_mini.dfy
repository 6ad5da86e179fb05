/**
  `LED` and `LEDs<N>` of src/original_mini/leds.h and leds.cpp: the
  original Mini's LEDs, which only blink. An LED's Idle state has no entry
  action, so the level a blink leaves behind stays until the next one.
 */
module MiniLed {
  import opened Wrappers
  import opened Clock
  import Component
  import UiLed

  /** `LEDBlink` of the Mini. */
  datatype LedBlink = LedBlink(numBlinks: nat, brightness: nat, onMs: nat, offMs: nat, hold: bool)

  datatype Phase = Idle | On | Off

  /** The per-LED machine: state, first-run flag negated, blink counter and timer. */
  datatype Machine = Machine(phase: Phase, entered: bool, blinkNum: nat, lastChange: nat)

  datatype Led = Led(id: nat, cstate: Component.CState, m: Machine, cmd: Option<LedBlink>, current: Option<LedBlink>, level: nat)

  datatype Out = Out(l: Led, entered: seq<Phase>)

  function NewLed(id: nat): (l: Led)
    ensures l.id == id && l.cstate == Component.Uninitialized && l.m.phase == Idle && l.cmd.None?
  {
    Led(id, Component.Uninitialized, Machine(Idle, false, 0, 0), Option.None, Option.None, 0)
  }

  /** The command `Blink` means to store: zero times take the same defaults as the button-UI LEDs. */
  function Command(n: nat, brightness: nat, onMs: nat, offMs: nat, hold: bool): (b: LedBlink)
    ensures b.numBlinks == n && b.brightness == brightness && b.hold == hold
    ensures b.onMs == (if onMs == 0 then UiLed.OnDefault(n) else onMs)
    ensures b.offMs == (if offMs == 0 then UiLed.OffDefault(n) else offMs)
  {
    LedBlink(n, brightness, if onMs == 0 then UiLed.OnDefault(n) else onMs, if offMs == 0 then UiLed.OffDefault(n) else offMs, hold)
  }

  /**
    `LED::Blink` as written: the assignment of the command sits inside the
    `if (off_ms == 0)` block, so a call with an explicit off time does nothing.
   */
  function BlinkAsWritten(l: Led, n: nat, brightness: nat, onMs: nat, offMs: nat, hold: bool): (r: Led)
    ensures offMs == 0 ==> r == l.(cmd := Some(Command(n, brightness, onMs, offMs, hold)))
    ensures offMs != 0 ==> r == l
  {
    if offMs == 0 then l.(cmd := Some(Command(n, brightness, onMs, 0, hold))) else l
  }

  /** `LED::Blink` as evidently intended (and as the button-UI LED has it): always store the command. */
  function Blink(l: Led, n: nat, brightness: nat, onMs: nat, offMs: nat, hold: bool): (r: Led)
    ensures r.cmd == Some(Command(n, brightness, onMs, offMs, hold))
    ensures r == l.(cmd := r.cmd)
  {
    l.(cmd := Some(Command(n, brightness, onMs, offMs, hold)))
  }

  /** The discrepancy: a blink with an explicit off time is dropped as written but kept by the intended code. */
  lemma ExplicitOffTimeDropped(l: Led)
    requires l.cmd.None?
    ensures BlinkAsWritten(l, 3, 255, 0, 250, false).cmd.None?
    ensures Blink(l, 3, 255, 0, 250, false).cmd == Some(LedBlink(3, 255, 67, 250, false))
  {
  }

  /** The two versions agree whenever the off time is left to its default. */
  lemma AgreeOnDefaultOffTime(l: Led, n: nat, brightness: nat, onMs: nat, hold: bool)
    ensures BlinkAsWritten(l, n, brightness, onMs, 0, hold) == Blink(l, n, brightness, onMs, 0, hold)
  {
  }

  function Enter(l: Led, p: Phase, now: nat): (o: Out)
    ensures o.l.m.phase == p && o.entered == [p]
    ensures o.l.id == l.id && o.l.cstate == l.cstate && o.l.cmd == l.cmd && o.l.current == l.current
    ensures o.l.m.entered == l.m.entered && o.l.m.blinkNum == l.m.blinkNum
    ensures p == Idle ==> o.l.level == l.level
    ensures p == Off ==> o.l.level == 0
    ensures p == On && l.current.Some? ==> o.l.level == l.current.value.brightness
  {
    var m := l.m.(phase := p);
    match p
    case Idle => Out(l.(m := m), [p])
    case On => Out(l.(m := m.(lastChange := now), level := if l.current.Some? then l.current.value.brightness else l.level), [p])
    case Off => Out(l.(m := m.(lastChange := now), level := 0), [p])
  }

  /** `num_blinks - 1` in `int` arithmetic. */
  function Last(b: LedBlink): int {
    b.numBlinks - 1
  }

  /** The `loop()` of the current state: Idle starts a pending blink, On and Off wait out their times. */
  function StateLoop(l: Led, now: nat): (o: Out)
    ensures |o.entered| <= 1 && o.l.id == l.id && o.l.m.entered == l.m.entered
    ensures l.m.phase != Idle ==> o.l.cmd == l.cmd && o.l.current == l.current && o.l.cstate == l.cstate
    ensures l.m.phase == Idle && l.cmd.Some? ==>
      o.l.cmd.None? && o.l.current == l.cmd && o.l.m.blinkNum == 0 && o.l.m.phase == On && o.entered == [On]
    ensures o.l.cstate != l.cstate ==> l.cstate == Component.CmdStop && o.l.cstate == Component.Stopped && o.l.m.phase == Idle
    ensures o.entered == [Off] ==> o.l.level == 0
  {
    match l.m.phase
    case Idle =>
      if l.cmd.Some? then Enter(l.(current := l.cmd, cmd := Option.None, m := l.m.(blinkNum := 0)), On, now)
      else if l.cstate == Component.CmdStop then Out(l.(cstate := Component.Stopped), [])
      else Out(l, [])
    case On =>
      if l.current.Some? && Since(now, l.m.lastChange) >= l.current.value.onMs then
        if l.current.value.hold && l.m.blinkNum == Last(l.current.value) then Enter(l, Idle, now)
        else Enter(l, Off, now)
      else Out(l, [])
    case Off =>
      if l.current.Some? && Since(now, l.m.lastChange) >= l.current.value.offMs then
        if l.m.blinkNum < Last(l.current.value) then Enter(l.(m := l.m.(blinkNum := l.m.blinkNum + 1)), On, now)
        else Enter(l, Idle, now)
      else Out(l, [])
  }

  /** `InternalLoop`: the machine's loop, entering the current state on the first call. */
  function Loop(l: Led, now: nat): (o: Out)
    ensures o.l.m.entered && o.l.id == l.id
  {
    if !l.m.entered then
      var e := Enter(l.(m := l.m.(entered := true)), l.m.phase, now);
      var o := StateLoop(e.l, now);
      Out(o.l, e.entered + o.entered)
    else StateLoop(l, now)
  }

  /**
    A held blink ends in Idle with the LED still at the blink's brightness;
    an unheld one ends in Idle with the LED dark.
   */
  lemma LastBlinkLevel(l: Led, now: nat)
    requires l.m.entered && l.current.Some? && l.m.blinkNum == Last(l.current.value)
    requires l.m.phase == On && Since(now, l.m.lastChange) >= l.current.value.onMs
    ensures l.current.value.hold ==> Loop(l, now).l.m.phase == Idle && Loop(l, now).l.level == l.level
    ensures !l.current.value.hold ==> Loop(l, now).l.m.phase == Off && Loop(l, now).l.level == 0
  {
  }

  /** Once Off has waited its time on the last blink, the LED goes to Idle and stays dark. */
  lemma UnheldBlinkEndsDark(l: Led, now: nat)
    requires l.m.entered && l.current.Some? && l.m.blinkNum >= Last(l.current.value)
    requires l.m.phase == Off && l.level == 0 && Since(now, l.m.lastChange) >= l.current.value.offMs
    ensures Loop(l, now).l.m.phase == Idle && Loop(l, now).l.level == 0
  {
  }

  /** Only Idle with nothing pending honours a stop request; a blink runs to its end first. */
  lemma StopOnlyInIdle(l: Led, now: nat)
    requires l.m.entered
    ensures Loop(l, now).l.cstate != l.cstate ==>
      l.cstate == Component.CmdStop && Loop(l, now).l.cstate == Component.Stopped
      && l.m.phase == Idle && l.cmd.None?
  {
  }

  // The LEDs aggregate.

  datatype Leds = Leds(cstate: Component.CState, leds: seq<Led>)

  /**
    `LED::id()`: the id is stored as a `uint16_t` but returned as a
    `uint8_t`, and `LEDs::Blink` takes its `led_id` as a `uint8_t` too, so
    ids are compared modulo 256.
   */
  function IdByte(id: nat): (b: nat)
    ensures b < 256 && (id < 256 ==> b == id)
  {
    id % 256
  }

  /** The index of the first LED whose id, narrowed to a byte, is the given id narrowed to a byte. */
  function FirstWithId(ls: seq<Led>, id: nat): (r: Option<nat>)
    ensures r.Some? ==>
      r.value < |ls| && IdByte(ls[r.value].id) == IdByte(id) && forall j | 0 <= j < r.value :: IdByte(ls[j].id) != IdByte(id)
    ensures r.None? ==> forall j | 0 <= j < |ls| :: IdByte(ls[j].id) != IdByte(id)
  {
    if ls == [] then Option.None
    else if IdByte(ls[0].id) == IdByte(id) then Some(0)
    else
      var r := FirstWithId(ls[1..], id);
      if r.Some? then Some(r.value + 1) else Option.None
  }

  /** An LED whose id is 256 above the one asked for answers in its place. */
  lemma WideIdAnswers(ls: seq<Led>, id: nat)
    requires |ls| > 0 && ls[0].id == id + 256
    ensures FirstWithId(ls, id) == Some(0)
  {
    assert IdByte(id + 256) == IdByte(id);
  }

  /** Applies `f` to the first LED with the given id, leaving every other LED alone. */
  function UpdateFirst(a: Leds, id: nat, f: Led -> Led): (r: Leds)
    ensures r.cstate == a.cstate && |r.leds| == |a.leds|
    ensures var i := FirstWithId(a.leds, id);
      forall j | 0 <= j < |a.leds| :: r.leds[j] == (if i == Some(j) then f(a.leds[j]) else a.leds[j])
  {
    var i := FirstWithId(a.leds, id);
    if i.Some? then a.(leds := a.leds[i.value := f(a.leds[i.value])]) else a
  }

  /**
    `LEDs::Blink` as written: the first LED with the id takes the call, through
    `LED::Blink` as written, so an explicit off time reaches no LED.
   */
  function LedsBlink(a: Leds, id: nat, n: nat, brightness: nat, onMs: nat, offMs: nat, hold: bool): (r: Leds)
    ensures r.cstate == a.cstate && |r.leds| == |a.leds|
    ensures var i := FirstWithId(a.leds, id);
      forall j | 0 <= j < |a.leds| ::
        r.leds[j].cmd == (if i == Some(j) && offMs == 0 then Some(Command(n, brightness, onMs, 0, hold)) else a.leds[j].cmd)
    ensures forall j | 0 <= j < |a.leds| :: r.leds[j] == a.leds[j].(cmd := r.leds[j].cmd)
  {
    UpdateFirst(a, id, l => BlinkAsWritten(l, n, brightness, onMs, offMs, hold))
  }

  /** `LEDs::Blink` over the intended `LED::Blink`: the first LED with the id always stores the command. */
  function LedsBlinkIntended(a: Leds, id: nat, n: nat, brightness: nat, onMs: nat, offMs: nat, hold: bool): (r: Leds)
    ensures r.cstate == a.cstate && |r.leds| == |a.leds|
    ensures var i := FirstWithId(a.leds, id);
      forall j | 0 <= j < |a.leds| ::
        r.leds[j].cmd == (if i == Some(j) then Some(Command(n, brightness, onMs, offMs, hold)) else a.leds[j].cmd)
    ensures forall j | 0 <= j < |a.leds| :: r.leds[j] == a.leds[j].(cmd := r.leds[j].cmd)
  {
    UpdateFirst(a, id, l => Blink(l, n, brightness, onMs, offMs, hold))
  }

  /** The aggregate's two versions agree when the off time is left to its default. */
  lemma LedsBlinkAgreeOnDefaultOffTime(a: Leds, id: nat, n: nat, brightness: nat, onMs: nat, hold: bool)
    ensures LedsBlink(a, id, n, brightness, onMs, 0, hold) == LedsBlinkIntended(a, id, n, brightness, onMs, 0, hold)
  {
  }

  /** One lifecycle call of the aggregate. */
  datatype Call = Init | Start | Stop | Restart

  /**
    A child's lifecycle call: an LED's `InternalInit`, `InternalStart` and
    `InternalStop` all return true, and its stop takes effect in a later loop.
   */
  function ChildCall(l: Led, c: Call): (r: Led)
    ensures r.id == l.id && r.m == l.m && r.cmd == l.cmd && r.level == l.level
  {
    match c
    case Init => l.(cstate := Component.Init(l.cstate, true).st)
    case Start => l.(cstate := Component.Start(l.cstate, true).st)
    case Stop => l.(cstate := Component.Stop(l.cstate, true, false).st)
    case Restart => l
  }

  function MapCall(ls: seq<Led>, c: Call): (r: seq<Led>)
    ensures |r| == |ls| && forall j | 0 <= j < |ls| :: r[j] == ChildCall(ls[j], c)
  {
    if ls == [] then [] else [ChildCall(ls[0], c)] + MapCall(ls[1..], c)
  }

  /**
    The aggregate's `Init`, `Start`, `Stop` and `Restart`: the hooks pass the
    call to every LED, whatever its outcome, and report success.
   */
  function LedsCall(a: Leds, c: Call): (r: Leds)
    ensures c == Init ==> r.cstate == Component.Init(a.cstate, true).st
    ensures c == Start ==> r.cstate == Component.Start(a.cstate, true).st
    ensures c == Stop ==> r.cstate == Component.Stop(a.cstate, true, false).st
    ensures c == Restart ==> r.cstate == a.cstate
    ensures |r.leds| == |a.leds|
  {
    match c
    case Init =>
      if a.cstate == Component.Uninitialized then Leds(Component.Initialized, MapCall(a.leds, c)) else a
    case Start =>
      if a.cstate in {Component.Stopped, Component.Initialized} then Leds(Component.Running, MapCall(a.leds, c)) else a
    case Stop =>
      if a.cstate == Component.Running then Leds(Component.CmdStop, MapCall(a.leds, c)) else a
    case Restart =>
      // an LED's `InternalRestart` is empty
      a.(leds := MapCall(a.leds, c))
  }

  /** `ComponentBase::Loop` of one LED: its loop runs only while Running or stopping. */
  function ChildLoop(l: Led, now: nat): (r: Led)
    ensures r.id == l.id
  {
    if Component.Loops(l.cstate) then Loop(l, now).l else l
  }

  function LoopAll(ls: seq<Led>, now: nat): (r: seq<Led>)
    ensures |r| == |ls| && forall j | 0 <= j < |ls| :: r[j] == ChildLoop(ls[j], now)
  {
    if ls == [] then [] else [ChildLoop(ls[0], now)] + LoopAll(ls[1..], now)
  }

  predicate AllStopped(ls: seq<Led>) {
    forall j | 0 <= j < |ls| :: ls[j].cstate == Component.Stopped
  }

  /** `LEDs::Loop`: every LED loops, then a pending stop completes once all of them have stopped. */
  function LedsLoop(a: Leds, now: nat): (r: Leds)
    ensures |r.leds| == |a.leds|
    ensures !Component.Loops(a.cstate) ==> r == a
    ensures Component.Loops(a.cstate) ==> r.leds == LoopAll(a.leds, now)
    ensures r.cstate != a.cstate <==> a.cstate == Component.CmdStop && AllStopped(LoopAll(a.leds, now))
    ensures r.cstate != a.cstate ==> r.cstate == Component.Stopped
  {
    if !Component.Loops(a.cstate) then a
    else
      var ls := LoopAll(a.leds, now);
      if a.cstate == Component.CmdStop && AllStopped(ls) then Leds(Component.Stopped, ls) else Leds(a.cstate, ls)
  }

  /** An LED is quiet when it runs, has been entered, and sits in Idle with nothing pending. */
  predicate Quiet(l: Led) {
    l.cstate == Component.Running && l.m.entered && l.m.phase == Idle && l.cmd.None?
  }

  /** Stopping a running aggregate of quiet LEDs takes effect at the next loop, for all of them. */
  lemma StopDrainsQuietLeds(a: Leds, now: nat)
    requires a.cstate == Component.Running && forall j | 0 <= j < |a.leds| :: Quiet(a.leds[j])
    ensures LedsCall(a, Stop).cstate == Component.CmdStop
    ensures LedsLoop(LedsCall(a, Stop), now).cstate == Component.Stopped
    ensures AllStopped(LedsLoop(LedsCall(a, Stop), now).leds)
  {
    var s := LedsCall(a, Stop);
    var ls := LoopAll(s.leds, now);
    forall j | 0 <= j < |ls|
      ensures ls[j].cstate == Component.Stopped
    {
      assert s.leds[j] == ChildCall(a.leds[j], Stop);
    }
  }

  /** A blinking LED holds back the aggregate's stop. */
  lemma BlinkingLedDelaysStop(a: Leds, now: nat, k: nat)
    requires a.cstate == Component.CmdStop && k < |a.leds|
    requires a.leds[k].cstate == Component.CmdStop && a.leds[k].m.entered && a.leds[k].m.phase in {On, Off}
    ensures LedsLoop(a, now).cstate == Component.CmdStop
  {
    var ls := LoopAll(a.leds, now);
    assert ls[k] == ChildLoop(a.leds[k], now);
    assert ls[k].cstate == Component.CmdStop;
  }
}
