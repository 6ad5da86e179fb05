/**
  `BtnSwLED` of src/button_ui/btn_sw_led.cpp and .h: one button with an
  optional LED, run by a seven-state machine that is either a click counter
  (switch mode off) or a switch (switch mode on), and in switch mode either
  a toggle or a kill switch that is on exactly while held. `BtnSwLEDInput`
  routes per-id commands to a fixed array of them.

  The pin level and `millis()` are inputs of every step that reads them; the
  LED itself is not modelled, only the commands the button sends to it.
 */
module BtnSwLed {
  import opened Wrappers
  import opened UserInput
  import opened Clock
  import Clicks
  import ClickButton

  type Timing = ClickButton.Timing

  const UInt8Limit: nat := 256

  datatype Phase = Idle | RisingDebounce | Pressed | FallingDebounce | Released | SwOn | SwOff

  /** A command forwarded to the button's LED. */
  datatype LedCmd =
    | LedOn(brightness: nat)
    | LedOff
    | LedBlink(numBlinks: nat, brightness: nat, onMs: nat, offMs: nat, hold: bool)
    | LedPulse(brightness: nat, cycleMs: nat)
    | LedAmbient(brightness: nat)
    | LedRestart

  /** What a step does outside the button: an event reported, or a command to the LED. */
  datatype Effect = Emit(e: Event) | Led(cmd: LedCmd)

  /** What does not change after construction; `brightDflt` is the hardware's `LED_BRIGHT_DFLT`. */
  datatype Setup = Setup(id: nat, kill: bool, hasLed: bool, brightDflt: nat)

  /** Switch mode, switch state, the copies `PauseSwitchMode` keeps, and the auto-LED flag. */
  datatype Switching = Switching(mode: bool, on: bool, savedMode: bool, savedOn: bool, autoLed: bool)

  /**
    The state machine proper. `entered` is the negation of the machine's
    `first_run_`; `startTime` is the `start_time_` of whichever debounce or
    release state is current, and `lastTrigger` that of Pressed.
   */
  datatype Machine = Machine(
    phase: Phase, entered: bool, rising: bool, falling: bool, numClicks: nat,
    pressStart: nat, startTime: nat, lastTrigger: nat)

  datatype Bsl = Bsl(cfg: Setup, sw: Switching, m: Machine)

  datatype Out = Out(s: Bsl, effects: seq<Effect>)

  /** A button as constructed: idle, click mode, switch off, entry not yet run. */
  function NewBsl(cfg: Setup): (s: Bsl)
    ensures s.cfg == cfg && s.m.phase == Idle && !s.m.entered && !s.sw.mode && !s.sw.on
  {
    Bsl(cfg, Switching(false, false, false, false, false), Machine(Idle, false, false, false, 0, 0, 0, 0))
  }

  /** The button's own LED call: forwarded only when it has an LED. */
  function LedCall(cfg: Setup, c: LedCmd): (es: seq<Effect>)
    ensures cfg.hasLed ==> es == [Led(c)]
    ensures !cfg.hasLed ==> es == []
  {
    if cfg.hasLed then [Led(c)] else []
  }

  /** `TriggerSwitch(on)`: a final SwitchOn or SwitchOff event. */
  function Switch(cfg: Setup, on: bool): Effect {
    Emit(Event(if on then SwitchOn else SwitchOff, 0, 0, cfg.id, true))
  }

  function Emits(es: seq<Event>): (fs: seq<Effect>)
    ensures |fs| == |es|
    ensures forall i | 0 <= i < |es| :: fs[i] == Emit(es[i])
    ensures forall f | f in fs :: f.Emit?
  {
    if es == [] then [] else [Emit(es[0])] + Emits(es[1..])
  }

  /** `TriggerClick` with the time since the press started. */
  function Click(s: Bsl, now: nat, n: nat, final: bool): seq<Effect> {
    Emits(Clicks.Report(s.cfg.id, Since(now, s.m.pressStart), n, final))
  }

  /** Every entry action clears both edge flags. */
  function Cleared(m: Machine, p: Phase): (r: Machine)
    ensures r.phase == p && !r.rising && !r.falling
  {
    m.(phase := p, rising := false, falling := false)
  }

  /** The entry action of every state other than Idle. */
  function EnterPlain(s: Bsl, p: Phase, now: nat): (o: Out)
    requires p != Idle
    ensures o.s.cfg == s.cfg && o.s.m.entered == s.m.entered && o.s.m.numClicks == s.m.numClicks
    ensures o.s.m.phase == p && !o.s.m.rising && !o.s.m.falling
    ensures p == SwOn ==> o.s.sw == s.sw.(on := true) && o.effects == LedCall(s.cfg, LedOn(s.cfg.brightDflt))
    ensures p == SwOff ==> o.s.sw == s.sw.(on := false) && o.effects == LedCall(s.cfg, LedOff)
    ensures p !in {SwOn, SwOff} ==> o.s.sw == s.sw && o.effects == []
  {
    var c := Cleared(s.m, p);
    match p
    case RisingDebounce => Out(s.(m := c.(startTime := now, pressStart := now)), [])
    case Pressed => Out(s.(m := c.(lastTrigger := now)), [])
    case FallingDebounce => Out(s.(m := c.(startTime := now)), [])
    case Released => Out(s.(m := c.(startTime := now)), [])
    case SwOn => Out(Bsl(s.cfg, s.sw.(on := true), c), LedCall(s.cfg, LedOn(s.cfg.brightDflt)))
    case SwOff => Out(Bsl(s.cfg, s.sw.(on := false), c), LedCall(s.cfg, LedOff))
  }

  /** Idle's entry: no flags, no clicks, and a kill switch in switch mode moves on to the state of the pin. */
  function EnterIdle(s: Bsl, now: nat, pressed: bool): (o: Out)
    ensures o.s.cfg == s.cfg && o.s.m.entered == s.m.entered && o.s.m.numClicks == 0
    ensures !o.s.m.rising && !o.s.m.falling
    ensures !(s.sw.mode && s.cfg.kill) ==> o == Out(s.(m := Cleared(s.m, Idle).(numClicks := 0)), [])
    ensures s.sw.mode && s.cfg.kill ==> o == EnterPlain(s.(m := s.m.(numClicks := 0)), if pressed then SwOn else SwOff, now)
  {
    var c := s.(m := Cleared(s.m, Idle).(numClicks := 0));
    if s.sw.mode && s.cfg.kill then EnterPlain(c, if pressed then SwOn else SwOff, now)
    else Out(c, [])
  }

  /** `transition_to<p>()`: no state has an exit action, so this is the entry of `p`. */
  function Enter(s: Bsl, p: Phase, now: nat, pressed: bool): (o: Out)
    ensures o.s.cfg == s.cfg && o.s.m.entered == s.m.entered && !o.s.m.rising && !o.s.m.falling
    ensures o.s.sw.mode == s.sw.mode && o.s.sw.savedMode == s.sw.savedMode && o.s.sw.savedOn == s.sw.savedOn
    ensures p != Idle ==> o == EnterPlain(s, p, now)
    ensures p == Idle ==> o == EnterIdle(s, now, pressed)
    ensures !s.cfg.hasLed ==> o.effects == []
  {
    if p == Idle then EnterIdle(s, now, pressed) else EnterPlain(s, p, now)
  }

  /** Effects first, then a transition. */
  function After(effects: seq<Effect>, o: Out): Out {
    Out(o.s, effects + o.effects)
  }

  /** The `loop()` of the current state. */
  function StateLoop(t: Timing, s: Bsl, now: nat, pressed: bool): (o: Out)
    ensures o.s.cfg == s.cfg && o.s.sw.mode == s.sw.mode && o.s.m.entered == s.m.entered
    ensures forall f | f in o.effects && f.Emit? :: f.e.btnId == s.cfg.id
    ensures s.m.phase in {Idle, SwOff} && !s.m.rising ==> o == Out(s, [])
  {
    match s.m.phase
    case Idle =>
      if s.m.rising then Enter(s, RisingDebounce, now, pressed) else Out(s, [])
    case RisingDebounce =>
      if Since(now, s.m.startTime) >= t.debounce then
        if pressed then
          if s.sw.mode && s.cfg.kill then After([Switch(s.cfg, true)], Enter(s, SwOn, now, pressed))
          else Enter(s, Pressed, now, pressed)
        else if s.sw.mode then Enter(s, if s.sw.on then SwOn else SwOff, now, pressed)
        else Enter(s, Idle, now, pressed)
      else Out(s, [])
    case Pressed => PressedLoop(t, s, now, pressed)
    case FallingDebounce =>
      if Since(now, s.m.startTime) >= t.debounce then
        if s.sw.mode then After([Switch(s.cfg, false)], Enter(s, SwOff, now, pressed))
        else Enter(s, Released, now, pressed)
      else Out(s, [])
    case Released =>
      if s.m.rising then Enter(s, RisingDebounce, now, pressed)
      else if Since(now, s.m.startTime) >= t.pressTimeout then
        After(Click(s, now, s.m.numClicks, true), Enter(s, Idle, now, pressed))
      else Out(s, [])
    case SwOn =>
      if !s.cfg.kill then
        if s.m.rising then Enter(s, RisingDebounce, now, pressed) else Out(s, [])
      else if s.m.falling then Enter(s, FallingDebounce, now, pressed)
      else Out(s, [])
    case SwOff =>
      if s.m.rising then Enter(s, RisingDebounce, now, pressed) else Out(s, [])
  }

  /** Pressed: a release toggles or counts; a held press re-reports every trigger interval. */
  function PressedLoop(t: Timing, s: Bsl, now: nat, pressed: bool): (o: Out)
    requires s.m.phase == Pressed
    ensures o.s.cfg == s.cfg && o.s.sw.mode == s.sw.mode && o.s.m.entered == s.m.entered
    ensures forall f | f in o.effects && f.Emit? :: f.e.btnId == s.cfg.id
  {
    if s.m.falling then
      if s.sw.mode then
        if !s.cfg.kill then
          if s.sw.on then After([Switch(s.cfg, false)], Enter(s, SwOff, now, pressed))
          else After([Switch(s.cfg, true)], Enter(s, SwOn, now, pressed))
        else After([Switch(s.cfg, true)], Enter(s, SwOn, now, pressed))
      else
        var n := (s.m.numClicks + 1) % UInt8Limit;
        After(Click(s, now, n, false), Enter(s.(m := s.m.(numClicks := n)), FallingDebounce, now, pressed))
    else if (!s.sw.mode || !s.cfg.kill) && Since(now, s.m.lastTrigger) >= t.triggerInterval then
      Out(s.(m := s.m.(lastTrigger := now)), Click(s, now, s.m.numClicks, false))
    else Out(s, [])
  }

  /**
    `InternalLoop`: the state machine's `loop()`, which on its first call
    runs the current state's entry before its loop.
   */
  function Loop(t: Timing, s: Bsl, now: nat, pressed: bool): (o: Out)
  {
    if !s.m.entered then
      var e := Enter(s.(m := s.m.(entered := true)), s.m.phase, now, pressed);
      After(e.effects, StateLoop(t, e.s, now, pressed))
    else StateLoop(t, s, now, pressed)
  }

  /** `ISR`: a high pin raises the rising flag, a low pin the falling flag. */
  function Isr(s: Bsl, pressed: bool): (r: Bsl)
    ensures pressed ==> r == s.(m := s.m.(rising := true))
    ensures !pressed ==> r == s.(m := s.m.(falling := true))
  {
    if pressed then s.(m := s.m.(rising := true)) else s.(m := s.m.(falling := true))
  }

  /** `InitPress`: the wake-up press is held, so the machine goes straight to Pressed. */
  function InitPress(s: Bsl, now: nat): (o: Out)
    ensures o.s.m.phase == Pressed && o.s.m.pressStart == now && o.s.m.lastTrigger == now && o.effects == []
    ensures o.s.sw == s.sw && o.s.m.numClicks == s.m.numClicks
  {
    Enter(s.(m := s.m.(pressStart := now)), Pressed, now, true)
  }

  /** `InternalRestart`: the switch is off, the LED restarted, and the machine in Idle. */
  function Restart(s: Bsl, now: nat, pressed: bool): Out {
    After(LedCall(s.cfg, LedRestart), Enter(s.(sw := s.sw.(on := false)), Idle, now, pressed))
  }

  /** `SetSwitchMode(on)`: set the mode, then restart. */
  function SetSwitchMode(s: Bsl, on: bool, now: nat, pressed: bool): (o: Out)
    ensures o.s.cfg == s.cfg && o.s.sw.mode == on && o.s.m.numClicks == 0
    ensures !(on && s.cfg.kill) ==> o.s.m.phase == Idle && !o.s.sw.on
    ensures s.cfg.hasLed ==> |o.effects| > 0 && o.effects[0] == Led(LedRestart)
    ensures !s.cfg.hasLed ==> o.effects == []
  {
    Restart(s.(sw := s.sw.(mode := on)), now, pressed)
  }

  /** `PauseSwitchMode`: remember mode and switch state, then act as an idle click button. */
  function Pause(s: Bsl, now: nat, pressed: bool): (o: Out)
    ensures o.s.sw.savedMode == s.sw.mode && o.s.sw.savedOn == s.sw.on
    ensures !o.s.sw.mode && !o.s.sw.on && o.s.m.phase == Idle && o.effects == []
  {
    var sw := s.sw.(savedMode := s.sw.mode, savedOn := s.sw.on, mode := false, on := false);
    Enter(s.(sw := sw), Idle, now, pressed)
  }

  /** `ResumeSwitchMode`: restore mode and state, and enter the state they call for. */
  function Resume(s: Bsl, now: nat, pressed: bool): (o: Out)
    ensures o.s.sw.mode == s.sw.savedMode && o.s.sw.on == s.sw.savedOn
    ensures o.s.m.phase == (if s.sw.savedMode then (if s.sw.savedOn then SwOn else SwOff) else Idle)
  {
    var c := s.(sw := s.sw.(mode := s.sw.savedMode, on := s.sw.savedOn));
    if c.sw.mode then Enter(c, if c.sw.on then SwOn else SwOff, now, pressed)
    else Enter(c, Idle, now, pressed)
  }

  /** `SetSwitchOn`. */
  function SetSwitchOn(s: Bsl, now: nat): Out {
    Enter(s, SwOn, now, false)
  }

  /** `SetSwitchOff`. */
  function SetSwitchOff(s: Bsl, now: nat): Out {
    Enter(s, SwOff, now, false)
  }

  /** The switch state agrees with the switch states of the machine. */
  predicate Agrees(s: Bsl) {
    (s.m.phase == SwOn ==> s.sw.on) && (s.m.phase == SwOff ==> !s.sw.on)
  }

  lemma EnterAgrees(s: Bsl, p: Phase, now: nat, pressed: bool)
    requires Agrees(s) || p != s.m.phase
    ensures Agrees(Enter(s, p, now, pressed).s)
  {
  }

  lemma StateLoopAgrees(t: Timing, s: Bsl, now: nat, pressed: bool)
    requires Agrees(s)
    ensures Agrees(StateLoop(t, s, now, pressed).s)
  {
    if s.m.phase == Pressed && s.m.falling && !s.sw.mode {
      EnterAgrees(s.(m := s.m.(numClicks := (s.m.numClicks + 1) % UInt8Limit)), FallingDebounce, now, pressed);
    }
  }

  /** A loop call keeps the switch state in agreement with the machine's state. */
  lemma LoopKeepsAgreement(t: Timing, s: Bsl, now: nat, pressed: bool)
    requires Agrees(s)
    ensures Agrees(Loop(t, s, now, pressed).s)
  {
    if !s.m.entered {
      var s1 := s.(m := s.m.(entered := true));
      EnterAgrees(s1, s.m.phase, now, pressed);
      StateLoopAgrees(t, Enter(s1, s.m.phase, now, pressed).s, now, pressed);
    } else {
      StateLoopAgrees(t, s, now, pressed);
    }
  }

  /** So does every command. */
  lemma CommandsKeepAgreement(s: Bsl, now: nat, pressed: bool, on: bool)
    requires Agrees(s)
    ensures Agrees(Isr(s, pressed))
    ensures Agrees(InitPress(s, now).s)
    ensures Agrees(Restart(s, now, pressed).s)
    ensures Agrees(SetSwitchMode(s, on, now, pressed).s)
    ensures Agrees(Pause(s, now, pressed).s)
    ensures Agrees(Resume(s, now, pressed).s)
    ensures Agrees(SetSwitchOn(s, now).s) && Agrees(SetSwitchOff(s, now).s)
  {
    PressCommandsKeepAgreement(s, now, pressed);
    ModeCommandsKeepAgreement(s, now, pressed, on);
  }

  lemma PressCommandsKeepAgreement(s: Bsl, now: nat, pressed: bool)
    requires Agrees(s)
    ensures Agrees(Isr(s, pressed))
    ensures Agrees(InitPress(s, now).s)
    ensures Agrees(Restart(s, now, pressed).s)
  {
  }

  lemma ModeCommandsKeepAgreement(s: Bsl, now: nat, pressed: bool, on: bool)
    requires Agrees(s)
    ensures Agrees(SetSwitchMode(s, on, now, pressed).s)
    ensures Agrees(Pause(s, now, pressed).s)
    ensures Agrees(Resume(s, now, pressed).s)
    ensures Agrees(SetSwitchOn(s, now).s) && Agrees(SetSwitchOff(s, now).s)
  {
  }

  /**
    A toggle switch: a release in Pressed flips the switch state and
    reports the event that matches the new state.
   */
  lemma ToggleOnRelease(t: Timing, s: Bsl, now: nat, pressed: bool)
    requires s.m.entered && s.m.phase == Pressed && s.m.falling && s.sw.mode && !s.cfg.kill
    ensures var o := Loop(t, s, now, pressed);
      o.s.sw.on == !s.sw.on
      && o.s.m.phase == (if o.s.sw.on then SwOn else SwOff)
      && o.effects[0] == Emit(Event(if o.s.sw.on then SwitchOn else SwitchOff, 0, 0, s.cfg.id, true))
  {
  }

  /** A kill switch: a debounced press switches on, a debounced release switches off. */
  lemma KillSwitchFollowsPin(t: Timing, s: Bsl, now: nat, pressed: bool)
    requires s.m.entered && s.sw.mode && s.cfg.kill
    ensures s.m.phase == RisingDebounce && Since(now, s.m.startTime) >= t.debounce && pressed ==>
      var o := Loop(t, s, now, pressed);
      o.s.m.phase == SwOn && o.s.sw.on && o.effects[0] == Switch(s.cfg, true)
    ensures s.m.phase == FallingDebounce && Since(now, s.m.startTime) >= t.debounce ==>
      var o := Loop(t, s, now, pressed);
      o.s.m.phase == SwOff && !o.s.sw.on && o.effects[0] == Switch(s.cfg, false)
    ensures s.m.phase == SwOn && s.m.falling ==> Loop(t, s, now, pressed).s.m.phase == FallingDebounce
  {
  }

  /**
    Click mode: a release counts one more click (on a `uint8_t` counter)
    and reports it as not final; the final report comes when Released
    times out, and the machine is then idle with no clicks.
   */
  lemma ClickModeCounts(t: Timing, s: Bsl, now: nat, pressed: bool)
    requires s.m.entered && !s.sw.mode
    ensures s.m.phase == Pressed && s.m.falling ==>
      var o := Loop(t, s, now, pressed);
      var n := (s.m.numClicks + 1) % UInt8Limit;
      o.s.m.phase == FallingDebounce && o.s.m.numClicks == n
      && o.effects == Emits(Clicks.Report(s.cfg.id, Since(now, s.m.pressStart), n, false))
    ensures s.m.phase == Released && !s.m.rising && Since(now, s.m.startTime) >= t.pressTimeout ==>
      var o := Loop(t, s, now, pressed);
      o.s.m.phase == Idle && o.s.m.numClicks == 0
      && o.effects == Emits(Clicks.Report(s.cfg.id, Since(now, s.m.pressStart), s.m.numClicks, true))
  {
    if s.m.phase == Released && !s.m.rising && Since(now, s.m.startTime) >= t.pressTimeout {
      ClickFinal(t, s, now, pressed);
    }
    if s.m.phase == Pressed && s.m.falling {
      ClickCounted(t, s, now, pressed);
    }
  }

  lemma ClickCounted(t: Timing, s: Bsl, now: nat, pressed: bool)
    requires s.m.entered && !s.sw.mode && s.m.phase == Pressed && s.m.falling
    ensures var o := Loop(t, s, now, pressed);
      var n := (s.m.numClicks + 1) % UInt8Limit;
      o.s.m.phase == FallingDebounce && o.s.m.numClicks == n
      && o.effects == Emits(Clicks.Report(s.cfg.id, Since(now, s.m.pressStart), n, false))
  {
    var n := (s.m.numClicks + 1) % UInt8Limit;
    assert Loop(t, s, now, pressed).effects == Click(s, now, n, false) + [];
  }

  lemma ClickFinal(t: Timing, s: Bsl, now: nat, pressed: bool)
    requires s.m.entered && !s.sw.mode && s.m.phase == Released && !s.m.rising
    requires Since(now, s.m.startTime) >= t.pressTimeout
    ensures var o := Loop(t, s, now, pressed);
      o.s.m.phase == Idle && o.s.m.numClicks == 0
      && o.effects == Emits(Clicks.Report(s.cfg.id, Since(now, s.m.pressStart), s.m.numClicks, true))
  {
    assert Loop(t, s, now, pressed).effects == Click(s, now, s.m.numClicks, true) + [];
  }

  /** A press that fails debounce returns to the switch state in switch mode, else to Idle, reporting nothing. */
  lemma FailedDebounce(t: Timing, s: Bsl, now: nat)
    requires s.m.entered && s.m.phase == RisingDebounce && Since(now, s.m.startTime) >= t.debounce
    ensures var o := Loop(t, s, now, false);
      o.s.m.phase == (if s.sw.mode then (if s.sw.on then SwOn else SwOff) else Idle)
      && o.s.sw.on == s.sw.on
      && forall f | f in o.effects :: f.Led?
  {
  }

  /** Pausing and then resuming switch mode restores the mode and the switch state. */
  lemma PauseResumeRoundTrip(s: Bsl, now: nat, later: nat, pressed: bool, pressedLater: bool)
    ensures var p := Pause(s, now, pressed).s;
      p.m.phase == Idle && !p.sw.mode && !p.sw.on
    ensures var r := Resume(Pause(s, now, pressed).s, later, pressedLater).s;
      r.sw.mode == s.sw.mode && r.sw.on == s.sw.on
      && r.m.phase == (if s.sw.mode then (if s.sw.on then SwOn else SwOff) else Idle)
  {
  }

  /**
    `SetSwitchMode(on)` sets the mode and restarts: the switch is off and
    the machine idle, except that a kill switch put in switch mode at once
    follows the pin.
   */
  lemma SetSwitchModeRestarts(s: Bsl, on: bool, now: nat, pressed: bool)
    ensures var o := SetSwitchMode(s, on, now, pressed).s;
      o.sw.mode == on
      && (!(on && s.cfg.kill) ==> o.m.phase == Idle && !o.sw.on)
      && (on && s.cfg.kill ==> o.m.phase == (if pressed then SwOn else SwOff) && o.sw.on == pressed)
  {
  }

  /** Without an LED no LED command leaves the button. */
  lemma NoLedNoCommands(t: Timing, s: Bsl, now: nat, pressed: bool)
    requires !s.cfg.hasLed
    ensures forall f | f in Loop(t, s, now, pressed).effects :: f.Emit?
    ensures Restart(s, now, pressed).effects == []
  {
    if !s.m.entered {
      var e := Enter(s.(m := s.m.(entered := true)), s.m.phase, now, pressed);
      assert e.effects == [];
      StateLoopNoLed(t, e.s, now, pressed);
    } else {
      StateLoopNoLed(t, s, now, pressed);
    }
  }

  lemma StateLoopNoLed(t: Timing, s: Bsl, now: nat, pressed: bool)
    requires !s.cfg.hasLed
    ensures forall f | f in StateLoop(t, s, now, pressed).effects :: f.Emit?
  {
    var o := StateLoop(t, s, now, pressed);
    if s.m.phase == Pressed && s.m.falling && !s.sw.mode {
      var n := (s.m.numClicks + 1) % UInt8Limit;
      assert o.effects == Click(s, now, n, false) + [];
    } else if s.m.phase == Released && !s.m.rising && Since(now, s.m.startTime) >= t.pressTimeout {
      assert o.effects == Click(s, now, s.m.numClicks, true) + [];
    }
  }

  // `BtnSwLEDInput`: the array of buttons and per-id dispatch.

  /** `IdFromPin`: the id of the first button on `pin`, or 0. */
  function IdFromPin(bls: seq<Bsl>, pinOf: nat -> nat, pin: nat): (id: nat)
    ensures id != 0 ==> exists i | 0 <= i < |bls| :: pinOf(bls[i].cfg.id) == pin && bls[i].cfg.id == id
    ensures (forall i | 0 <= i < |bls| :: pinOf(bls[i].cfg.id) != pin) ==> id == 0
    ensures |bls| > 0 && pinOf(bls[0].cfg.id) == pin ==> id == bls[0].cfg.id
    ensures forall j | 0 <= j < |bls| && pinOf(bls[j].cfg.id) == pin &&
              (forall i | 0 <= i < j :: pinOf(bls[i].cfg.id) != pin) :: id == bls[j].cfg.id
  {
    if bls == [] then 0
    else if pinOf(bls[0].cfg.id) == pin then bls[0].cfg.id
    else
      var r := IdFromPin(bls[1..], pinOf, pin);
      assert forall j | 0 <= j < |bls| && pinOf(bls[j].cfg.id) == pin &&
               (forall i | 0 <= i < j :: pinOf(bls[i].cfg.id) != pin) :: r == bls[j].cfg.id by {
        forall j | 0 <= j < |bls| && pinOf(bls[j].cfg.id) == pin &&
                   (forall i | 0 <= i < j :: pinOf(bls[i].cfg.id) != pin)
          ensures r == bls[j].cfg.id
        {
          assert j >= 1;
          assert bls[1..][j - 1] == bls[j];
          forall i | 0 <= i < j - 1 ensures pinOf(bls[1..][i].cfg.id) != pin {
            assert bls[1..][i] == bls[i + 1];
          }
        }
      }
      assert r != 0 ==> exists i | 1 <= i < |bls| :: pinOf(bls[i].cfg.id) == pin && bls[i].cfg.id == r by {
        if r != 0 {
          var j :| 0 <= j < |bls[1..]| && pinOf(bls[1..][j].cfg.id) == pin && bls[1..][j].cfg.id == r;
          assert bls[j + 1] == bls[1..][j];
        }
      }
      r
  }

  /** `GetBtnSwLED`: the position of the first button with that id. */
  function Find(bls: seq<Bsl>, id: nat): (k: Option<nat>)
    ensures k.Some? ==>
      k.value < |bls| && bls[k.value].cfg.id == id && forall i | 0 <= i < k.value :: bls[i].cfg.id != id
    ensures k.None? <==> forall i | 0 <= i < |bls| :: bls[i].cfg.id != id
  {
    if bls == [] then Option.None
    else if bls[0].cfg.id == id then Some(0)
    else
      var r := Find(bls[1..], id);
      if r.Some? then Some(r.value + 1) else Option.None
  }

  /**
    A per-id command: applied to the first button with that id only, and
    nothing at all for an unknown id.
   */
  function Dispatch(bls: seq<Bsl>, id: nat, f: Bsl -> Bsl): (r: seq<Bsl>)
    ensures |r| == |bls|
    ensures Find(bls, id).None? ==> r == bls
    ensures Find(bls, id).Some? ==> r == bls[Find(bls, id).value := f(bls[Find(bls, id).value])]
  {
    match Find(bls, id)
    case Some(k) => bls[k := f(bls[k])]
    case None => bls
  }

  /** A broadcast command: every button, in order. */
  function Broadcast(bls: seq<Bsl>, f: Bsl -> Bsl): (r: seq<Bsl>)
    ensures |r| == |bls| && forall i | 0 <= i < |bls| :: r[i] == f(bls[i])
  {
    seq(|bls|, i requires 0 <= i < |bls| => f(bls[i]))
  }

  /** `SetAutoLED(on)` of one button. */
  function SetAutoLed(s: Bsl, on: bool): Bsl {
    s.(sw := s.sw.(autoLed := on))
  }

  /** A per-id `SetAutoLED`, `SetSwitchMode` or other command leaves every other button alone. */
  lemma DispatchTouchesOnlyTarget(bls: seq<Bsl>, id: nat, f: Bsl -> Bsl, i: nat)
    requires i < |bls| && bls[i].cfg.id != id
    ensures Dispatch(bls, id, f)[i] == bls[i]
  {
  }

  /**
    `SwitchState(bls_id)` as written: a known id yields that button's switch
    state; for an unknown id the function ends without a `return`, which is
    undefined behaviour in C++ — `None` here.
   */
  function SwitchStateAsWritten(bls: seq<Bsl>, id: nat): (r: Option<bool>)
    ensures r.None? <==> forall i | 0 <= i < |bls| :: bls[i].cfg.id != id
    ensures r.Some? ==> r.value == bls[Find(bls, id).value].sw.on
  {
    match Find(bls, id)
    case Some(k) => Some(bls[k].sw.on)
    case None => Option.None
  }

  /** `SwitchState(bls_id)` with the missing return supplied: an unknown id reads as off. */
  function SwitchState(bls: seq<Bsl>, id: nat): (on: bool)
    ensures on ==> exists i | 0 <= i < |bls| :: bls[i].cfg.id == id && bls[i].sw.on
    ensures SwitchStateAsWritten(bls, id).Some? ==> on == SwitchStateAsWritten(bls, id).value
  {
    match Find(bls, id)
    case Some(k) => bls[k].sw.on
    case None => false
  }

  /** An array without the id exhibits the missing return: the value as written is undefined. */
  lemma UnknownIdHasNoSwitchState(s: Bsl)
    ensures SwitchStateAsWritten([s], s.cfg.id + 1).None?
    ensures !SwitchState([s], s.cfg.id + 1)
  {
  }
}
