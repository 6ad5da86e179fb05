/**
  `Button` of src/button_ui/buttons.cpp: a nine-state loop that counts
  debounced releases and reports clicks and holds through the shared
  classifier. The interrupt's edge flags are fields set by `Isr`; the pin
  level and `millis()` are inputs of each `Loop`. The three timing
  constants come from a header that is not part of this model, so they are
  a parameter.
 */
module ClickButton {
  import opened UserInput
  import opened Clock
  import Clicks

  datatype Timing = Timing(debounce: nat, pressTimeout: nat, triggerInterval: nat)

  datatype Button = Button(
    state: nat, smTime: nat, pressStart: nat, lastTrigger: nat,
    numClicks: nat, rising: bool, falling: bool)

  /** The state after one `InternalLoop` call, with the events it reported. */
  datatype Out = Out(b: Button, events: seq<Event>)

  /** A button as constructed: idle, nothing counted. */
  function NewButton(): Button {
    Button(0, 0, 0, 0, 0, false, false)
  }

  /** The `CHANGE` interrupt: a high pin raises the rising flag, a low pin the falling flag. */
  function Isr(b: Button, pressed: bool): (r: Button)
    ensures pressed ==> r == b.(rising := true)
    ensures !pressed ==> r == b.(falling := true)
  {
    if pressed then b.(rising := true) else b.(falling := true)
  }

  /** `InitPress`: the wake-up press is already held, so the loop starts in state 2. */
  function InitPress(b: Button, now: nat): (r: Button)
    ensures r.state == 2 && r.smTime == now && r.pressStart == now && r.lastTrigger == now
    ensures r.numClicks == b.numClicks && r.rising == b.rising && r.falling == b.falling
  {
    b.(state := 2, smTime := now, pressStart := now, lastTrigger := now)
  }

  /** `InternalRestart`: back to idle with no flags and no clicks. */
  function Restart(b: Button): (r: Button)
    ensures r.state == 0 && r.numClicks == 0 && !r.rising && !r.falling
  {
    b.(rising := false, falling := false, state := 0, numClicks := 0)
  }

  /** The events a `TriggerClick` call reports for this button. */
  function Click(id: nat, b: Button, now: nat, n: nat, final: bool): seq<Event> {
    Clicks.Report(id, Since(now, b.pressStart), n, final)
  }

  /** A release is seen while pressed when the falling flag is up or the pin reads low. */
  predicate Released(b: Button, pressed: bool) {
    b.falling || !pressed
  }

  /** State 2: the first press is held; a release counts, and a held press re-reports. */
  function Held(id: nat, t: Timing, b: Button, now: nat, pressed: bool): (o: Out)
    requires b.state == 2
    ensures o.b.state == (if Released(b, pressed) then 3 else 2)
    ensures o.b.numClicks == (if Released(b, pressed) then b.numClicks + 1 else b.numClicks)
    ensures |o.events| <= 2 && forall e | e in o.events :: e.btnId == id && !e.final
    ensures o.events != [] ==> Released(b, pressed) || Since(now, b.lastTrigger) >= t.triggerInterval
  {
    var first := if Released(b, pressed)
      then Out(b.(falling := false, numClicks := b.numClicks + 1, smTime := now, state := 3),
               Click(id, b, now, b.numClicks + 1, false))
      else Out(b, []);
    if Since(now, b.lastTrigger) >= t.triggerInterval then
      Out(first.b.(lastTrigger := now), first.events + Click(id, b, now, first.b.numClicks, false))
    else first
  }

  /** One `InternalLoop` call at time `now` with the pin reading `pressed`. */
  function Loop(id: nat, t: Timing, b: Button, now: nat, pressed: bool): (o: Out)
    ensures o.b.numClicks == (if b.state == 8 then 0 else if b.state in {2, 6} && Released(b, pressed) then b.numClicks + 1 else b.numClicks)
    ensures b.state <= 8 ==> o.b.state <= 8
    ensures forall e | e in o.events :: e.btnId == id
    ensures (exists e | e in o.events :: e.final) ==> b.state == 4 && o.b.state == 8
    ensures b.state !in {2, 4, 6} ==> o.events == []
  {
    match b.state
    case 0 =>
      if b.rising then
        Out(b.(rising := false, falling := false, smTime := now, pressStart := now, lastTrigger := now, state := 1), [])
      else Out(b, [])
    case 1 =>
      if Since(now, b.pressStart) >= t.debounce then
        Out(b.(state := if pressed then 2 else 8), [])
      else Out(b, [])
    case 2 => Held(id, t, b, now, pressed)
    case 3 =>
      if Since(now, b.smTime) >= t.debounce then Out(b.(state := 4), []) else Out(b, [])
    case 4 =>
      if b.rising then Out(b.(rising := false, smTime := now, state := 5), [])
      else if Since(now, b.smTime) >= t.pressTimeout then
        Out(b.(state := 8), Click(id, b, now, b.numClicks, true))
      else Out(b, [])
    case 5 =>
      if Since(now, b.smTime) >= t.debounce then
        Out(b.(state := if pressed then 6 else 4), [])
      else Out(b, [])
    case 6 =>
      if Released(b, pressed) then
        Out(b.(falling := false, numClicks := b.numClicks + 1, smTime := now, state := 7),
            Click(id, b, now, b.numClicks + 1, false))
      else Out(b, [])
    case 7 =>
      if Since(now, b.smTime) >= t.debounce then Out(b.(state := 4), []) else Out(b, [])
    case 8 => Out(b.(numClicks := 0, state := 0), [])
    case _ => Out(b, [])
  }

  /**
    A rising edge whose pin reads low after the debounce time reports
    nothing and is back in idle, with no clicks, two loops later.
   */
  lemma FailedDebounceIsSilent(id: nat, t: Timing, b: Button, now: nat, later: nat)
    requires b.state == 1 && Since(now, b.pressStart) >= t.debounce
    ensures Loop(id, t, b, now, false).events == []
    ensures Loop(id, t, b, now, false).b.state == 8
    ensures var o := Loop(id, t, Loop(id, t, b, now, false).b, later, false);
      o.events == [] && o.b.state == 0 && o.b.numClicks == 0
  {
  }

  /**
    While the first press is held, a repeated report happens only once
    `kTriggerInterval` has passed since the previous one, and it restarts
    that interval.
   */
  lemma RepeatsRespectInterval(id: nat, t: Timing, b: Button, now: nat)
    requires b.state == 2 && !b.falling
    ensures var o := Loop(id, t, b, now, true);
      o.events != [] ==> Since(now, b.lastTrigger) >= t.triggerInterval && o.b.lastTrigger == now
    ensures var o := Loop(id, t, b, now, true);
      Since(now, b.lastTrigger) < t.triggerInterval ==> o == Out(b, [])
  {
  }

  /** The final report: state 4 times out with no new press and reports the count with `final` set. */
  lemma FinalReport(id: nat, t: Timing, b: Button, now: nat)
    requires b.state == 4 && !b.rising && Since(now, b.smTime) >= t.pressTimeout
    ensures var o := Loop(id, t, b, now, false);
      o.b.state == 8 && o.events == Clicks.Report(id, Since(now, b.pressStart), b.numClicks, true)
    ensures 1 <= b.numClicks <= 4 ==> |Loop(id, t, b, now, false).events| == 1
    ensures b.numClicks >= 5 ==> Loop(id, t, b, now, false).events == []
  {
  }

  /** What the interrupt and the loop see between two loop calls. */
  datatype Input = Edge(level: bool) | Tick(now: nat, pressed: bool)

  /** Runs the interrupts and loop calls in order, collecting every event. */
  function Run(id: nat, t: Timing, b: Button, ins: seq<Input>): (r: Out)
    ensures b.state <= 8 ==> r.b.state <= 8
    ensures forall e | e in r.events :: e.btnId == id
    ensures (forall k | 0 <= k < |ins| :: ins[k].Edge?) ==> r.events == []
    decreases |ins|
  {
    if ins == [] then Out(b, [])
    else
      var o := match ins[0]
        case Edge(level) => Out(Isr(b, level), [])
        case Tick(now, pressed) => Loop(id, t, b, now, pressed);
      var rest := Run(id, t, o.b, ins[1..]);
      Out(rest.b, o.events + rest.events)
  }

  /** The number of events with `final` set. */
  function Finals(es: seq<Event>): nat {
    if es == [] then 0 else (if es[0].final then 1 else 0) + Finals(es[1..])
  }

  lemma FinalsAppend(a: seq<Event>, c: seq<Event>)
    ensures Finals(a + c) == Finals(a) + Finals(c)
  {
    if a != [] {
      assert (a + c)[0] == a[0] && (a + c)[1..] == a[1..] + c;
      FinalsAppend(a[1..], c);
    } else {
      assert a + c == c;
    }
  }

  /** The number of press sequences the inputs start: loop calls that leave idle. */
  function Starts(t: Timing, b: Button, ins: seq<Input>): nat
    decreases |ins|
  {
    if ins == [] then 0
    else
      var o := match ins[0]
        case Edge(level) => Out(Isr(b, level), [])
        case Tick(now, pressed) => Loop(0, t, b, now, pressed);
      (if ins[0].Tick? && b.state == 0 && o.b.state == 1 then 1 else 0) + Starts(t, o.b, ins[1..])
  }

  /** 1 while a press sequence is under way (states 1 to 7), 0 otherwise. */
  function Open(b: Button): nat {
    if 1 <= b.state <= 7 then 1 else 0
  }

  /** The button id only stamps the events; the next state does not depend on it. */
  lemma LoopIgnoresId(id: nat, t: Timing, b: Button, now: nat, pressed: bool)
    ensures Loop(id, t, b, now, pressed).b == Loop(0, t, b, now, pressed).b
  {
  }

  /** One loop call reports a final event only by closing an open sequence. */
  lemma StepFinals(id: nat, t: Timing, b: Button, now: nat, pressed: bool)
    requires b.state <= 8
    ensures var o := Loop(id, t, b, now, pressed);
      Finals(o.events) + Open(o.b) <= Open(b) + (if b.state == 0 && o.b.state == 1 then 1 else 0)
  {
    var o := Loop(id, t, b, now, pressed);
    if b.state == 4 && !b.rising && Since(now, b.smTime) >= t.pressTimeout {
      assert |o.events| <= 1;
    } else if b.state == 2 {
      var e1 := if Released(b, pressed) then Click(id, b, now, b.numClicks + 1, false) else [];
      var n1 := if Released(b, pressed) then b.numClicks + 1 else b.numClicks;
      assert Finals(e1) == 0;
      assert Finals(Click(id, b, now, n1, false)) == 0;
      FinalsAppend(e1, Click(id, b, now, n1, false));
    } else if b.state == 6 {
      assert Finals(o.events) == 0;
    } else {
      assert o.events == [];
    }
  }

  /**
    Final events never outnumber the press sequences: over any run, the
    finals reported plus a still-open sequence are at most the sequences
    open at the start plus those the run starts.
   */
  lemma {:induction false} FinalsPerSequence(id: nat, t: Timing, b: Button, ins: seq<Input>)
    requires b.state <= 8
    ensures Finals(Run(id, t, b, ins).events) + Open(Run(id, t, b, ins).b) <= Open(b) + Starts(t, b, ins)
    decreases |ins|
  {
    if ins != [] {
      var o := match ins[0]
        case Edge(level) => Out(Isr(b, level), [])
        case Tick(now, pressed) => Loop(id, t, b, now, pressed);
      match ins[0] {
        case Edge(level) =>
        case Tick(now, pressed) =>
          StepFinals(id, t, b, now, pressed);
          LoopIgnoresId(id, t, b, now, pressed);
      }
      FinalsPerSequence(id, t, o.b, ins[1..]);
      FinalsAppend(o.events, Run(id, t, o.b, ins[1..]).events);
    }
  }
}
