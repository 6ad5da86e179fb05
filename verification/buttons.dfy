/**
  `Button` of src/buttons.cpp: the press ladder that turns pin edges and
  the time since a press started into one action per press sequence. The
  interrupt's edge flags, the pin level and `millis()` are inputs of each
  `update`.
 */
module Buttons {
  import opened Clock

  const Long1Time: nat := 2000
  const Long2Time: nat := 10000
  const Long3Time: nat := 20000
  const Long4Time: nat := 30000
  const DebounceTimeout: nat := 50
  const PressTimeout: nat := 500

  datatype ButtonAction = Idle | Single | Double | Triple | Quad | Long1 | Long2 | Long3 | Long4

  datatype Button = Button(
    begun: bool, state: nat,
    pressStart: nat, releaseStart: nat,
    action: ButtonAction, pressFinished: bool,
    rising: bool, falling: bool)

  /** A button as declared: not begun, idle, and deaf to `update` until begun. */
  function NewButton(): (b: Button)
    ensures !b.begun && b.action == Idle && !b.pressFinished
    ensures forall now, pin :: Update(b, now, pin) == b
  {
    Button(false, 0, 0, 0, Idle, false, false, false)
  }

  /**
    The hold ladder applied in state 2: the band the press duration falls in
    decides the long action; below `LONG_1_TIME` the action is kept.
   */
  function Ladder(since: nat, action: ButtonAction): (a: ButtonAction)
    ensures since < Long1Time ==> a == action
    ensures Long1Time <= since < Long2Time ==> a == Long1
    ensures Long2Time <= since < Long3Time ==> a == Long2
    ensures Long3Time <= since < Long4Time ==> a == Long3
    ensures Long4Time <= since ==> a == Long4
  {
    if Long1Time <= since < Long2Time then Long1
    else if Long2Time <= since < Long3Time then Long2
    else if Long3Time <= since < Long4Time then Long3
    else if since >= Long4Time then Long4
    else action
  }

  function LongRank(a: ButtonAction): nat {
    match a
    case Long1 => 1
    case Long2 => 2
    case Long3 => 3
    case Long4 => 4
    case _ => 0
  }

  /** Holding longer never moves down the ladder. */
  lemma LadderMonotone(s1: nat, s2: nat, action: ButtonAction)
    requires Long1Time <= s1 <= s2
    ensures 1 <= LongRank(Ladder(s1, action)) <= LongRank(Ladder(s2, action))
  {
  }

  /** The next action of a multi-press: SINGLE → DOUBLE → TRIPLE → QUAD, and QUAD stays. */
  function Escalate(a: ButtonAction): ButtonAction {
    match a
    case Single => Double
    case Double => Triple
    case Triple => Quad
    case _ => a
  }

  /** `get_action_multi_count`. */
  function MultiCount(a: ButtonAction): (c: nat)
    ensures c <= 4
    ensures c > 0 <==> a in {Single, Double, Triple, Quad}
  {
    match a
    case Single => 1
    case Double => 2
    case Triple => 3
    case Quad => 4
    case _ => 0
  }

  /** Each escalation adds one press to the count, up to four. */
  lemma EscalateCounts(a: ButtonAction)
    requires a in {Single, Double, Triple, Quad}
    ensures MultiCount(Escalate(a)) == if a == Quad then 4 else MultiCount(a) + 1
  {
  }

  /** `_reset`. */
  function Reset(b: Button): (r: Button)
    ensures r.state == 0 && r.action == Idle && !r.pressFinished && !r.rising && !r.falling
    ensures r.begun == b.begun && r.pressStart == b.pressStart && r.releaseStart == b.releaseStart
  {
    b.(rising := false, falling := false, pressFinished := false, state := 0, action := Idle)
  }

  /**
    `begin`: a no-op when already begun; the press times are checked to be
    ordered first (they are constants, so the check always passes).
   */
  function Begin(b: Button): (r: Button)
    ensures b.begun ==> r == b
    ensures !b.begun ==> r == b.(begun := true)
  {
    if b.begun then b
    else if !(Long1Time < Long3Time && Long2Time < Long3Time && Long3Time < Long4Time) then b
    else b.(begun := true)
  }

  /** `end`: reset and no longer begun; a no-op when not begun. */
  function End(b: Button): (r: Button)
    ensures !b.begun ==> r == b
    ensures b.begun ==> r == Reset(b).(begun := false)
  {
    if !b.begun then b else Reset(b).(begun := false)
  }

  /** `init_press`: a press already known to be down, e.g. the one that woke the device. */
  function InitPress(b: Button, now: nat): (r: Button)
    ensures r.action == Single && r.state == 2 && r.pressStart == now
  {
    b.(action := Single, state := 2, pressStart := now)
  }

  /** The interrupt: a rising or falling edge flag by the pin level read. */
  function Isr(b: Button, pin: bool): (r: Button)
    ensures r.rising == (b.rising || pin) && r.falling == (b.falling || !pin)
    ensures r == b.(rising := r.rising, falling := r.falling)
  {
    if pin then b.(rising := true) else b.(falling := true)
  }

  /** `update` at time `now` with the (polarity-corrected) pin level `pin`. */
  function Update(b: Button, now: nat, pin: bool): (r: Button)
    ensures !b.begun || b.pressFinished ==> r == b
    ensures r.begun == b.begun
  {
    if !b.begun || b.pressFinished then b
    else
      var sincePress := Since(now, b.pressStart);
      var sinceRelease := Since(now, b.releaseStart);
      match b.state
      case 0 =>
        if b.rising then b.(rising := false, pressStart := now, state := 1) else b
      case 1 =>
        if sincePress >= DebounceTimeout then
          if pin then b.(action := Single, state := 2) else b.(state := 0)
        else b
      case 2 =>
        var b1 :=
          if b.falling || !pin then
            var b0 := b.(falling := false);
            match b0.action
            case Single => b0.(releaseStart := now, state := 3)
            case Long1 => b0.(pressFinished := true, releaseStart := now, state := 8)
            case Long2 => b0.(pressFinished := true, releaseStart := now, state := 8)
            case Long3 => b0.(pressFinished := true, releaseStart := now, state := 8)
            case Long4 => b0.(pressFinished := true, releaseStart := now, state := 8)
            case _ => b0
          else b;
        b1.(action := Ladder(sincePress, b1.action))
      case 3 =>
        if sinceRelease >= DebounceTimeout then b.(state := 4) else b
      case 4 =>
        if b.rising then b.(rising := false, pressStart := now, state := 5)
        else if sincePress >= PressTimeout then b.(pressFinished := true, state := 0)
        else b
      case 5 =>
        if sincePress >= DebounceTimeout then
          if pin then b.(action := Escalate(b.action), state := 6)
          else b.(pressFinished := true, releaseStart := now, state := 8)
        else b
      case 6 =>
        if !pin then b.(releaseStart := now, state := 7) else b
      case 7 =>
        if sinceRelease >= DebounceTimeout then b.(state := 4) else b
      case 8 =>
        if sinceRelease >= DebounceTimeout then b.(state := 0) else b
      case _ => b
  }

  /**
    What every reachable button satisfies: the state is one of 0..8, and an
    idle action means no press has been recognised yet (state 0 or 1).
   */
  predicate Inv(b: Button) {
    b.state <= 8 && (b.action == Idle ==> b.state <= 1)
  }

  lemma NewButtonInv()
    ensures Inv(NewButton())
  {
  }

  /** Every operation keeps the invariant. */
  lemma OperationsKeepInv(b: Button, now: nat, pin: bool)
    requires Inv(b)
    ensures Inv(Update(b, now, pin))
    ensures Inv(Begin(b)) && Inv(End(b)) && Inv(InitPress(b, now)) && Inv(Isr(b, pin))
  {
  }

  /** While the button is held in state 2, the action follows the hold ladder. */
  lemma HeldFollowsLadder(b: Button, now: nat)
    requires b.begun && !b.pressFinished && b.state == 2 && !b.falling
    ensures Update(b, now, true).action == Ladder(Since(now, b.pressStart), b.action)
    ensures Update(b, now, true).state == 2
  {
  }

  /**
    A release recognised during a long action finishes the press at once;
    one recognised during SINGLE waits for more presses in state 3.
   */
  lemma ReleaseOutcome(b: Button, now: nat, pin: bool)
    requires b.begun && !b.pressFinished && b.state == 2 && (b.falling || !pin)
    ensures b.action in {Long1, Long2, Long3, Long4} ==>
      Update(b, now, pin).pressFinished && Update(b, now, pin).state == 8
    ensures b.action == Single ==>
      !Update(b, now, pin).pressFinished && Update(b, now, pin).state == 3
  {
  }

  /** A debounced further press moves the action one step up the multi-press count. */
  lemma FurtherPressEscalates(b: Button, now: nat)
    requires b.begun && !b.pressFinished && b.state == 5 && Since(now, b.pressStart) >= DebounceTimeout
    ensures Update(b, now, true).action == Escalate(b.action)
    ensures Update(b, now, true).state == 6
  {
  }

  /** Waiting in state 4 ends the sequence once `PRESS_TIMEOUT` has passed since the last press began. */
  lemma MultiPressTimeout(b: Button, now: nat)
    requires b.begun && !b.pressFinished && b.state == 4 && !b.rising
    ensures Update(b, now, false).pressFinished <==> Since(now, b.pressStart) >= PressTimeout
    ensures Update(b, now, false).action == b.action
  {
  }
}
