/**
  `LEDs` of src/leds.cpp: the earlier, blocking LED driver. A blink is
  queued by `blink` and played by `update` as a sequence of level writes
  and delays, which here is the method's output.
 */
module LegacyLeds {

  datatype Activity = Idle | Active

  /** `Blink`: which LED, how often, how bright, and whether the last blink stays lit. */
  datatype Blink = Blink(ledNum: nat, numBlinks: nat, brightness: nat, hold: bool)

  datatype Leds = Leds(state: Activity, endRequested: bool, cmd: Blink, newCmd: bool)

  /** What `update` does to the hardware: set a level or wait. */
  datatype Step = SetLevel(led: nat, level: nat) | Delay(ms: nat)

  const NoBlink := Blink(0, 0, 0, false)

  function NewLeds(): (s: Leds)
    ensures s.state == Idle && !s.endRequested && !s.newCmd
  {
    Leds(Idle, false, NoBlink, false)
  }

  /** `begin`. */
  function Begin(s: Leds): (r: Leds)
    ensures r.state == Active && r.endRequested == s.endRequested && r.cmd == s.cmd && r.newCmd == s.newCmd
  {
    s.(state := Active)
  }

  /** `end`: ask `update` to go Idle after its current work. */
  function End(s: Leds): (r: Leds)
    ensures r.endRequested && r.state == s.state && r.cmd == s.cmd && r.newCmd == s.newCmd
  {
    s.(endRequested := true)
  }

  /** The blink count `blink` stores: clamped into 1..5. */
  function Clamp(n: nat): (c: nat)
    ensures 1 <= c <= 5
    ensures 1 <= n <= 5 ==> c == n
    ensures n < 1 ==> c == 1
    ensures n > 5 ==> c == 5
  {
    if n < 1 then 1 else if n > 5 then 5 else n
  }

  /** `blink`: queue a blink, replacing any not yet played. */
  function QueueBlink(s: Leds, led: nat, n: nat, hold: bool, brightness: nat): (r: Leds)
    ensures r.newCmd && r.cmd == Blink(led, Clamp(n), brightness, hold)
    ensures r.state == s.state && r.endRequested == s.endRequested
  {
    s.(cmd := Blink(led, Clamp(n), brightness, hold), newCmd := true)
  }

  /** The on and off times `update` uses for a blink count. */
  function Times(n: nat): (t: (nat, nat))
    ensures n == 1 ==> t == (400, 400)
    ensures n == 2 ==> t == (100, 300)
    ensures n == 3 ==> t == (67, 200)
    ensures n !in {1, 2, 3} ==> t == (50, 150)
  {
    if n == 1 then (400, 400) else if n == 2 then (100, 300) else if n == 3 then (67, 200) else (50, 150)
  }

  /** Blink number `i` of `b`: lit for the on time, then dark for the off time unless it is the last and held. */
  function Pulse(b: Blink, i: nat): seq<Step> {
    var (on, off) := Times(b.numBlinks);
    [SetLevel(b.ledNum, b.brightness), Delay(on)]
    + (if b.hold && i == b.numBlinks - 1 then [] else [SetLevel(b.ledNum, 0), Delay(off)])
  }

  /** Blinks `i` to the last of `b`. */
  function Pattern(b: Blink, i: nat): seq<Step>
    decreases b.numBlinks - i
  {
    if i >= b.numBlinks then [] else Pulse(b, i) + Pattern(b, i + 1)
  }

  /**
    `update`: does nothing unless Active; otherwise plays a queued blink,
    then honours a pending `end` by going Idle.
   */
  method Update(s: Leds) returns (r: Leds, steps: seq<Step>)
    ensures s.state != Active ==> r == s && steps == []
    ensures s.state == Active && s.newCmd ==> steps == Pattern(s.cmd, 0) && r.cmd == NoBlink && !r.newCmd
    ensures s.state == Active && !s.newCmd ==> steps == [] && r.cmd == s.cmd && !r.newCmd
    ensures s.state == Active ==> (r.state == Idle <==> s.endRequested) && !r.endRequested
  {
    if s.state != Active {
      return s, [];
    }
    r := s;
    steps := [];
    if r.newCmd {
      var b := r.cmd;
      r := r.(cmd := NoBlink, newCmd := false);
      var i := 0;
      while i < b.numBlinks
        invariant 0 <= i <= b.numBlinks
        invariant steps + Pattern(b, i) == Pattern(b, 0)
      {
        assert Pattern(b, i) == Pulse(b, i) + Pattern(b, i + 1);
        assert steps + Pattern(b, i) == (steps + Pulse(b, i)) + Pattern(b, i + 1);
        steps := steps + Pulse(b, i);
        i := i + 1;
      }
      assert Pattern(b, i) == [];
      assert steps == steps + Pattern(b, i);
    }
    if r.endRequested {
      r := r.(endRequested := false, state := Idle);
    }
  }

  /** How many steps light the LED. */
  function LitSteps(ss: seq<Step>): nat {
    if ss == [] then 0 else (if ss[0].SetLevel? && ss[0].level > 0 then 1 else 0) + LitSteps(ss[1..])
  }

  /** The total waiting time. */
  function TotalDelay(ss: seq<Step>): nat {
    if ss == [] then 0 else (if ss[0].Delay? then ss[0].ms else 0) + TotalDelay(ss[1..])
  }

  lemma CountsAppend(a: seq<Step>, c: seq<Step>)
    ensures LitSteps(a + c) == LitSteps(a) + LitSteps(c)
    ensures TotalDelay(a + c) == TotalDelay(a) + TotalDelay(c)
  {
    if a == [] {
      assert a + c == c;
    } else {
      assert (a + c)[0] == a[0] && (a + c)[1..] == a[1..] + c;
      CountsAppend(a[1..], c);
    }
  }

  /** The last blink index: the one a held blink keeps lit. */
  predicate Held(b: Blink, i: nat) {
    b.hold && i == b.numBlinks - 1
  }

  /**
    From blink `i` on, a bright blink lights the LED once per remaining
    blink and waits the on time for each and the off time for each that is
    not held.
   */
  lemma {:induction false} PatternCounts(b: Blink, i: nat)
    requires b.brightness > 0 && i <= b.numBlinks
    ensures LitSteps(Pattern(b, i)) == b.numBlinks - i
    ensures TotalDelay(Pattern(b, i)) ==
      (b.numBlinks - i) * Times(b.numBlinks).0
      + (b.numBlinks - i - (if b.hold && b.numBlinks > i then 1 else 0)) * Times(b.numBlinks).1
    decreases b.numBlinks - i
  {
    if i < b.numBlinks {
      PatternCounts(b, i + 1);
      CountsAppend(Pulse(b, i), Pattern(b, i + 1));
      var (on, off) := Times(b.numBlinks);
      var head := [SetLevel(b.ledNum, b.brightness), Delay(on)];
      var tail: seq<Step> := if Held(b, i) then [] else [SetLevel(b.ledNum, 0), Delay(off)];
      assert Pulse(b, i) == head + tail;
      CountsAppend(head, tail);
      assert head[1..][1..] == [];
      assert LitSteps(head) == 1 && TotalDelay(head) == on;
      if !Held(b, i) {
        assert tail[1..][1..] == [];
        assert LitSteps(tail) == 0 && TotalDelay(tail) == off;
      }
      var k := b.numBlinks - i;
      assert k * on == (k - 1) * on + on;
      var h := if b.hold && b.numBlinks > i then 1 else 0;
      var h' := if b.hold && b.numBlinks > i + 1 then 1 else 0;
      assert h == (if Held(b, i) then 1 else 0) + h';
      assert (k - h) * off == (k - 1 - h') * off + (if Held(b, i) then 0 else off);
    } else {
      assert Pattern(b, i) == [];
    }
  }

  /** The level a step sequence leaves the LED at, or `dflt` if it sets none. */
  function FinalLevel(ss: seq<Step>, dflt: nat): nat
    decreases |ss|
  {
    if ss == [] then dflt
    else if ss[|ss| - 1].SetLevel? then ss[|ss| - 1].level
    else FinalLevel(ss[..|ss| - 1], dflt)
  }

  lemma FinalLevelAppend(a: seq<Step>, c: seq<Step>, dflt: nat)
    requires c != [] && exists k | 0 <= k < |c| :: c[k].SetLevel?
    ensures FinalLevel(a + c, dflt) == FinalLevel(c, dflt)
    decreases |c|
  {
    var ac := a + c;
    if !c[|c| - 1].SetLevel? {
      var k :| 0 <= k < |c| && c[k].SetLevel?;
      assert k < |c| - 1;
      assert c[..|c| - 1][k] == c[k];
      assert ac[..|ac| - 1] == a + c[..|c| - 1];
      FinalLevelAppend(a, c[..|c| - 1], dflt);
    }
  }

  /** A played blink leaves the LED lit exactly when it was a held one. */
  lemma HoldLeavesLedLit(b: Blink)
    requires b.numBlinks >= 1
    ensures FinalLevel(Pattern(b, 0), 0) == (if b.hold then b.brightness else 0)
  {
    var last := b.numBlinks - 1;
    var pre := LastPulseIsTail(b, 0);
    var p := Pulse(b, last);
    assert p[0].SetLevel?;
    if b.hold {
      assert p == [SetLevel(b.ledNum, b.brightness), Delay(Times(b.numBlinks).0)];
      assert p[..1] == [SetLevel(b.ledNum, b.brightness)];
    } else {
      assert p[3] == Delay(Times(b.numBlinks).1) && p[2] == SetLevel(b.ledNum, 0);
      assert p[..3][..2] == p[..2];
    }
    FinalLevelAppend(pre, p, 0);
  }

  /** The pattern from `i` ends with the last blink. */
  lemma {:induction false} LastPulseIsTail(b: Blink, i: nat) returns (pre: seq<Step>)
    requires i < b.numBlinks
    ensures Pattern(b, i) == pre + Pulse(b, b.numBlinks - 1)
    decreases b.numBlinks - i
  {
    if i == b.numBlinks - 1 {
      assert Pattern(b, i + 1) == [];
      pre := [];
      assert Pattern(b, i) == pre + Pulse(b, i) + [];
    } else {
      var rest := LastPulseIsTail(b, i + 1);
      pre := Pulse(b, i) + rest;
      assert Pattern(b, i) == (Pulse(b, i) + rest) + Pulse(b, b.numBlinks - 1);
    }
  }

  /** A queued blink is always played with a count in 1..5, even one asked for with zero or many blinks. */
  lemma QueuedBlinkPlaysClamped(s: Leds, led: nat, n: nat, hold: bool, brightness: nat)
    requires brightness > 0
    ensures var q := QueueBlink(Begin(s), led, n, hold, brightness);
      1 <= LitSteps(Pattern(q.cmd, 0)) <= 5 && LitSteps(Pattern(q.cmd, 0)) == Clamp(n)
  {
    var q := QueueBlink(Begin(s), led, n, hold, brightness);
    PatternCounts(q.cmd, 0);
  }
}
