/**
  `TouchInput` of src/pro/touch.cpp: a 400x300 touch panel cut into a
  three-by-three grid of buttons, a click pin handled by the same
  nine-state counter as the button UI, and the touch controller's events
  turned into taps and swipes. The controller, the pin and `millis()` are
  inputs. Events of this generation carry no `final` flag (src/user_input.h
  declares `Event` with type, point and button only); the model sets it to
  false.
 */
module Touch {
  import opened Wrappers
  import opened UserInput
  import opened Clock
  import Clicks
  import ClickButton

  const DebounceTimeout: nat := 50
  const PressTimeout: nat := 500
  const TriggerInterval: nat := 250
  const SwipeTimeout: nat := 500
  const SwipeDistance: nat := 50
  const UInt8Limit: nat := 256

  datatype Point = Point(x: nat, y: nat)

  /** `Touch2BtnNum`: the grid cell, numbered row by row from 1 at the top left. */
  function Touch2BtnNum(p: Point): (n: nat)
    ensures 1 <= n <= 9
    ensures n == 3 * Row(p) + Column(p) + 1
  {
    if p.x < 134 then
      if p.y < 100 then 1 else if p.y < 200 then 4 else 7
    else if p.x < 266 then
      if p.y < 100 then 2 else if p.y < 200 then 5 else 8
    else
      if p.y < 100 then 3 else if p.y < 200 then 6 else 9
  }

  function Column(p: Point): nat {
    if p.x < 134 then 0 else if p.x < 266 then 1 else 2
  }

  function Row(p: Point): nat {
    if p.y < 100 then 0 else if p.y < 200 then 1 else 2
  }

  /** Every cell number belongs to exactly the points of its column and row. */
  lemma CellsPartitionPanel(p: Point, q: Point)
    ensures Touch2BtnNum(p) == Touch2BtnNum(q) <==> Column(p) == Column(q) && Row(p) == Row(q)
  {
  }

  /** The long variant of a one-click press: the touch panel reports `ClickLong*` where the buttons report `HoldLong*`. */
  function ClickLongEvent(band: nat): EventType
    requires 1 <= band <= 4
  {
    [ClickLong2s, ClickLong5s, ClickLong10s, ClickLong20s][band - 1]
  }

  /** `_trigger_click`'s table. */
  function TouchClick(duration: nat, n: nat): (e: Option<EventType>)
    ensures n == 1 && Clicks.Long2sTime <= duration ==> e == Some(ClickLongEvent(Clicks.Band(duration)))
  {
    if n == 1 && Clicks.Band(duration) > 0 then Some(ClickLongEvent(Clicks.Band(duration)))
    else if n == 0 then
      if Clicks.Band(duration) > 0 then Some(Clicks.HoldEvent(Clicks.Band(duration))) else Option.None
    else if n == 1 then Some(ClickSingle)
    else if n <= 4 then Some(Clicks.MultiEvent(n))
    else Option.None
  }

  /**
    The touch table is the button table except for a single click held two
    seconds or more, which is a `ClickLong*` here and a `HoldLong*` of the
    same band there.
   */
  lemma TouchClickAgainstButtons(duration: nat, n: nat)
    ensures !(n == 1 && Clicks.Long2sTime <= duration) ==> TouchClick(duration, n) == Clicks.ButtonClick(duration, n)
    ensures n == 1 && Clicks.Long2sTime <= duration ==>
      Clicks.ButtonClick(duration, n) == Some(Clicks.HoldEvent(Clicks.Band(duration)))
      && TouchClick(duration, n) == Some(ClickLongEvent(Clicks.Band(duration)))
  {
  }

  /** The click-pin counter: the nine-state loop with the flag `click_started_`. */
  datatype Clicker = Clicker(
    state: nat, time: nat, pressStart: nat, lastTrigger: nat, numClicks: nat,
    rising: bool, falling: bool, clickStarted: bool)

  /** The touch-controller side: last and start points, start time, and whether a touch is under way. */
  datatype Panel = Panel(lastPoint: Point, startPoint: Point, startTime: nat, touchStarted: bool)

  datatype ClickOut = ClickOut(c: Clicker, events: seq<Event>)

  /** The event for a click report, placed at the last touch point. */
  function ClickReport(last: Point, duration: nat, n: nat): (r: seq<Event>)
    ensures |r| <= 1 && (|r| == 1 <==> TouchClick(duration, n).Some?)
    ensures forall e | e in r ::
      e.x == last.x && e.y == last.y && e.btnId == Touch2BtnNum(last) && Some(e.kind) == TouchClick(duration, n) && !e.final
  {
    var e := TouchClick(duration, n);
    if e.Some? then [Event(e.value, last.x, last.y, Touch2BtnNum(last), false)] else []
  }

  /**
    `_click_isr`: both flags follow the raw pin level, so an edge to high
    also drops a pending falling flag.
   */
  function ClickIsr(c: Clicker, level: bool): (r: Clicker)
    ensures r.rising == level && r.falling == !level
  {
    c.(rising := level, falling := !level)
  }

  /** `_btn_update` at time `now`, with `pressed` the pin read through `active_high_`. */
  function BtnUpdate(c: Clicker, last: Point, now: nat, pressed: bool): (o: ClickOut)
    ensures o.c.numClicks == (if c.state == 8 then 0
                              else if c.state in {2, 6} && (c.falling || !pressed) then (c.numClicks + 1) % UInt8Limit
                              else c.numClicks)
    ensures c.state == 0 && c.rising ==> o.c.clickStarted && o.c.state == 1
    ensures c.state == 8 ==> !o.c.clickStarted && o.c.state == 0
    ensures c.state != 0 && c.state != 8 ==> o.c.clickStarted == c.clickStarted
  {
    match c.state
    case 0 =>
      if c.rising then
        ClickOut(c.(rising := false, time := now, pressStart := now, lastTrigger := now, clickStarted := true, state := 1), [])
      else ClickOut(c, [])
    case 1 =>
      if Since(now, c.pressStart) >= DebounceTimeout then ClickOut(c.(state := if pressed then 2 else 8), [])
      else ClickOut(c, [])
    case 2 =>
      var first := if c.falling || !pressed then
          var n := (c.numClicks + 1) % UInt8Limit;
          ClickOut(c.(falling := false, numClicks := n, time := now, state := 3), ClickReport(last, Since(now, c.pressStart), n))
        else ClickOut(c, []);
      if Since(now, c.lastTrigger) >= TriggerInterval then
        ClickOut(first.c.(lastTrigger := now), first.events + ClickReport(last, Since(now, c.pressStart), first.c.numClicks))
      else first
    case 3 =>
      if Since(now, c.time) >= DebounceTimeout then ClickOut(c.(state := 4), []) else ClickOut(c, [])
    case 4 =>
      if c.rising then ClickOut(c.(rising := false, time := now, state := 5), [])
      else if Since(now, c.time) >= PressTimeout then
        ClickOut(c.(state := 8), ClickReport(last, Since(now, c.pressStart), c.numClicks))
      else ClickOut(c, [])
    case 5 =>
      if Since(now, c.time) >= DebounceTimeout then ClickOut(c.(state := if pressed then 6 else 4), [])
      else ClickOut(c, [])
    case 6 =>
      if c.falling || !pressed then
        var n := (c.numClicks + 1) % UInt8Limit;
        ClickOut(c.(falling := false, numClicks := n, time := now, state := 7), ClickReport(last, Since(now, c.pressStart), n))
      else ClickOut(c, [])
    case 7 =>
      if Since(now, c.time) >= DebounceTimeout then ClickOut(c.(state := 4), []) else ClickOut(c, [])
    case 8 => ClickOut(c.(clickStarted := false, numClicks := 0, state := 0), [])
    case _ => ClickOut(c, [])
  }

  /** The click counter seen as a button-UI counter (it has no `click_started_`). */
  function AsButton(c: Clicker): ClickButton.Button {
    ClickButton.Button(c.state, c.time, c.pressStart, c.lastTrigger, c.numClicks, c.rising, c.falling)
  }

  /**
    Apart from the `uint8_t` wrap of the counter and the falling flag, which
    idle clears in src/button_ui/buttons.cpp but not here, the touch
    panel's click counter steps exactly like the button UI's with the same
    timing.
   */
  lemma StepsLikeButtonUi(c: Clicker, last: Point, now: nat, pressed: bool, id: nat)
    requires c.numClicks + 1 < UInt8Limit
    requires c.state == 0 && c.rising ==> !c.falling
    ensures AsButton(BtnUpdate(c, last, now, pressed).c)
      == ClickButton.Loop(id, ClickButton.Timing(DebounceTimeout, PressTimeout, TriggerInterval), AsButton(c), now, pressed).b
  {
    if c.state == 0 {
    } else if c.state < 4 {
    } else if c.state < 8 {
    }
  }

  /** After the reset state the counter is idle, with no clicks and no click under way. */
  lemma ResetClears(c: Clicker, last: Point, now: nat, pressed: bool)
    requires c.state == 8
    ensures BtnUpdate(c, last, now, pressed) == ClickOut(c.(clickStarted := false, numClicks := 0, state := 0), [])
  {
  }

  /** What the touch controller reports. */
  datatype TEvent = TouchStartEv | TouchMove | TouchEndEv | TapEv | DragStart | DragMove | DragEnd

  datatype PanelOut = PanelOut(p: Panel, events: seq<Event>)

  /** The swipe, if any, that a touch ending at `q` makes. */
  function Swipe(p: Panel, q: Point, now: nat): (e: Option<EventType>)
    ensures e.Some? ==> p.touchStarted && Since(now, p.startTime) <= SwipeTimeout
    ensures e.Some? ==> e.value in {SwipeLeft, SwipeRight, SwipeUp, SwipeDown}
    ensures e == Some(SwipeRight) <==>
      (p.touchStarted && Since(now, p.startTime) <= SwipeTimeout && q.x >= p.startPoint.x + SwipeDistance)
    ensures e == Some(SwipeLeft) <==>
      (p.touchStarted && Since(now, p.startTime) <= SwipeTimeout && q.x + SwipeDistance <= p.startPoint.x)
    ensures e.Some? && e.value in {SwipeUp, SwipeDown} ==>
      (Dist(q.x, p.startPoint.x) < SwipeDistance && Dist(q.y, p.startPoint.y) >= SwipeDistance)
  {
    if p.touchStarted && Since(now, p.startTime) <= SwipeTimeout then
      if Dist(q.x, p.startPoint.x) >= SwipeDistance then
        Some(if q.x > p.startPoint.x then SwipeRight else SwipeLeft)
      else if Dist(q.y, p.startPoint.y) >= SwipeDistance then
        Some(if q.y > p.startPoint.y then SwipeDown else SwipeUp)
      else Option.None
    else Option.None
  }

  /** `abs(a - b)` on coordinates promoted to `int`. */
  function Dist(a: nat, b: nat): nat {
    if a >= b then a - b else b - a
  }

  /** `touch_handler(point, e)` at time `now`, with `clickStarted` the click counter's flag. */
  function Handle(p: Panel, q: Point, e: TEvent, now: nat, clickStarted: bool): (o: PanelOut)
    ensures o.p.lastPoint == q
    ensures e == TouchEndEv ==> |o.events| >= 1 && o.events[|o.events| - 1].kind == TouchEnd && !o.p.touchStarted
    ensures e == TapEv ==> (o.events != [] <==> !clickStarted)
    ensures e !in {TouchStartEv, TouchEndEv, TapEv} ==> o.events == []
    ensures forall ev | ev in o.events :: ev.x == q.x && ev.y == q.y && ev.btnId == Touch2BtnNum(q)
  {
    var p1 := p.(lastPoint := q);
    var at := (k: EventType) => Event(k, q.x, q.y, Touch2BtnNum(q), false);
    match e
    case TouchStartEv =>
      PanelOut(p1.(touchStarted := true, startPoint := q, startTime := now), [at(TouchStart)])
    case TouchEndEv =>
      var s := Swipe(p1, q, now);
      PanelOut(p1.(touchStarted := false), (if s.Some? then [at(s.value)] else []) + [at(TouchEnd)])
    case TapEv => PanelOut(p1, if clickStarted then [] else [at(Tap)])
    case _ => PanelOut(p1, [])
  }

  /** A touch that starts and ends within the swipe timeout, far enough to the right, is a right swipe. */
  lemma QuickDragRightIsSwipe(p: Panel, a: Point, b: Point, t0: nat, t1: nat, clickStarted: bool)
    requires t0 <= t1 < UInt32Limit && t1 - t0 <= SwipeTimeout
    requires b.x >= a.x + SwipeDistance
    ensures var s := Handle(p, a, TouchStartEv, t0, clickStarted).p;
      Handle(s, b, TouchEndEv, t1, clickStarted).events
        == [Event(SwipeRight, b.x, b.y, Touch2BtnNum(b), false), Event(TouchEnd, b.x, b.y, Touch2BtnNum(b), false)]
  {
  }

  /** A touch that ends where it started is never a swipe. */
  lemma StillTouchIsNoSwipe(p: Panel, a: Point, t0: nat, t1: nat, clickStarted: bool)
    ensures var s := Handle(p, a, TouchStartEv, t0, clickStarted).p;
      Handle(s, a, TouchEndEv, t1, clickStarted).events == [Event(TouchEnd, a.x, a.y, Touch2BtnNum(a), false)]
  {
  }
}
