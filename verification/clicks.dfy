/**
  The duration-and-count click classifier of the button-UI generation
  (`TriggerClick` of src/button_ui/buttons.cpp and of
  src/button_ui/btn_sw_led.cpp, which are the same table). The four long
  bands are `kLong2sTime` .. `kLong20sTime`. Among the headers at hand they
  are defined only in src/pro/touch.h; the button-UI code is taken to see the
  same values. Its other timing constants come from src/button_ui/buttons.h,
  which is not part of this model, and are the parameters `ClickButton.Timing`.
 */
module Clicks {
  import opened Wrappers
  import opened UserInput

  const Long2sTime: nat := 2000
  const Long5sTime: nat := 5000
  const Long10sTime: nat := 10000
  const Long20sTime: nat := 20000

  /** The band a press duration falls in: 0 below two seconds, then 1 to 4. */
  function Band(duration: nat): (b: nat)
    ensures b <= 4
    ensures b == 0 <==> duration < Long2sTime
    ensures b == 1 <==> Long2sTime <= duration < Long5sTime
    ensures b == 2 <==> Long5sTime <= duration < Long10sTime
    ensures b == 3 <==> Long10sTime <= duration < Long20sTime
    ensures b == 4 <==> Long20sTime <= duration
  {
    if duration < Long2sTime then 0
    else if duration < Long5sTime then 1
    else if duration < Long10sTime then 2
    else if duration < Long20sTime then 3
    else 4
  }

  /** The hold event of a band (band 0 has none). */
  function HoldEvent(band: nat): EventType
    requires 1 <= band <= 4
  {
    [HoldLong2s, HoldLong5s, HoldLong10s, HoldLong20s][band - 1]
  }

  /** The multi-click event of two, three or four clicks. */
  function MultiEvent(n: nat): EventType
    requires 2 <= n <= 4
  {
    [ClickDouble, ClickTriple, ClickQuad][n - 2]
  }

  /**
    `TriggerClick(duration, num_clicks, final)` decides which event, if
    any, is reported.
   */
  function ButtonClick(duration: nat, n: nat): (e: Option<EventType>)
    ensures n == 0 ==> (e.None? <==> duration < Long2sTime)
    ensures n <= 1 && Long2sTime <= duration ==> e == Some(HoldEvent(Band(duration)))
    ensures n == 1 && duration < Long2sTime ==> e == Some(ClickSingle)
    ensures 2 <= n <= 4 ==> e == Some(MultiEvent(n))
    ensures n >= 5 ==> e.None?
  {
    if n <= 1 then
      if Band(duration) > 0 then Some(HoldEvent(Band(duration)))
      else if n == 1 then Some(ClickSingle)
      else Option.None
    else if n <= 4 then Some(MultiEvent(n))
    else Option.None
  }

  /** The hold rank of an event: 1 to 4 for the hold events, 0 otherwise. */
  function HoldRank(e: Option<EventType>): nat {
    match e
    case Some(HoldLong2s) => 1
    case Some(HoldLong5s) => 2
    case Some(HoldLong10s) => 3
    case Some(HoldLong20s) => 4
    case _ => 0
  }

  /** Holding a button longer never reports a shorter hold. */
  lemma HoldMonotone(d1: nat, d2: nat, n: nat)
    requires n <= 1 && Long2sTime <= d1 <= d2
    ensures 1 <= HoldRank(ButtonClick(d1, n)) <= HoldRank(ButtonClick(d2, n))
  {
    assert HoldRank(ButtonClick(d1, n)) == Band(d1);
    assert HoldRank(ButtonClick(d2, n)) == Band(d2);
  }

  /** Every event the classifier reports is a click or a hold, never a touch or switch event. */
  lemma OnlyClickEvents(duration: nat, n: nat)
    ensures ButtonClick(duration, n).Some? ==>
      ButtonClick(duration, n).value in
        {ClickSingle, ClickDouble, ClickTriple, ClickQuad, HoldLong2s, HoldLong5s, HoldLong10s, HoldLong20s}
  {
    if n <= 1 && Band(duration) > 0 {
      assert ButtonClick(duration, n).value == HoldEvent(Band(duration));
    } else if 2 <= n <= 4 {
      assert ButtonClick(duration, n).value == MultiEvent(n);
    }
  }

  /** The events a click report becomes: one event, stamped with the button id and the final flag, or none. */
  function Report(id: nat, duration: nat, n: nat, final: bool): (es: seq<Event>)
    ensures |es| <= 1
    ensures |es| == 1 <==> ButtonClick(duration, n).Some?
    ensures forall e | e in es :: e.btnId == id && e.final == final && e.x == 0 && e.y == 0
    ensures forall e | e in es :: Some(e.kind) == ButtonClick(duration, n)
  {
    var e := ButtonClick(duration, n);
    if e.Some? then [Event(e.value, 0, 0, id, final)] else []
  }
}
