/**
  The older `Display` of src/display.cpp. Its UI states, `begin`, `end` and
  `set_cmd_state` are those of the newer display; `update` differs in one
  place: on CMD_END it finishes at once, whether or not a command is still
  pending.
 */
module LegacyDisplay {
  import opened Wrappers
  import opened Display
  import Clock

  /** `update` at time `now`. */
  function Update(d: Disp, now: nat): (s: Step)
    ensures d.phase == Idle ==> s == Step(d, None, false)
    ensures d.phase == CmdEnd ==> s.hibernated && s.d.phase == Idle
    ensures s.hibernated <==> s.d.phase == Idle && d.phase != Idle
  {
    if d.phase == Idle then Step(d, None, false)
    else if d.phase == CmdEnd then
      if d.current.disappearing then Draw(d.(phase := Ending), d.pre, now)
      else Step(d.(phase := Idle), None, true)
    else if d.current.disappearing then
      if Expired(d.current, now) then
        if d.newCmd then Draw(d.(cmd := Blank(), newCmd := false), d.cmd, now)
        else Draw(d.(pre := Blank()), d.pre, now)
      else Step(d, None, false)
    else if d.newCmd then
      var d1 := if d.cmd.disappearing then d.(pre := d.current) else d;
      Draw(d1.(cmd := Blank(), newCmd := false), d.cmd, now)
    else Step(d, None, false)
  }

  /** `disp_main`: always the main page. */
  function MainCmd(): (u: UIState)
    ensures u.page == Main && !u.disappearing
  {
    Blank().(page := Main)
  }

  /** `disp_test(invert)`. */
  function TestCmd(invert: bool): (u: UIState)
    ensures u.page == (if invert then TestInv else Test)
    ensures u == Blank().(page := u.page)
  {
    if invert then Blank().(page := TestInv) else Blank().(page := Test)
  }

  /** Away from CMD_END, both generations update alike. */
  lemma AgreesWithNewerAwayFromEnd(d: Disp, now: nat)
    requires d.phase != CmdEnd
    ensures Update(d, now) == Display.Update(d, now)
  {
  }

  /**
    The one difference: a command still pending at CMD_END is never drawn
    here (the pending flag stays set), while the newer display draws it
    before finishing.
   */
  lemma PendingCommandAtEnd(d: Disp, now: nat)
    requires d.phase == CmdEnd && d.newCmd && !d.current.disappearing
    ensures Update(d, now).drawn.None? && Update(d, now).d.newCmd && Update(d, now).d.phase == Idle
    ensures Display.Update(d, now).drawn == Some(d.cmd) && !Display.Update(d, now).d.newCmd
  {
  }

  /**
    Because `begin` clears the command but not the pending flag, the first
    `update` after a later `begin` draws a blank page.
   */
  lemma StaleFlagDrawsBlank(d: Disp, now: nat, later: nat)
    requires d.phase == CmdEnd && d.newCmd && !d.current.disappearing
    ensures Update(Begin(Update(d, now).d), later).drawn == Some(Blank())
  {
  }
}
