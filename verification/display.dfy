/**
  `Display` of src/display/display.cpp without the drawing: the parser that
  splits a button label into an icon name and a text, the step that shortens
  a label until it fits, and the state machine that decides which UI state
  is drawn when. `millis()`, the font's width measure and the persisted
  setup flags are inputs; drawing and hibernating are reported, not done.
 */
module Display {
  import opened Wrappers
  import opened CBuffer
  import opened StaticStrings
  import Clock

  // ---------------------------------------------------------------- labels

  datatype LabelType = Text | Icon | Mixed

  /** `index_of(c)`: the index of the first `c`, or -1. */
  function IndexOf(s: string, c: char): (k: int)
    ensures -1 <= k < |s|
    ensures k == -1 <==> c !in s
    ensures k >= 0 ==> s[k] == c && c !in s[..k]
  {
    if |s| == 0 then -1
    else if s[0] == c then 0
    else
      var k := IndexOf(s[1..], c);
      if k == -1 then -1
      else
        assert s[..k + 1] == [s[0]] + s[1..][..k];
        k + 1
  }

  /** `get_label_type`: "mdi:" labels are icons, with a space they are icon and text. */
  function LabelTypeOf(lbl: string): (t: LabelType)
    ensures t == Mixed <==> "mdi:" <= lbl && ' ' in lbl
    ensures t == Icon <==> "mdi:" <= lbl && ' ' !in lbl
    ensures t == Text <==> !("mdi:" <= lbl)
  {
    if |lbl| >= 4 && lbl[..4] == "mdi:" then
      if IndexOf(lbl, ' ') > 0 then Mixed else Icon
    else Text
  }

  /** `get_mdi_name`. */
  function MdiName(lbl: string): (name: string)
    ensures ' ' !in name
  {
    match LabelTypeOf(lbl)
    case Icon => lbl[4..]
    case Mixed => lbl[4..IndexOf(lbl, ' ')]
    case Text => ""
  }

  /** `get_text`: a tail of the label, which for a mixed label starts right after its first space. */
  function TextOf(lbl: string): (r: string)
    ensures |r| <= |lbl| && r == lbl[|lbl| - |r|..]
    ensures LabelTypeOf(lbl) == Mixed ==> |r| < |lbl| && lbl[|lbl| - |r| - 1] == ' ' && ' ' !in lbl[..|lbl| - |r| - 1]
    ensures LabelTypeOf(lbl) == Text ==> r == lbl
    ensures LabelTypeOf(lbl) == Icon ==> r == ""
  {
    match LabelTypeOf(lbl)
    case Text => lbl
    case Mixed => lbl[IndexOf(lbl, ' ') + 1..]
    case Icon => ""
  }

  /** A label is rebuilt from its parts: "mdi:" + name (+ " " + text for a mixed label). */
  lemma LabelRebuilt(lbl: string)
    ensures LabelTypeOf(lbl) == Mixed ==> lbl == "mdi:" + MdiName(lbl) + " " + TextOf(lbl)
    ensures LabelTypeOf(lbl) == Icon ==> lbl == "mdi:" + MdiName(lbl) && TextOf(lbl) == ""
    ensures LabelTypeOf(lbl) == Text ==> TextOf(lbl) == lbl && MdiName(lbl) == ""
  {
    if LabelTypeOf(lbl) == Mixed {
      var k := IndexOf(lbl, ' ');
      assert lbl == lbl[..4] + lbl[4..k] + [lbl[k]] + lbl[k + 1..];
    }
  }

  /** Parsing a label composed from a space-free name and any text gives both back. */
  lemma ComposedLabelParsed(name: string, text: string)
    requires ' ' !in name
    ensures LabelTypeOf("mdi:" + name + " " + text) == Mixed
    ensures MdiName("mdi:" + name + " " + text) == name
    ensures TextOf("mdi:" + name + " " + text) == text
    ensures LabelTypeOf("mdi:" + name) == Icon && MdiName("mdi:" + name) == name
  {
    var lbl := "mdi:" + name + " " + text;
    assert lbl[..4] == "mdi:";
    assert lbl[4 + |name|] == ' ';
    assert lbl[..4 + |name|] == "mdi:" + name;
    var k := IndexOf(lbl, ' ');
    assert k == 4 + |name|;
    assert lbl[4..k] == name;
    assert lbl[k + 1..] == text;
    assert ("mdi:" + name)[..4] == "mdi:";
  }

  /**
    One pass of `trim_text`'s loop on a `ButtonLabel`:
    `label.substring(0, label.length() - 2) + "."`, with the `size_t`
    arithmetic of `substring`. A label of two or more characters loses its
    last two and gains a dot; shorter labels become a lone dot.
   */
  function TrimStep(s: SString): (r: SString)
    requires Wf(s) && s.cap == 15 && '%' !in Value(s)
    ensures Wf(r) && r.cap == 15
    ensures Length(s) >= 2 ==> Value(r) == Value(s)[..Length(s) - 2] + "."
    ensures Length(s) <= 1 ==> Value(r) == "."
  {
    var j := SizeT(Length(s) - 2);
    assert CStrAt(s.data, 0) == Value(s);
    TrimSubstring(s);
    PlusStr(Substring(s, 0, j), ".")
  }

  /** What `label.substring(0, label.length() - 2)` keeps, with the index in `size_t`. */
  lemma TrimSubstring(s: SString)
    requires Wf(s) && s.cap == 15 && '%' !in Value(s)
    ensures CStrAt(s.data, 0) == Value(s)
    ensures var sub := Substring(s, 0, SizeT(Length(s) - 2));
      (Length(s) >= 2 ==> Value(sub) == Value(s)[..Length(s) - 2])
      && (Length(s) == 1 ==> Value(sub) == "")
      && (Length(s) == 0 ==> Value(sub) == "")
  {
    var len: int := Length(s);
    assert CStrAt(s.data, 0) == Value(s);
    if len >= 2 {
      SubstringInside(s, 0, len - 2);
    } else if len == 1 {
      var j: int := SizeT(len - 2);
      assert j == SizeMax as int - 1;
      assert SizeT(j + 1) == 0;
    } else {
      assert Value(s) == "";
      var j: int := SizeT(len - 2);
      assert j == SizeMax as int - 2;
    }
  }

  /** How far `trim_text` still has to go: a lone dot is as short as it gets. */
  function TrimMeasure(s: SString): nat
    requires Wf(s)
  {
    if Value(s) == "." then 0 else Length(s) + 1
  }

  /**
    `trim_text(label, max_width)`, for a font whose width measure is `width`.
    The loop stops once the label fits; should even a lone dot be too wide
    it would never stop, so that case is excluded.
   */
  function TrimText(s: SString, width: string -> nat, maxWidth: nat): (r: SString)
    requires Wf(s) && s.cap == 15 && '%' !in Value(s)
    requires width(".") <= maxWidth
    ensures Wf(r) && r.cap == 15
    ensures width(Value(r)) <= maxWidth
    ensures width(Value(s)) <= maxWidth ==> r == s
    ensures |Value(r)| <= |Value(s)| || Value(r) == "."
    decreases TrimMeasure(s)
  {
    if width(Value(s)) <= maxWidth then s
    else
      var t := TrimStep(s);
      assert '%' !in Value(t);
      TrimText(t, width, maxWidth)
  }

  // ---------------------------------------------------------- state machine

  datatype Page = Empty | Main | Info | DeviceInfo | Message | MessageLarge | Error
                | Welcome | Settings | ApConfig | WebConfig | Test | TestInv

  /** `UIState`: the page and what it shows, and whether (and when) it disappears again. */
  datatype UIState = UIState(
    page: Page, message: string, mdiName: string, mdiSize: nat,
    disappearing: bool, appearTime: nat, disappearTimeout: nat)

  /** `UIState{}`. */
  function Blank(): UIState {
    UIState(Empty, "", "", 0, false, 0, 0)
  }

  datatype Phase = Idle | Active | CmdEnd | Ending

  /** The display's state between calls (`draw_ui_state` is blank between calls). */
  datatype Disp = Disp(phase: Phase, current: UIState, cmd: UIState, pre: UIState, newCmd: bool)

  function Initial(): Disp {
    Disp(Idle, Blank(), Blank(), Blank(), false)
  }

  /** The outcome of `update`: the new state, the UI state drawn if any, and whether the panel was put to sleep. */
  datatype Step = Step(d: Disp, drawn: Option<UIState>, hibernated: bool)

  /** `begin`: only from IDLE, clearing every UI state; a pending-command flag survives. */
  function Begin(d: Disp): (r: Disp)
    ensures d.phase != Idle ==> r == d
    ensures d.phase == Idle ==> r == Disp(Active, Blank(), Blank(), Blank(), d.newCmd)
  {
    if d.phase != Idle then d
    else d.(current := Blank(), cmd := Blank(), pre := Blank(), phase := Active)
  }

  /** `end`: only from ACTIVE, asking `update` to finish. */
  function End(d: Disp): (r: Disp)
    ensures d.phase == Active ==> r == d.(phase := CmdEnd)
    ensures d.phase != Active ==> r == d
  {
    if d.phase != Active then d else d.(phase := CmdEnd)
  }

  /** `set_cmd_state`: the newest command replaces any pending one. */
  function SetCmd(d: Disp, cmd: UIState): (r: Disp)
    ensures r.newCmd && r.cmd == cmd
    ensures r.phase == d.phase && r.current == d.current && r.pre == d.pre
  {
    d.(cmd := cmd, newCmd := true)
  }

  /** The command of `disp_message`, `disp_message_large` and `disp_error`: disappearing iff a duration is given. */
  function MessageCmd(page: Page, message: string, duration: nat): (u: UIState)
    ensures u.page == page && u.message == message
    ensures u.disappearing <==> duration > 0
    ensures u.disappearing ==> u.disappearTimeout == duration
  {
    var u := Blank().(page := page, message := message);
    if duration > 0 then u.(disappearing := true, disappearTimeout := duration) else u
  }

  /** `disp_main`: the main page once setup and Wi-Fi are done, the welcome page before. */
  function MainCmd(setupDone: bool, wifiDone: bool): (u: UIState)
    ensures u.page == (if setupDone && wifiDone then Main else Welcome)
    ensures !u.disappearing
  {
    if setupDone && wifiDone then Blank().(page := Main) else Blank().(page := Welcome)
  }

  /** `disp_test`: a test page that stays until replaced, showing the text and the icon. */
  function TestCmd(text: string, mdiName: string, mdiSize: nat): (u: UIState)
    ensures u.page == Test && !u.disappearing
    ensures u.message == text && u.mdiName == mdiName && u.mdiSize == mdiSize
  {
    Blank().(page := Test, message := text, mdiName := mdiName, mdiSize := mdiSize)
  }

  /** Draw `u` at `now`: it becomes the current state; an ENDING display then goes to sleep. */
  function Draw(d: Disp, u: UIState, now: nat): (s: Step)
    ensures s.drawn == Some(u) && s.d.current == u.(appearTime := now)
    ensures s.hibernated <==> d.phase == Ending
  {
    var d1 := d.(current := u.(appearTime := now));
    if d.phase == Ending then Step(d1.(phase := Idle), Some(u), true)
    else Step(d1, Some(u), false)
  }

  /** A message has expired once its timeout has passed since it appeared, counted across a wrap of `millis()`. */
  function Expired(u: UIState, now: nat): (r: bool)
    ensures u.appearTime <= now < Clock.UInt32Limit ==> (r <==> now - u.appearTime >= u.disappearTimeout)
    ensures now < u.appearTime < Clock.UInt32Limit ==> (r <==> now + Clock.UInt32Limit - u.appearTime >= u.disappearTimeout)
    ensures u.disappearTimeout == 0 ==> r
  {
    Clock.Since(now, u.appearTime) >= u.disappearTimeout
  }

  /** `update` at time `now`. */
  function Update(d: Disp, now: nat): (s: Step)
    ensures d.phase == Idle ==> s == Step(d, None, false)
    ensures s.hibernated <==> s.d.phase == Idle && d.phase != Idle
    ensures s.drawn.None? && !s.hibernated ==> s.d == d
  {
    if d.phase == Idle then Step(d, None, false)
    else if d.phase == CmdEnd && !d.newCmd then
      if d.current.disappearing then Draw(d.(phase := Ending), d.pre, now)
      else Step(d.(phase := Idle), None, true)
    else if d.current.disappearing then
      if Expired(d.current, now) then
        if d.newCmd then Draw(d.(cmd := Blank(), newCmd := false), d.cmd, now)
        else Draw(d.(pre := Blank()), d.pre, now)
      else Step(d, None, false)
    else if d.newCmd then
      var d1 := if d.cmd.disappearing then d.(pre := d.current) else d;
      Draw(d1.(cmd := Blank(), newCmd := false), d.cmd, now)
    else Step(d, None, false)
  }

  /** A pending command on an active display that shows nothing transient is drawn at once, and only once. */
  lemma PendingDrawnOnce(d: Disp, now: nat, later: nat)
    requires d.phase == Active && d.newCmd && !d.current.disappearing && !d.cmd.disappearing
    ensures Update(d, now).drawn == Some(d.cmd)
    ensures Update(d, now).d.current == d.cmd.(appearTime := now) && !Update(d, now).d.newCmd
    ensures Update(Update(d, now).d, later).drawn.None?
  {
  }

  /**
    A disappearing message keeps the screen it covered: once its timeout
    has passed, that screen is drawn again, unless a newer command is
    waiting, which is drawn instead. Before the timeout nothing is drawn.
   */
  lemma DisappearingMessage(d: Disp, msg: UIState, now: nat, later: nat)
    requires d.phase == Active && !d.current.disappearing && msg.disappearing
    ensures var s := Update(SetCmd(d, msg), now);
      s.drawn == Some(msg) && s.d.pre == d.current && s.d.current.disappearing
      && (Clock.Since(later, now) >= msg.disappearTimeout ==> Update(s.d, later).drawn == Some(d.current))
      && (Clock.Since(later, now) < msg.disappearTimeout ==> Update(s.d, later).drawn.None?)
  {
  }

  /** A newer command pending when the message expires is drawn instead of the covered screen. */
  lemma NewerCommandWins(d: Disp, cmd: UIState, now: nat)
    requires d.phase == Active && d.current.disappearing && Expired(d.current, now)
    ensures Update(SetCmd(d, cmd), now).drawn == Some(cmd)
    ensures !Update(SetCmd(d, cmd), now).d.newCmd
  {
  }

  /**
    Ending: a pending command is drawn first and the display stays in
    CMD_END; with nothing pending it sleeps at once, after redrawing the
    covered screen if a disappearing message is up.
   */
  lemma EndingOrder(d: Disp, now: nat)
    requires d.phase == CmdEnd
    ensures d.newCmd && !d.current.disappearing ==>
      Update(d, now).drawn == Some(d.cmd) && Update(d, now).d.phase == CmdEnd
    ensures !d.newCmd && d.current.disappearing ==>
      Update(d, now).drawn == Some(d.pre) && Update(d, now).hibernated
    ensures !d.newCmd && !d.current.disappearing ==>
      Update(d, now).drawn.None? && Update(d, now).hibernated
  {
  }

  /** Every phase but IDLE is left for IDLE by `end` and at most three `update`s, when no command arrives meanwhile. */
  lemma EndReachesIdle(d: Disp, t1: nat, t2: nat, t3: nat)
    requires d.phase == Active
    requires !d.current.disappearing || Expired(d.current, t1)
    ensures var s1 := Update(End(d), t1);
      var s2 := Update(s1.d, t2);
      var s3 := Update(s2.d, t3);
      s1.d.phase == Idle || s2.d.phase == Idle || s3.d.phase == Idle
  {
  }
}
