/**
  `factory_mode` of include/factory.h: the serial-line protocol that sets the
  factory identity one command at a time. Each line is a command letter, one
  separator character and a payload. The hardware self-test behind `T` is an
  input: it reports pass or fail.
 */
module FactoryMode {
  import opened Wrappers

  /** `FactorySettings` of include/prefs.h: Arduino `String`s, initially empty. */
  datatype Settings = Settings(
    serial: string, randomId: string, modelName: string,
    modelId: string, hwVersion: string, uniqueId: string)

  function EmptySettings(): Settings {
    Settings("", "", "", "", "", "")
  }

  datatype Reply = Ok | Fail

  /** One received line and, should it start the hardware test, that test's verdict. */
  datatype Line = Line(text: string, testPasses: bool)

  /**
    The result of one line: the new settings, what is sent back, whether the
    hardware test ran (and with which hardware version), and whether the
    settings were confirmed and saved, which ends factory mode.
   */
  datatype ModeStep = ModeStep(settings: Settings, reply: Option<Reply>, testedWith: Option<string>, saved: bool)

  /** `msg.substring(2)`: the text after the command letter and its separator. */
  function Payload(msg: string): (p: string)
    ensures |msg| >= 2 ==> msg == msg[..2] + p
    ensures |msg| <= 2 ==> p == ""
  {
    if |msg| > 2 then msg[2..] else ""
  }

  /** The unique id `E` stores: "HBTNS-", the serial, '-', the random id. */
  function UniqueId(serial: string, randomId: string): (u: string)
    ensures |u| == 7 + |serial| + |randomId| && u[..6] == "HBTNS-"
    ensures u[6..6 + |serial|] == serial && u[6 + |serial|] == '-' && u[7 + |serial|..] == randomId
  {
    "HBTNS-" + serial + "-" + randomId
  }

  /** For serials of one length, the unique id determines both the serial and the random id. */
  lemma UniqueIdDetermines(s1: string, r1: string, s2: string, r2: string)
    requires |s1| == |s2| && UniqueId(s1, r1) == UniqueId(s2, r2)
    ensures s1 == s2 && r1 == r2
  {
    var u := UniqueId(s1, r1);
    assert s1 == u[6..6 + |s1|] == s2;
    assert r1 == u[7 + |s1|..] == r2;
  }

  /** Every field `E` checks has been set. */
  predicate Complete(s: Settings) {
    |s.serial| > 0 && |s.randomId| > 0 && |s.modelName| > 0 && |s.modelId| > 0 && |s.hwVersion| > 0
  }

  /**
    What the settings hold while factory mode runs: each field is unset or
    has the length its command demands, and no unique id is set yet.
   */
  predicate Inv(s: Settings) {
    (s.serial == "" || |s.serial| == 8)
    && (s.randomId == "" || |s.randomId| == 6)
    && |s.modelName| <= 20
    && (s.modelId == "" || |s.modelId| == 2)
    && (s.hwVersion == "" || |s.hwVersion| == 3)
    && s.uniqueId == ""
  }

  /** Stores `value` through `set` when `ok`, and answers OK or FAIL. */
  function Store(s: Settings, ok: bool, updated: Settings): ModeStep {
    if ok then ModeStep(updated, Some(Ok), None, false) else ModeStep(s, Some(Fail), None, false)
  }

  /** One pass of the `while (1)` loop over a received line. */
  function StepLine(s: Settings, line: Line): (r: ModeStep)
    ensures Inv(s) ==> Inv(r.settings) || r.saved
    ensures r.saved <==> |line.text| > 0 && line.text[0] == 'E' && Complete(s)
    ensures r.saved ==> r.settings == s.(uniqueId := UniqueId(s.serial, s.randomId)) && r.reply == Some(Ok)
    ensures r.testedWith.Some? <==> |line.text| > 0 && line.text[0] == 'T' && |s.hwVersion| > 0
    ensures r.testedWith.Some? ==>
      r.testedWith.value == s.hwVersion && r.reply == Some(if line.testPasses then Ok else Fail)
    ensures |line.text| == 0 || line.text[0] !in "SIMDVE" ==> r.settings == s
    ensures r.reply != Some(Ok) ==> r.settings == s
  {
    var msg := line.text;
    if |msg| == 0 then ModeStep(s, None, None, false)
    else
      var cmd := msg[0];
      var pld := Payload(msg);
      if cmd == 'T' then
        if |s.hwVersion| > 0 then
          ModeStep(s, Some(if line.testPasses then Ok else Fail), Some(s.hwVersion), false)
        else ModeStep(s, None, None, false)
      else if cmd == 'S' then Store(s, |pld| == 8, s.(serial := pld))
      else if cmd == 'I' then Store(s, |pld| == 6, s.(randomId := pld))
      else if cmd == 'M' then Store(s, 0 < |pld| <= 20, s.(modelName := pld))
      else if cmd == 'D' then Store(s, |pld| == 2, s.(modelId := pld))
      else if cmd == 'V' then Store(s, |pld| == 3, s.(hwVersion := pld))
      else if cmd == 'E' then
        if Complete(s) then
          ModeStep(s.(uniqueId := UniqueId(s.serial, s.randomId)), Some(Ok), None, true)
        else ModeStep(s, Some(Fail), None, false)
      else ModeStep(s, None, None, false)
  }

  /** `S`, `I`, `D` and `V` accept exactly the payload lengths 8, 6, 2 and 3; `M` accepts 1 to 20. */
  lemma SetterAcceptance(s: Settings, sep: char, pld: string, passes: bool)
    ensures StepLine(s, Line(['S', sep] + pld, passes)).reply == Some(if |pld| == 8 then Ok else Fail)
    ensures StepLine(s, Line(['I', sep] + pld, passes)).reply == Some(if |pld| == 6 then Ok else Fail)
    ensures StepLine(s, Line(['M', sep] + pld, passes)).reply == Some(if 0 < |pld| <= 20 then Ok else Fail)
    ensures StepLine(s, Line(['D', sep] + pld, passes)).reply == Some(if |pld| == 2 then Ok else Fail)
    ensures StepLine(s, Line(['V', sep] + pld, passes)).reply == Some(if |pld| == 3 then Ok else Fail)
    ensures StepLine(s, Line(['S', sep] + pld, passes)).settings == (if |pld| == 8 then s.(serial := pld) else s)
    ensures StepLine(s, Line(['V', sep] + pld, passes)).settings == (if |pld| == 3 then s.(hwVersion := pld) else s)
  {
    var suffixes := [['S', sep] + pld, ['I', sep] + pld, ['M', sep] + pld, ['D', sep] + pld, ['V', sep] + pld];
    forall m | m in suffixes
      ensures Payload(m) == pld
    {
      assert m[2..] == pld;
    }
  }

  /** What is left of factory mode after a run of lines. */
  datatype Run = Saved(settings: Settings, replies: seq<Reply>, tests: seq<string>)
               | Waiting(settings: Settings, replies: seq<Reply>, tests: seq<string>)

  function Extend(replies: seq<Reply>, tests: seq<string>, st: ModeStep): (seq<Reply>, seq<string>) {
    (replies + (if st.reply.Some? then [st.reply.value] else []),
     tests + (if st.testedWith.Some? then [st.testedWith.value] else []))
  }

  /** The loop of `factory_mode` over the lines received so far; it returns at the first confirmed `E`. */
  function RunLines(s: Settings, lines: seq<Line>, replies: seq<Reply>, tests: seq<string>): Run
    decreases |lines|
  {
    if |lines| == 0 then Waiting(s, replies, tests)
    else
      var st := StepLine(s, lines[0]);
      var (replies', tests') := Extend(replies, tests, st);
      if st.saved then Saved(st.settings, replies', tests')
      else RunLines(st.settings, lines[1..], replies', tests')
  }

  /** `factory_mode()` fed the given lines from empty settings. */
  function FactoryModeRun(lines: seq<Line>): (r: Run)
    ensures r.Saved? ==>
      Complete(r.settings) && |r.settings.uniqueId| == 21
      && r.settings.uniqueId == UniqueId(r.settings.serial, r.settings.randomId)
    ensures r.Waiting? ==> Inv(r.settings)
  {
    RunKeepsInv(EmptySettings(), lines, [], []);
    RunLines(EmptySettings(), lines, [], [])
  }

  /**
    From settings that keep the invariant, a run either is still waiting
    with the invariant intact, or has saved complete settings whose unique
    id is "HBTNS-" + serial + "-" + random id; every test it ran used a
    set hardware version of three characters.
   */
  lemma {:induction false} RunKeepsInv(s: Settings, lines: seq<Line>, replies: seq<Reply>, tests: seq<string>)
    requires Inv(s)
    requires forall i :: 0 <= i < |tests| ==> |tests[i]| == 3
    ensures var r := RunLines(s, lines, replies, tests);
      (r.Waiting? ==> Inv(r.settings))
      && (r.Saved? ==>
            Complete(r.settings) && |r.settings.serial| == 8 && |r.settings.randomId| == 6
            && |r.settings.modelId| == 2 && |r.settings.hwVersion| == 3 && |r.settings.modelName| <= 20
            && r.settings.uniqueId == UniqueId(r.settings.serial, r.settings.randomId))
      && (forall i :: 0 <= i < |r.tests| ==> |r.tests[i]| == 3)
    decreases |lines|
  {
    if |lines| > 0 {
      var st := StepLine(s, lines[0]);
      var (replies', tests') := Extend(replies, tests, st);
      if !st.saved {
        RunKeepsInv(st.settings, lines[1..], replies', tests');
      }
    }
  }

  /** The saved unique id has 21 characters: "HBTNS-", eight, "-", six. */
  lemma UniqueIdLength(lines: seq<Line>)
    ensures FactoryModeRun(lines).Saved? ==> |FactoryModeRun(lines).settings.uniqueId| == 21
  {
    RunKeepsInv(EmptySettings(), lines, [], []);
  }

  /** Lines that are empty or start with an unknown letter are ignored: no reply, no change. */
  lemma {:induction false} IgnoredLines(s: Settings, lines: seq<Line>, replies: seq<Reply>, tests: seq<string>)
    requires forall i :: 0 <= i < |lines| ==> |lines[i].text| == 0 || lines[i].text[0] !in "TSIMDVE"
    ensures RunLines(s, lines, replies, tests) == Waiting(s, replies, tests)
    decreases |lines|
  {
    if |lines| > 0 {
      assert StepLine(s, lines[0]) == ModeStep(s, None, None, false);
      assert replies + [] == replies && tests + [] == tests;
      IgnoredLines(s, lines[1..], replies, tests);
    }
  }

  /** `E` before every field is set fails and changes nothing. */
  lemma EarlyConfirmFails(s: Settings, line: Line)
    requires |line.text| > 0 && line.text[0] == 'E' && !Complete(s)
    ensures StepLine(s, line) == ModeStep(s, Some(Fail), None, false)
  {
  }
}
