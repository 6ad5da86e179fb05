/**
  The MQTT topic builders of `MQTTHelper` (src/mqtt_helper.cpp). A topic is
  a `TopicType`, i.e. `StaticString<256>`, so every `+` cuts its result to
  256 characters; the user preferences' base topic and device name are
  inputs.
 */
module MqttTopics {
  import opened CBuffer
  import opened Text
  import opened StaticStrings
  import opened Buttons

  const MaxTopicLength: nat := 256
  const NumButtons: nat := 6

  /** The user preferences the topics are built from. */
  datatype Prefs = Prefs(baseTopic: string, deviceName: string)

  /** `TopicType(str)`. */
  function Topic(text: string): (t: string)
    ensures |t| <= MaxTopicLength
  {
    Cut(text, MaxTopicLength)
  }

  /** `t + x` on a `TopicType`. */
  function Append(t: string, x: string): (r: string)
    ensures |r| <= MaxTopicLength
    ensures |t + x| <= MaxTopicLength ==> r == t + x
  {
    Cut(t + x, MaxTopicLength)
  }

  /** On topics built from C strings, `Append` is the `StaticString` `operator+`. */
  lemma AppendIsPlus(t: string, x: string)
    requires CString(t) && CString(x)
    ensures Append(Topic(t), x) == Value(PlusStr(FromCStr(MaxTopicLength, t), x))
  {
  }

  /** Cutting twice along a chain of appends is cutting once at the end. */
  lemma CutCut(a: string, b: string, n: nat)
    ensures Cut(Cut(a, n) + b, n) == Cut(a + b, n)
  {
    if |a| >= n {
      assert (a[..n] + b)[..n] == a[..n];
      assert (a + b)[..n] == a[..n];
    }
  }

  /** A cut string is a prefix of the same cut of any extension. */
  lemma CutPrefix(a: string, b: string, n: nat)
    ensures Cut(a, n) <= Cut(a + b, n)
  {
    assert (a + b)[..|a|] == a;
  }

  /** The text every topic of the device starts with, before any cut. */
  function CommonText(p: Prefs): string {
    p.baseTopic + "/" + p.deviceName + "/"
  }

  /** `t_common()`: base topic, device name, each followed by a slash. */
  function Common(p: Prefs): (t: string)
    ensures t == Cut(CommonText(p), MaxTopicLength)
  {
    CutCut(p.baseTopic, "/", MaxTopicLength);
    CutCut(p.baseTopic + "/", p.deviceName, MaxTopicLength);
    CutCut(p.baseTopic + "/" + p.deviceName, "/", MaxTopicLength);
    Append(Append(Append(Topic(p.baseTopic), "/"), p.deviceName), "/")
  }

  /** `t_cmd()`. */
  function Cmd(p: Prefs): (t: string)
    ensures t == Cut(CommonText(p) + "cmd/", MaxTopicLength)
  {
    CutCut(CommonText(p), "cmd/", MaxTopicLength);
    Append(Common(p), "cmd/")
  }

  /** The `t_*` builders of `MQTTHelper`; the indexed ones take a button index 0..5. */
  datatype Builder =
    | Temperature | Humidity | Battery
    | BtnPress(i: nat) | BtnLabelState(i: nat) | BtnLabelCmd(i: nat)
    | SensorIntervalState | SensorIntervalCmd
    | AwakeModeState | AwakeModeCmd | AwakeModeAvlb

  predicate IsCmd(b: Builder) {
    b.BtnLabelCmd? || b.SensorIntervalCmd? || b.AwakeModeCmd?
  }

  /** The indexed builders return an empty topic for an index of `NUM_BUTTONS` or more. */
  predicate InRange(b: Builder) {
    (b.BtnPress? || b.BtnLabelState? || b.BtnLabelCmd?) ==> b.i < NumButtons
  }

  /** What each builder appends after `t_common()`, the command ones starting with "cmd/". */
  function Suffix(b: Builder): string
    requires InRange(b)
  {
    match b
    case Temperature => "temperature"
    case Humidity => "humidity"
    case Battery => "battery"
    case BtnPress(i) => "button_" + NatToDecimal(i + 1)
    case BtnLabelState(i) => "btn_" + NatToDecimal(i + 1) + "_label"
    case BtnLabelCmd(i) => "cmd/" + ("btn_" + NatToDecimal(i + 1) + "_label")
    case SensorIntervalState => "sensor_interval"
    case SensorIntervalCmd => "cmd/" + "sensor_interval"
    case AwakeModeState => "awake_mode"
    case AwakeModeCmd => "cmd/" + "awake_mode"
    case AwakeModeAvlb => "awake_mode/available"
  }

  /** `t_common() + x`, closed form. */
  function OnCommon(p: Prefs, x: string): (t: string)
    ensures t == Cut(CommonText(p) + x, MaxTopicLength)
  {
    CutCut(CommonText(p), x, MaxTopicLength);
    Append(Common(p), x)
  }

  /** `t_cmd() + x`, closed form. */
  function OnCmd(p: Prefs, x: string): (t: string)
    ensures t == Cut(CommonText(p) + ("cmd/" + x), MaxTopicLength)
  {
    CutCut(CommonText(p) + "cmd/", x, MaxTopicLength);
    assert CommonText(p) + "cmd/" + x == CommonText(p) + ("cmd/" + x);
    Append(Cmd(p), x)
  }

  /** `t_common() + a + d`, closed form. */
  function OnCommon2(p: Prefs, a: string, d: string): (t: string)
    ensures t == Cut(CommonText(p) + (a + d), MaxTopicLength)
  {
    var ct := CommonText(p);
    CutCut(ct + a, d, MaxTopicLength);
    assert ct + a + d == ct + (a + d);
    Append(OnCommon(p, a), d)
  }

  /** `t_common() + a + d + c`, closed form. */
  function OnCommon3(p: Prefs, a: string, d: string, c: string): (t: string)
    ensures t == Cut(CommonText(p) + (a + d + c), MaxTopicLength)
  {
    var ct := CommonText(p);
    CutCut(ct + a, d, MaxTopicLength);
    CutCut(ct + a + d, c, MaxTopicLength);
    assert ct + a + d + c == ct + (a + d + c);
    Append(Append(OnCommon(p, a), d), c)
  }

  /** `t_cmd() + a + d + c`, closed form. */
  function OnCmd3(p: Prefs, a: string, d: string, c: string): (t: string)
    ensures t == Cut(CommonText(p) + ("cmd/" + (a + d + c)), MaxTopicLength)
  {
    var ct := CommonText(p);
    CutCut(ct + ("cmd/" + a), d, MaxTopicLength);
    CutCut(ct + ("cmd/" + a) + d, c, MaxTopicLength);
    assert ct + ("cmd/" + a) + d + c == ct + ("cmd/" + (a + d + c));
    Append(Append(OnCmd(p, a), d), c)
  }

  /** `t_awake_mode_state() + "/available"`, closed form. */
  function Availability(p: Prefs): (t: string)
    ensures t == Cut(CommonText(p) + "awake_mode/available", MaxTopicLength)
  {
    var ct := CommonText(p);
    CutCut(ct + "awake_mode", "/available", MaxTopicLength);
    assert ct + "awake_mode" + "/available" == ct + "awake_mode/available";
    Append(OnCommon(p, "awake_mode"), "/available")
  }

  /** The topic a builder returns. */
  function Build(p: Prefs, b: Builder): (t: string)
    ensures InRange(b) ==> t == Cut(CommonText(p) + Suffix(b), MaxTopicLength)
    ensures !InRange(b) ==> t == ""
  {
    if b.BtnPress? || b.BtnLabelState? || b.BtnLabelCmd? then BuildIndexed(p, b) else BuildFixed(p, b)
  }

  /** The per-button builders. */
  function BuildIndexed(p: Prefs, b: Builder): (t: string)
    requires b.BtnPress? || b.BtnLabelState? || b.BtnLabelCmd?
    ensures InRange(b) ==> t == Cut(CommonText(p) + Suffix(b), MaxTopicLength)
    ensures !InRange(b) ==> t == ""
  {
    if b.i >= NumButtons then ""
    else
      var d := NatToDecimal(b.i + 1);
      if b.BtnPress? then OnCommon2(p, "button_", d)
      else if b.BtnLabelState? then OnCommon3(p, "btn_", d, "_label")
      else OnCmd3(p, "btn_", d, "_label")
  }

  /** The builders without an index. */
  function BuildFixed(p: Prefs, b: Builder): (t: string)
    requires !(b.BtnPress? || b.BtnLabelState? || b.BtnLabelCmd?)
    ensures t == Cut(CommonText(p) + Suffix(b), MaxTopicLength)
  {
    match b
    case Temperature => OnCommon(p, "temperature")
    case Humidity => OnCommon(p, "humidity")
    case Battery => OnCommon(p, "battery")
    case SensorIntervalState => OnCommon(p, "sensor_interval")
    case SensorIntervalCmd => OnCmd(p, "sensor_interval")
    case AwakeModeState => OnCommon(p, "awake_mode")
    case AwakeModeCmd => OnCmd(p, "awake_mode")
    case AwakeModeAvlb => Availability(p)
  }

  /** A topic `t_cmd() + x` starts with `t_cmd()`. */
  lemma UnderCmd(p: Prefs, x: string)
    ensures Cmd(p) <= Cut(CommonText(p) + ("cmd/" + x), MaxTopicLength)
  {
    CutPrefix(CommonText(p) + "cmd/", x, MaxTopicLength);
    assert CommonText(p) + "cmd/" + x == CommonText(p) + ("cmd/" + x);
  }

  /** Every command topic starts with `t_cmd()`, however long the preferences are. */
  lemma CmdTopicsStartWithCmd(p: Prefs, b: Builder)
    requires IsCmd(b) && InRange(b)
    ensures Cmd(p) <= Build(p, b)
  {
    match b
    case BtnLabelCmd(i) =>
      assert Suffix(b) == "cmd/" + ("btn_" + NatToDecimal(i + 1) + "_label");
      UnderCmd(p, "btn_" + NatToDecimal(i + 1) + "_label");
    case SensorIntervalCmd => UnderCmd(p, "sensor_interval");
    case AwakeModeCmd => UnderCmd(p, "awake_mode");
  }

  /**
    Every state topic starts with `t_common()`; while `t_common()` itself fits
    in a topic, no state topic starts with `t_cmd()`.
   */
  lemma StateTopicsOutsideCmd(p: Prefs, b: Builder)
    requires !IsCmd(b) && InRange(b)
    ensures Common(p) <= Build(p, b)
    ensures |CommonText(p)| < MaxTopicLength ==> !(Cmd(p) <= Build(p, b))
  {
    var ct := CommonText(p);
    CutPrefix(ct, Suffix(b), MaxTopicLength);
    if |ct| < MaxTopicLength {
      var k := |ct|;
      assert Cmd(p)[k] == (ct + "cmd/")[k] == 'c';
      assert Build(p, b)[k] == (ct + Suffix(b))[k] == Suffix(b)[0];
      assert Suffix(b)[0] != 'c';
    }
  }

  /** The indexed builders give an empty topic for an index of 6 or more. */
  lemma OutOfRangeIndexEmpty(p: Prefs, i: nat)
    requires i >= NumButtons
    ensures Build(p, BtnPress(i)) == "" && Build(p, BtnLabelState(i)) == "" && Build(p, BtnLabelCmd(i)) == ""
  {
  }

  /** `t_awake_mode_avlb()` is the awake-mode state topic followed by "/available". */
  lemma AvailabilityTopic(p: Prefs)
    requires |CommonText(p)| + |"awake_mode/available"| <= MaxTopicLength
    ensures Build(p, AwakeModeAvlb) == Build(p, AwakeModeState) + "/available"
  {
  }

  /** What `get_button_topic` appends for each multi-press action. */
  function ActionSuffix(action: ButtonAction): string {
    match action
    case Single => ""
    case Double => "_double"
    case Triple => "_triple"
    case Quad => "_quad"
    case _ => ""
  }

  /** `get_button_topic(btn_id, action)`, with `btn_id` counted from 1. */
  function GetButtonTopic(p: Prefs, id: nat, action: ButtonAction): (t: string)
    ensures t != "" <==> 1 <= id <= NumButtons && action in {Single, Double, Triple, Quad}
    ensures t != "" ==>
      t == Cut(CommonText(p) + ("button_" + NatToDecimal(id) + ActionSuffix(action)), MaxTopicLength)
  {
    if id < 1 || id > NumButtons then ""
    else if action !in {Single, Double, Triple, Quad} then ""
    else
      var t := OnCommon3(p, "button_", NatToDecimal(id), ActionSuffix(action));
      assert |t| > 0 by {
        assert |CommonText(p) + ("button_" + NatToDecimal(id) + ActionSuffix(action))| > 0;
      }
      t
  }

  /**
    A single press of button `id` is published on the topic the discovery
    trigger of button index `id - 1` announces.
   */
  lemma SinglePressMatchesTrigger(p: Prefs, id: nat)
    requires 1 <= id <= NumButtons
    ensures GetButtonTopic(p, id, Single) == Build(p, BtnPress(id - 1))
  {
    assert "button_" + NatToDecimal(id) + "" == "button_" + NatToDecimal(id);
  }

  /**
    `expire_after`: the sensor interval in minutes as seconds plus one
    minute, stored in a `uint16_t`.
   */
  function ExpireAfter(interval: nat): (secs: nat)
    requires interval < 0x1_0000
    ensures secs < 0x1_0000
    ensures interval * 60 + 60 < 0x1_0000 ==> secs == interval * 60 + 60
  {
    (interval * 60 + 60) % 0x1_0000
  }

  /**
    Within the interval range commands accept (1 to 30 minutes), the expiry
    is exact: one minute after the next reading is due.
   */
  lemma ExpireAfterInRange(interval: nat)
    requires 1 <= interval <= 30
    ensures ExpireAfter(interval) == (interval + 1) * 60
    ensures 120 <= ExpireAfter(interval) <= 1860
  {
  }
}
