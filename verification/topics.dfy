/**
  `TopicHelper` of src/topics.cpp, the topic builders of the button-UI
  firmware generation. State and command topics grow from the same
  `t_common()` / `t_cmd()` as in `MQTTHelper`; discovery config topics are
  formatted in one go from the discovery prefix and the unique id.
 */
module Topics {
  import opened CBuffer
  import opened Text
  import opened StaticStrings
  import opened UserInput
  import MqttTopics
  import Buttons

  const MaxTopicLength: nat := 256
  const NumButtons: nat := 6

  type Prefs = MqttTopics.Prefs

  /** What `get_button_topic` appends after `t_common()` for each event type that has a topic. */
  function EventSuffix(kind: EventType, id: nat): string {
    var d := NatToDecimal(id);
    match kind
    case ClickSingle => "button_" + d
    case ClickDouble => "button_" + d + "_double"
    case ClickTriple => "button_" + d + "_triple"
    case ClickQuad => "button_" + d + "_quad"
    case SwitchOn => "switch_" + d
    case SwitchOff => "switch_" + d
    case _ => ""
  }

  predicate HasTopic(kind: EventType) {
    kind in {ClickSingle, ClickDouble, ClickTriple, ClickQuad, SwitchOn, SwitchOff}
  }

  /** `get_button_topic(event)`: `btn_id` counts from 1. */
  function GetButtonTopic(p: Prefs, ev: Event): (t: string)
    ensures t != "" <==> 1 <= ev.btnId <= NumButtons && HasTopic(ev.kind)
    ensures t != "" ==> t == Cut(MqttTopics.CommonText(p) + EventSuffix(ev.kind, ev.btnId), MaxTopicLength)
  {
    if ev.btnId < 1 || ev.btnId > NumButtons then ""
    else
      var d := NatToDecimal(ev.btnId);
      match ev.kind
      case ClickSingle => MqttTopics.OnCommon2(p, "button_", d)
      case ClickDouble => MqttTopics.OnCommon3(p, "button_", d, "_double")
      case ClickTriple => MqttTopics.OnCommon3(p, "button_", d, "_triple")
      case ClickQuad => MqttTopics.OnCommon3(p, "button_", d, "_quad")
      case SwitchOn => MqttTopics.OnCommon2(p, "switch_", d)
      case SwitchOff => MqttTopics.OnCommon2(p, "switch_", d)
      case _ => ""
  }

  /** Switching on and switching off are reported on the same topic. */
  lemma SwitchEventsShareTopic(p: Prefs, ev: Event)
    requires ev.kind == SwitchOn
    ensures GetButtonTopic(p, ev) == GetButtonTopic(p, ev.(kind := SwitchOff))
  {
  }

  /** The multi-press action a click event corresponds to. */
  function ActionOf(kind: EventType): Buttons.ButtonAction {
    match kind
    case ClickSingle => Buttons.Single
    case ClickDouble => Buttons.Double
    case ClickTriple => Buttons.Triple
    case ClickQuad => Buttons.Quad
    case _ => Buttons.Idle
  }

  /** Both firmware generations publish a click of the same count on the same topic. */
  lemma ClicksAgreeWithMqttHelper(p: Prefs, ev: Event)
    requires ev.kind in {ClickSingle, ClickDouble, ClickTriple, ClickQuad}
    ensures GetButtonTopic(p, ev) == MqttTopics.GetButtonTopic(p, ev.btnId, ActionOf(ev.kind))
  {
    if 1 <= ev.btnId <= NumButtons {
      var d := NatToDecimal(ev.btnId);
      assert "button_" + d + "" == "button_" + d;
    }
  }

  /** The `t_*` state and command builders of `TopicHelper`; the indexed ones take 0..6 as given. */
  datatype Builder =
    | Temperature | Humidity | Battery
    | BtnPress(i: nat) | BtnLabelState(i: nat) | BtnLabelCmd(i: nat)
    | SwitchState(i: nat) | SwitchCmd(i: nat)
    | SensorIntervalState | SensorIntervalCmd
    | AwakeModeState | AwakeModeCmd | AwakeModeAvlb
    | DispMsgState | DispMsgCmd
    | ScheduleWakeupState | ScheduleWakeupCmd
    | LedBrightnessState | LedBrightnessCmd
    | Available

  predicate Indexed(b: Builder) {
    b.BtnPress? || b.BtnLabelState? || b.BtnLabelCmd? || b.SwitchState? || b.SwitchCmd?
  }

  predicate IsCmd(b: Builder) {
    b.BtnLabelCmd? || b.SwitchCmd? || b.SensorIntervalCmd? || b.AwakeModeCmd?
    || b.DispMsgCmd? || b.ScheduleWakeupCmd? || b.LedBrightnessCmd?
  }

  /** The indexed builders accept an index up to and including `NUM_BUTTONS`. */
  predicate InRange(b: Builder) {
    Indexed(b) ==> b.i <= NumButtons
  }

  /** The name each builder appends after `t_common()` or, for a command, after `t_cmd()`. */
  function Name(b: Builder): string
    requires InRange(b)
  {
    match b
    case Temperature => "temperature"
    case Humidity => "humidity"
    case Battery => "battery"
    case BtnPress(i) => "button_" + NatToDecimal(i)
    case BtnLabelState(i) => "btn_" + NatToDecimal(i) + "_label"
    case BtnLabelCmd(i) => "btn_" + NatToDecimal(i) + "_label"
    case SwitchState(i) => "switch_" + NatToDecimal(i)
    case SwitchCmd(i) => "switch_" + NatToDecimal(i)
    case SensorIntervalState => "sensor_interval"
    case SensorIntervalCmd => "sensor_interval"
    case AwakeModeState => "awake_mode"
    case AwakeModeCmd => "awake_mode"
    case AwakeModeAvlb => "awake_mode/available"
    case DispMsgState => "disp_msg"
    case DispMsgCmd => "disp_msg"
    case ScheduleWakeupState => "schedule_wakeup"
    case ScheduleWakeupCmd => "schedule_wakeup"
    case LedBrightnessState => "led_brightness"
    case LedBrightnessCmd => "led_brightness"
    case Available => "available"
  }

  /** The text after `t_common()`. */
  function Suffix(b: Builder): string
    requires InRange(b)
  {
    if IsCmd(b) then "cmd/" + Name(b) else Name(b)
  }

  /** The topic a builder returns. */
  function Build(p: Prefs, b: Builder): (t: string)
    ensures InRange(b) ==> t == Cut(MqttTopics.CommonText(p) + Suffix(b), MaxTopicLength)
    ensures !InRange(b) ==> t == ""
  {
    if Indexed(b) then BuildIndexed(p, b) else BuildFixed(p, b)
  }

  /** The per-button and per-switch builders. */
  function BuildIndexed(p: Prefs, b: Builder): (t: string)
    requires Indexed(b)
    ensures InRange(b) ==> t == Cut(MqttTopics.CommonText(p) + Suffix(b), MaxTopicLength)
    ensures !InRange(b) ==> t == ""
  {
    if b.i > NumButtons then ""
    else
      var d := NatToDecimal(b.i);
      if b.BtnPress? then MqttTopics.OnCommon2(p, "button_", d)
      else if b.BtnLabelState? then MqttTopics.OnCommon3(p, "btn_", d, "_label")
      else if b.BtnLabelCmd? then MqttTopics.OnCmd3(p, "btn_", d, "_label")
      else if b.SwitchState? then MqttTopics.OnCommon2(p, "switch_", d)
      else
        assert "switch_" + d == "switch_" + d + "";
        MqttTopics.OnCmd3(p, "switch_", d, "")
  }

  /** The builders without an index. */
  function BuildFixed(p: Prefs, b: Builder): (t: string)
    requires !Indexed(b)
    ensures t == Cut(MqttTopics.CommonText(p) + Suffix(b), MaxTopicLength)
  {
    if b.AwakeModeAvlb? then MqttTopics.Availability(p)
    else if IsCmd(b) then MqttTopics.OnCmd(p, Name(b))
    else MqttTopics.OnCommon(p, Name(b))
  }

  /** Every command topic starts with `t_cmd()`. */
  lemma CmdTopicsStartWithCmd(p: Prefs, b: Builder)
    requires IsCmd(b) && InRange(b)
    ensures MqttTopics.Cmd(p) <= Build(p, b)
  {
    MqttTopics.UnderCmd(p, Name(b));
  }

  /** The state builders: every one starts with `t_common()`, and while that fits, none with `t_cmd()`. */
  lemma StateTopicsOutsideCmd(p: Prefs, b: Builder)
    requires !IsCmd(b) && InRange(b)
    ensures MqttTopics.Common(p) <= Build(p, b)
    ensures |MqttTopics.CommonText(p)| < MaxTopicLength ==> !(MqttTopics.Cmd(p) <= Build(p, b))
  {
    var ct := MqttTopics.CommonText(p);
    MqttTopics.CutPrefix(ct, Suffix(b), MaxTopicLength);
    if |ct| < MaxTopicLength {
      var k := |ct|;
      assert MqttTopics.Cmd(p)[k] == (ct + "cmd/")[k] == 'c';
      assert Build(p, b)[k] == (ct + Suffix(b))[k] == Suffix(b)[0];
    }
  }

  /**
    The state and command builders embed the index as given, so index `i`
    here is index `i - 1` of `MQTTHelper`; index 0 is accepted too and
    yields "button_0".
   */
  lemma IndexShiftedAgainstMqttHelper(p: Prefs, i: nat)
    requires 1 <= i <= NumButtons
    ensures Build(p, BtnPress(i)) == MqttTopics.Build(p, MqttTopics.BtnPress(i - 1))
    ensures Build(p, BtnLabelState(i)) == MqttTopics.Build(p, MqttTopics.BtnLabelState(i - 1))
    ensures Build(p, BtnLabelCmd(i)) == MqttTopics.Build(p, MqttTopics.BtnLabelCmd(i - 1))
  {
    assert Suffix(BtnPress(i)) == MqttTopics.Suffix(MqttTopics.BtnPress(i - 1));
    assert Suffix(BtnLabelState(i)) == MqttTopics.Suffix(MqttTopics.BtnLabelState(i - 1));
    assert Suffix(BtnLabelCmd(i)) == MqttTopics.Suffix(MqttTopics.BtnLabelCmd(i - 1));
  }

  /** Above `NUM_BUTTONS` the indexed builders return an empty topic. */
  lemma OutOfRangeIndexEmpty(p: Prefs, i: nat)
    requires i > NumButtons
    ensures Build(p, BtnPress(i)) == "" && Build(p, BtnLabelState(i)) == "" && Build(p, BtnLabelCmd(i)) == ""
    ensures Build(p, SwitchState(i)) == "" && Build(p, SwitchCmd(i)) == ""
  {
  }

  /** The discovery config topics: `<prefix>/<component>/<unique id>/<object>/config`. */
  datatype Config =
    | BtnConfig(id: nat) | BtnDoubleConfig(id: nat) | BtnTripleConfig(id: nat) | BtnQuadConfig(id: nat)
    | SwitchConfig(id: nat) | KillSwitchConfig(id: nat)
    | TemperatureConfig | HumidityConfig | SensorIntervalConfig | BatteryConfig
    | BtnLabelConfig(idx: nat) | UserMessageConfig | ScheduleWakeupConfig
    | AwakeModeConfig | LedBrightnessConfig

  function Component(c: Config): string {
    match c
    case BtnConfig(_) => "device_automation"
    case BtnDoubleConfig(_) => "device_automation"
    case BtnTripleConfig(_) => "device_automation"
    case BtnQuadConfig(_) => "device_automation"
    case SwitchConfig(_) => "switch"
    case KillSwitchConfig(_) => "binary_sensor"
    case TemperatureConfig => "sensor"
    case HumidityConfig => "sensor"
    case SensorIntervalConfig => "number"
    case BatteryConfig => "sensor"
    case BtnLabelConfig(_) => "text"
    case UserMessageConfig => "text"
    case ScheduleWakeupConfig => "number"
    case AwakeModeConfig => "switch"
    case LedBrightnessConfig => "number"
  }

  /** The object id; `t_btn_label_config` is the one indexed builder that adds 1 to its argument. */
  function Object(c: Config): string {
    match c
    case BtnConfig(id) => "button_" + NatToDecimal(id)
    case BtnDoubleConfig(id) => "button_" + NatToDecimal(id) + "_double"
    case BtnTripleConfig(id) => "button_" + NatToDecimal(id) + "_triple"
    case BtnQuadConfig(id) => "button_" + NatToDecimal(id) + "_quad"
    case SwitchConfig(id) => "switch_" + NatToDecimal(id)
    case KillSwitchConfig(id) => "kill_switch_" + NatToDecimal(id)
    case TemperatureConfig => "temperature"
    case HumidityConfig => "humidity"
    case SensorIntervalConfig => "sensor_interval"
    case BatteryConfig => "battery"
    case BtnLabelConfig(idx) => "button_" + NatToDecimal(idx + 1) + "_label"
    case UserMessageConfig => "user_message"
    case ScheduleWakeupConfig => "schedule_wakeup"
    case AwakeModeConfig => "awake_mode"
    case LedBrightnessConfig => "led_brightness"
  }

  /** A config topic, formatted in one `snprintf` and so cut once. */
  function ConfigTopic(prefix: string, uid: string, c: Config): (t: string)
    ensures t == Cut(Join([prefix, Component(c), uid, Object(c), "config"], '/'), MaxTopicLength)
  {
    JoinFive(prefix, Component(c), uid, Object(c), "config");
    Cut(prefix + "/" + Component(c) + "/" + uid + "/" + Object(c) + "/config", MaxTopicLength)
  }

  lemma JoinFive(a: string, b: string, c: string, d: string, e: string)
    ensures Join([a, b, c, d, e], '/') == a + "/" + b + "/" + c + "/" + d + "/" + e
  {
    assert [a, b, c, d, e][1..] == [b, c, d, e];
    assert [b, c, d, e][1..] == [c, d, e];
    assert [c, d, e][1..] == [d, e];
    assert [d, e][1..] == [e];
    assert Join([d, e], '/') == d + "/" + e;
    assert Join([c, d, e], '/') == c + "/" + (d + "/" + e);
    assert Join([b, c, d, e], '/') == b + "/" + (c + "/" + (d + "/" + e));
  }

  /** Neither the component nor the object of a config topic contains a slash. */
  lemma NamesHaveNoSlash(c: Config)
    ensures '/' !in Component(c) && '/' !in Object(c)
  {
    ComponentHasNoSlash(c);
    ObjectHasNoSlash(c);
  }

  lemma ComponentHasNoSlash(c: Config)
    ensures '/' !in Component(c)
  {
  }

  lemma ObjectHasNoSlash(c: Config)
    ensures '/' !in Object(c)
  {
    match c
    case BtnConfig(id) => NoSlashAround("button_", id, "");
    case BtnDoubleConfig(id) => NoSlashAround("button_", id, "_double");
    case BtnTripleConfig(id) => NoSlashAround("button_", id, "_triple");
    case BtnQuadConfig(id) => NoSlashAround("button_", id, "_quad");
    case SwitchConfig(id) => NoSlashAround("switch_", id, "");
    case KillSwitchConfig(id) => NoSlashAround("kill_switch_", id, "");
    case BtnLabelConfig(idx) => NoSlashAround("button_", idx + 1, "_label");
    case _ =>
  }

  lemma NoSlashAround(head: string, n: nat, tail: string)
    requires '/' !in head && '/' !in tail
    ensures '/' !in head + NatToDecimal(n) + tail
    ensures '/' !in head + NatToDecimal(n)
  {
    var d := NatToDecimal(n);
    assert forall k :: 0 <= k < |d| ==> IsDigit(d[k]);
  }

  /**
    With a slash-free discovery prefix and unique id, and a topic that fits,
    the topic splits at '/' into exactly prefix, component, unique id, object
    and "config".
   */
  lemma ConfigTopicShape(prefix: string, uid: string, c: Config)
    requires '/' !in prefix && '/' !in uid
    requires |Join([prefix, Component(c), uid, Object(c), "config"], '/')| <= MaxTopicLength
    ensures Split(ConfigTopic(prefix, uid, c), '/') == [prefix, Component(c), uid, Object(c), "config"]
  {
    NamesHaveNoSlash(c);
    SplitFits([prefix, Component(c), uid, Object(c), "config"]);
  }

  /** Slash-free parts joined by slashes, if the result fits, split back into the same parts. */
  lemma SplitFits(parts: seq<string>)
    requires |parts| > 0 && forall k :: 0 <= k < |parts| ==> '/' !in parts[k]
    requires |Join(parts, '/')| <= MaxTopicLength
    ensures Split(Cut(Join(parts, '/'), MaxTopicLength), '/') == parts
  {
    var j := Join(parts, '/');
    assert Cut(j, MaxTopicLength) == j[..|j|] == j;
    SplitJoin(parts, '/');
  }
}
