/**
  The decision logic of `App` in src/app.cpp: the MQTT command callback
  `_mqtt_callback`, the pin-to-button-id map of `_begin_buttons`, and the
  failed-connection counter of the sleep-mode state machine. Publishing,
  saving and the sensor readings are recorded as effects; the topics are
  those `MQTTHelper` builds from the user preferences.
 */
module App {
  import opened Wrappers
  import opened Text
  import StaticStrings
  import UserStore
  import PersistedStore
  import DeviceState
  import MqttTopics

  // ---------------------------------------------------------------- atoi

  /** `isspace` in the C locale. */
  predicate IsSpace(c: char) {
    c == ' ' || c == '\t' || c == '\n' || c == '\U{B}' || c == '\U{C}' || c == '\r'
  }

  /** The longest prefix of `s` made of decimal digits. */
  function DigitPrefix(s: string): (d: string)
    ensures AllDigits(d) && d <= s
    ensures |d| < |s| ==> !IsDigit(s[|d|])
  {
    if |s| > 0 && IsDigit(s[0]) then [s[0]] + DigitPrefix(s[1..]) else []
  }

  /**
    `atoi`: leading white space, an optional sign, then the longest run of
    digits; anything else yields 0. The value is unbounded here.
   */
  function Atoi(s: string): (r: int)
    ensures r < 0 ==> '-' in s
    ensures |s| > 0 && IsLetter(s[0]) ==> r == 0
  {
    if |s| > 0 && IsSpace(s[0]) then Atoi(s[1..])
    else if |s| > 0 && s[0] == '-' then -(DecimalValue(DigitPrefix(s[1..])) as int)
    else if |s| > 0 && s[0] == '+' then DecimalValue(DigitPrefix(s[1..]))
    else DecimalValue(DigitPrefix(s))
  }

  lemma {:induction false} DigitPrefixOfDigits(s: string)
    requires AllDigits(s)
    ensures DigitPrefix(s) == s
  {
    if |s| > 0 {
      DigitPrefixOfDigits(s[1..]);
      assert [s[0]] + s[1..] == s;
    }
  }

  /** `atoi` reads back the decimal text of any number. */
  lemma AtoiOfDecimal(n: nat)
    ensures Atoi(NatToDecimal(n)) == n
  {
    var s := NatToDecimal(n);
    assert IsDigit(s[0]);
    DigitPrefixOfDigits(s);
    DecimalRoundTrip(n);
  }

  /** Conversion of an `int` to `uint16_t`: the value modulo 2^16. */
  function ToUInt16(x: int): (r: nat)
    ensures r < 0x1_0000
    ensures 0 <= x < 0x1_0000 ==> r == x
    ensures r == x || r == x + 0x1_0000 || r == x - 0x1_0000 || x < -0x1_0000 || x >= 0x2_0000
  {
    x % 0x1_0000
  }

  // ---------------------------------------------------------------- state

  const SenIntervalMin: nat := 1
  const SenIntervalMax: nat := 30

  /** The `Flags` of the device state that the callback touches. */
  datatype Flags = Flags(displayRedraw: bool, awakeMode: bool)

  datatype App = App(user: UserStore.User, persisted: PersistedStore.Persisted, flags: Flags)

  /** What the callback does outside the device state. */
  datatype Effect =
    | Publish(topic: string, payload: string, retained: bool)
    | SaveAll
    | UpdateDiscovery
    | PublishSensors

  datatype Reply = Reply(app: App, effects: seq<Effect>)

  /** The preferences the topics are built from. */
  function Prefs(a: App): MqttTopics.Prefs {
    MqttTopics.Prefs(a.user.baseTopic, a.user.deviceName)
  }

  function Topic(a: App, b: MqttTopics.Builder): string {
    MqttTopics.Build(Prefs(a), b)
  }

  // ---------------------------------------------------------------- the callback

  /** The value the interval command carries: `atoi(payload)` stored in a `uint16_t`. */
  function Minutes(payload: string): (mins: nat)
    ensures mins < 0x1_0000
    ensures 0 <= Atoi(payload) < 0x1_0000 ==> mins == Atoi(payload)
    ensures -0x1_0000 <= Atoi(payload) < 0 ==> mins == Atoi(payload) + 0x1_0000
  {
    ToUInt16(Atoi(payload))
  }

  predicate IntervalAccepted(mins: nat) {
    SenIntervalMin <= mins <= SenIntervalMax
  }

  /** The sensor interval branch. */
  function IntervalCommand(a: App, payload: string): (r: Reply)
    requires UserStore.UserWf(a.user)
    ensures Prefs(r.app) == Prefs(a) && r.app.persisted == a.persisted && r.app.flags == a.flags
    ensures |r.effects| > 0 && r.effects[|r.effects| - 1] == Publish(Topic(a, MqttTopics.SensorIntervalCmd), "", true)
  {
    var mins := Minutes(payload);
    var clear := Publish(Topic(a, MqttTopics.SensorIntervalCmd), "", true);
    if IntervalAccepted(mins) then
      var a2 := a.(user := a.user.(sensorInterval := mins));
      Reply(a2, [SaveAll, Publish(Topic(a, MqttTopics.SensorIntervalState), NatToDecimal(mins), true),
                 UpdateDiscovery, PublishSensors, clear])
    else
      Reply(a, [clear])
  }

  /** The label branch for button index `i`. */
  function LabelCommand(a: App, i: nat, payload: string): (r: Reply)
    requires UserStore.UserWf(a.user) && i < UserStore.NumButtons
    ensures UserStore.UserWf(r.app.user) && Prefs(r.app) == Prefs(a) && r.app.persisted == a.persisted
    ensures r.effects == [Publish(Topic(a, MqttTopics.BtnLabelState(i)), DeviceState.GetBtnLabel(r.app.user, i), true),
                          Publish(Topic(a, MqttTopics.BtnLabelCmd(i)), "", true)]
  {
    var u := DeviceState.SetBtnLabel(a.user, i, payload);
    var a2 := a.(user := u, flags := a.flags.(displayRedraw := true));
    Reply(a2, [Publish(Topic(a, MqttTopics.BtnLabelState(i)), DeviceState.GetBtnLabel(u, i), true),
               Publish(Topic(a, MqttTopics.BtnLabelCmd(i)), "", true)])
  }

  /** The awake mode branch. */
  function AwakeCommand(a: App, payload: string): (r: Reply)
    ensures r.app.user == a.user && r.app.flags.displayRedraw == a.flags.displayRedraw
    ensures |r.effects| > 0 && r.effects[|r.effects| - 1] == Publish(Topic(a, MqttTopics.AwakeModeCmd), "", true)
  {
    var clear := Publish(Topic(a, MqttTopics.AwakeModeCmd), "", true);
    if payload == "ON" then
      var a2 := a.(persisted := a.persisted.(userAwakeMode := true), flags := a.flags.(awakeMode := true));
      Reply(a2, [SaveAll, Publish(Topic(a, MqttTopics.AwakeModeState), "ON", true), clear])
    else if payload == "OFF" then
      var a2 := a.(persisted := a.persisted.(userAwakeMode := false));
      Reply(a2, [SaveAll, Publish(Topic(a, MqttTopics.AwakeModeState), "OFF", true), clear])
    else
      Reply(a, [clear])
  }

  /** `topic` is the command topic of label `j`. */
  predicate IsLabelTopic(a: App, topic: string, j: nat) {
    topic == Topic(a, MqttTopics.BtnLabelCmd(j))
  }

  /** The first label index from `i` on whose command topic is `topic`. */
  function FirstLabelMatch(a: App, topic: string, i: nat): (r: Option<nat>)
    requires i <= UserStore.NumButtons
    ensures r.Some? ==> i <= r.value < UserStore.NumButtons && IsLabelTopic(a, topic, r.value)
    ensures r.Some? ==> forall j | i <= j < r.value :: !IsLabelTopic(a, topic, j)
    ensures r.None? ==> forall j | i <= j < UserStore.NumButtons :: !IsLabelTopic(a, topic, j)
    decreases UserStore.NumButtons - i
  {
    if i == UserStore.NumButtons then None
    else if IsLabelTopic(a, topic, i) then Some(i)
    else FirstLabelMatch(a, topic, i + 1)
  }

  /** `_mqtt_callback`: exact topic comparison, interval first, then the labels in order, then awake mode. */
  function Callback(a: App, topic: string, payload: string): (r: Reply)
    requires UserStore.UserWf(a.user)
    ensures UserStore.UserWf(r.app.user) && Prefs(r.app) == Prefs(a)
    ensures !IsCommandTopic(a, topic) ==> r == Reply(a, [])
  {
    if topic == Topic(a, MqttTopics.SensorIntervalCmd) then IntervalCommand(a, payload)
    else
      var m := FirstLabelMatch(a, topic, 0);
      if m.Some? then LabelCommand(a, m.value, payload)
      else if topic == Topic(a, MqttTopics.AwakeModeCmd) then AwakeCommand(a, payload)
      else Reply(a, [])
  }

  /** A topic the callback handles. */
  predicate IsCommandTopic(a: App, topic: string) {
    || topic == Topic(a, MqttTopics.SensorIntervalCmd)
    || (exists i | 0 <= i < UserStore.NumButtons :: IsLabelTopic(a, topic, i))
    || topic == Topic(a, MqttTopics.AwakeModeCmd)
  }

  /**
    A handled command always ends by publishing an empty retained message on
    its own topic, which clears it at the broker; any other topic changes
    nothing and publishes nothing.
   */
  lemma CommandAlwaysCleared(a: App, topic: string, payload: string)
    requires UserStore.UserWf(a.user)
    ensures var r := Callback(a, topic, payload);
      IsCommandTopic(a, topic) ==> |r.effects| > 0 && r.effects[|r.effects| - 1] == Publish(topic, "", true)
    ensures !IsCommandTopic(a, topic) ==> Callback(a, topic, payload) == Reply(a, [])
  {
    var m := FirstLabelMatch(a, topic, 0);
    if topic != Topic(a, MqttTopics.SensorIntervalCmd) && m.Some? {
      var r := LabelCommand(a, m.value, payload);
      assert r.effects[|r.effects| - 1] == Publish(topic, "", true);
    }
  }

  /**
    The interval command: the interval becomes the payload's value exactly
    when that value, taken as a `uint16_t`, lies in 1..30, and nothing else
    of the state changes. An accepted value is saved and published back in
    decimal.
   */
  lemma IntervalCallback(a: App, payload: string)
    requires UserStore.UserWf(a.user)
    ensures var r := Callback(a, Topic(a, MqttTopics.SensorIntervalCmd), payload);
      var mins := Minutes(payload);
      && (IntervalAccepted(mins) ==>
            && r.app == a.(user := a.user.(sensorInterval := mins))
            && SaveAll in r.effects
            && Publish(Topic(a, MqttTopics.SensorIntervalState), NatToDecimal(mins), true) in r.effects)
      && (!IntervalAccepted(mins) ==> r == Reply(a, [Publish(Topic(a, MqttTopics.SensorIntervalCmd), "", true)]))
  {
  }

  /** An interval written in decimal, 1 to 30, is taken as is. */
  lemma DecimalIntervalAccepted(a: App, n: nat)
    requires UserStore.UserWf(a.user) && SenIntervalMin <= n <= SenIntervalMax
    ensures Callback(a, Topic(a, MqttTopics.SensorIntervalCmd), NatToDecimal(n)).app.user.sensorInterval == n
  {
    AtoiOfDecimal(n);
  }

  /**
    A label command for button `i`, when no earlier topic in the callback's
    order equals it: label `i` becomes the payload cut to 15 characters, the
    others stay, the display is marked for redraw, the new label is published
    to the label state topic, and nothing is saved.
   */
  lemma LabelCallback(a: App, i: nat, payload: string)
    requires UserStore.UserWf(a.user) && i < UserStore.NumButtons
    requires Topic(a, MqttTopics.BtnLabelCmd(i)) != Topic(a, MqttTopics.SensorIntervalCmd)
    requires forall j | 0 <= j < i :: Topic(a, MqttTopics.BtnLabelCmd(i)) != Topic(a, MqttTopics.BtnLabelCmd(j))
    ensures var r := Callback(a, Topic(a, MqttTopics.BtnLabelCmd(i)), payload);
      var txt := StaticStrings.Cut(payload, UserStore.LabelCap);
      && r.app.user.labels == a.user.labels[i := txt]
      && r.app.user.(labels := a.user.labels) == a.user
      && r.app.persisted == a.persisted && r.app.flags == a.flags.(displayRedraw := true)
      && r.effects == [Publish(Topic(a, MqttTopics.BtnLabelState(i)), txt, true),
                       Publish(Topic(a, MqttTopics.BtnLabelCmd(i)), "", true)]
      && SaveAll !in r.effects
  {
    var topic := Topic(a, MqttTopics.BtnLabelCmd(i));
    var m := FirstLabelMatch(a, topic, 0);
    assert IsLabelTopic(a, topic, i);
    assert forall j | 0 <= j < i :: !IsLabelTopic(a, topic, j);
    assert m == Some(i);
  }

  /**
    The awake mode command, when its topic is not shadowed by an earlier
    one: "ON" sets both the persisted user awake mode and the awake flag,
    "OFF" clears only the persisted one, anything else changes nothing.
   */
  lemma AwakeCallback(a: App, payload: string)
    requires UserStore.UserWf(a.user)
    requires Topic(a, MqttTopics.AwakeModeCmd) != Topic(a, MqttTopics.SensorIntervalCmd)
    requires forall j | 0 <= j < UserStore.NumButtons :: Topic(a, MqttTopics.AwakeModeCmd) != Topic(a, MqttTopics.BtnLabelCmd(j))
    ensures var r := Callback(a, Topic(a, MqttTopics.AwakeModeCmd), payload);
      && (payload == "ON" ==> r.app == a.(persisted := a.persisted.(userAwakeMode := true), flags := a.flags.(awakeMode := true)))
      && (payload == "OFF" ==> r.app == a.(persisted := a.persisted.(userAwakeMode := false)))
      && (payload != "ON" && payload != "OFF" ==> r == Reply(a, [Publish(Topic(a, MqttTopics.AwakeModeCmd), "", true)]))
  {
    var m := FirstLabelMatch(a, Topic(a, MqttTopics.AwakeModeCmd), 0);
  }

  // ---------------------------------------------------------------- topic shadowing

  /** The text after `t_common()` of each command topic. */
  lemma CommandSuffixes(a: App, i: nat)
    requires i < UserStore.NumButtons
    ensures MqttTopics.Suffix(MqttTopics.SensorIntervalCmd) == "cmd/sensor_interval"
    ensures MqttTopics.Suffix(MqttTopics.AwakeModeCmd) == "cmd/awake_mode"
    ensures MqttTopics.Suffix(MqttTopics.BtnLabelCmd(i)) == "cmd/btn_" + [DigitChar(i + 1)] + "_label"
  {
  }

  /** Room left in a topic after `t_common()` for the longest command suffix. */
  predicate ShortPrefix(a: App) {
    |MqttTopics.CommonText(Prefs(a))| + 19 <= MqttTopics.MaxTopicLength
  }

  /** A command topic that fits is `t_common()` followed by its suffix, uncut. */
  lemma TopicIsText(a: App, b: MqttTopics.Builder) returns (t: string)
    requires ShortPrefix(a) && MqttTopics.InRange(b) && |MqttTopics.Suffix(b)| <= 19
    ensures t == Topic(a, b) == MqttTopics.CommonText(Prefs(a)) + MqttTopics.Suffix(b)
  {
    t := MqttTopics.CommonText(Prefs(a)) + MqttTopics.Suffix(b);
  }

  /**
    When base topic and device name leave room for the suffixes, the eight
    command topics are pairwise different, so each command reaches its own
    branch of the callback.
   */
  lemma CommandTopicsDistinct(a: App, i: nat, j: nat)
    requires ShortPrefix(a) && i < UserStore.NumButtons && j < UserStore.NumButtons
    ensures Topic(a, MqttTopics.BtnLabelCmd(i)) != Topic(a, MqttTopics.SensorIntervalCmd)
    ensures Topic(a, MqttTopics.AwakeModeCmd) != Topic(a, MqttTopics.SensorIntervalCmd)
    ensures Topic(a, MqttTopics.AwakeModeCmd) != Topic(a, MqttTopics.BtnLabelCmd(i))
    ensures i != j ==> Topic(a, MqttTopics.BtnLabelCmd(i)) != Topic(a, MqttTopics.BtnLabelCmd(j))
  {
    var ct := MqttTopics.CommonText(Prefs(a));
    CommandSuffixes(a, i);
    CommandSuffixes(a, j);
    var si := TopicIsText(a, MqttTopics.SensorIntervalCmd);
    var aw := TopicIsText(a, MqttTopics.AwakeModeCmd);
    var li := TopicIsText(a, MqttTopics.BtnLabelCmd(i));
    var lj := TopicIsText(a, MqttTopics.BtnLabelCmd(j));
    var k := |ct| + 4;
    assert si[k] == 's' && aw[k] == 'a' && li[k] == 'b';
    assert li[k + 4] == DigitChar(i + 1) && lj[k + 4] == DigitChar(j + 1);
  }

  /**
    Topics are `StaticString<256>`: when base topic and device name fill the
    topic, every command topic is cut to the same text, and the first
    comparison, the interval's, takes every command.
   */
  lemma LongPrefixShadowsCommands(a: App, i: nat, payload: string)
    requires UserStore.UserWf(a.user) && i < UserStore.NumButtons
    requires |MqttTopics.CommonText(Prefs(a))| >= MqttTopics.MaxTopicLength
    ensures Topic(a, MqttTopics.BtnLabelCmd(i)) == Topic(a, MqttTopics.SensorIntervalCmd)
    ensures Topic(a, MqttTopics.AwakeModeCmd) == Topic(a, MqttTopics.SensorIntervalCmd)
    ensures Callback(a, Topic(a, MqttTopics.AwakeModeCmd), payload) == IntervalCommand(a, payload)
  {
    var ct := MqttTopics.CommonText(Prefs(a));
    var n := MqttTopics.MaxTopicLength;
    assert (ct + MqttTopics.Suffix(MqttTopics.BtnLabelCmd(i)))[..n] == ct[..n];
    assert (ct + MqttTopics.Suffix(MqttTopics.SensorIntervalCmd))[..n] == ct[..n];
    assert (ct + MqttTopics.Suffix(MqttTopics.AwakeModeCmd))[..n] == ct[..n];
  }

  // ---------------------------------------------------------------- buttons

  /**
    `_begin_buttons`: the pairs (pin, id) in the order the buttons are begun;
    a pin is given by its index in `BTN1_PIN` .. `BTN6_PIN`.
   */
  const ButtonMap: seq<(nat, nat)> := [(0, 1), (5, 2), (1, 3), (4, 4), (2, 5), (3, 6)]

  /** The id of the button on pin index `k`. */
  function IdOfPin(k: nat): (id: nat)
    requires k < 6
    ensures 1 <= id <= 6
    ensures exists n | 0 <= n < 6 :: ButtonMap[n] == (k, id)
  {
    if k == 0 then assert ButtonMap[0] == (0, 1); 1
    else if k == 5 then assert ButtonMap[1] == (5, 2); 2
    else if k == 1 then assert ButtonMap[2] == (1, 3); 3
    else if k == 4 then assert ButtonMap[3] == (4, 4); 4
    else if k == 2 then assert ButtonMap[4] == (2, 5); 5
    else assert ButtonMap[5] == (3, 6); 6
  }

  /** The map is one to one: every pin and every id 1..6 occurs exactly once. */
  lemma ButtonMapIsBijection()
    ensures forall n, m | 0 <= n < m < 6 :: ButtonMap[n].0 != ButtonMap[m].0 && ButtonMap[n].1 != ButtonMap[m].1
    ensures forall n | 0 <= n < 6 :: ButtonMap[n].0 < 6 && ButtonMap[n].1 == n + 1
    ensures forall j, k | 0 <= j < 6 && 0 <= k < 6 :: j != k ==> IdOfPin(j) != IdOfPin(k)
  {
  }

  // ---------------------------------------------------------------- connection failures

  const MaxFailedConnections: nat := 5

  datatype BootCause = Reset | Timer | Button

  /** The two persisted fields the connection outcome touches. */
  datatype Counter = Counter(failedConnections: nat, checkConnection: bool)

  /**
    `AWAIT_NET_CONNECT`: a connection resets the failure count; a timeout
    after a timer wake-up counts one failure in the `uint8_t`, and the fifth
    one resets the count and raises `check_connection`.
   */
  function NetConnect(c: Counter, cause: BootCause, connected: bool, timedOut: bool): (r: Counter)
    ensures connected ==> r.failedConnections == 0 && r.checkConnection == c.checkConnection
    ensures !connected && (!timedOut || cause != Timer) ==> r == c
    ensures c.checkConnection ==> r.checkConnection
    ensures r.checkConnection && !c.checkConnection ==> timedOut && cause == Timer && r.failedConnections == 0
  {
    if connected then c.(failedConnections := 0)
    else if timedOut && cause == Timer then
      var f := (c.failedConnections + 1) % 256;
      if f >= MaxFailedConnections then Counter(0, true)
      else c.(failedConnections := f)
    else c
  }

  /** `k` timer wake-ups in a row that each time out. */
  function Timeouts(c: Counter, k: nat): Counter {
    if k == 0 then c else NetConnect(Timeouts(c, k - 1), Timer, false, true)
  }

  /**
    From a count below five, `k` timeouts leave the count at the total
    modulo five and raise `check_connection` once the total reaches five;
    the count never reaches five.
   */
  lemma {:induction false} TimeoutsCount(c: Counter, k: nat)
    requires c.failedConnections < MaxFailedConnections
    ensures Timeouts(c, k).failedConnections == (c.failedConnections + k) % MaxFailedConnections
    ensures Timeouts(c, k).checkConnection == (c.checkConnection || c.failedConnections + k >= MaxFailedConnections)
  {
    if k > 0 {
      var q := Timeouts(c, k - 1);
      TimeoutsCount(c, k - 1);
      TimeoutStep(q);
      ModSucc(c.failedConnections + k - 1);
    }
  }

  /** One timeout from a count below five. */
  lemma TimeoutStep(q: Counter)
    requires q.failedConnections < MaxFailedConnections
    ensures var r := NetConnect(q, Timer, false, true);
      r.failedConnections == (q.failedConnections + 1) % MaxFailedConnections
      && r.checkConnection == (q.checkConnection || q.failedConnections + 1 >= MaxFailedConnections)
  {
    var f := q.failedConnections + 1;
    assert f % 256 == f;
    if f < MaxFailedConnections {
      assert f % MaxFailedConnections == f;
    }
  }

  lemma ModSucc(n: nat)
    ensures (n % MaxFailedConnections + 1) % MaxFailedConnections == (n + 1) % MaxFailedConnections
    ensures n % MaxFailedConnections + 1 >= MaxFailedConnections <==> (n + 1) % MaxFailedConnections == 0
  {
  }
}
