/**
  The ESP32 `Preferences` store as src/state.cpp uses it: a map per
  namespace from key to a typed value. A `get` of a missing key, or of a
  key holding a value of another type, yields the caller's default.
 */
module Preferences {
  import Clock

  datatype Value = BoolV(b: bool) | UIntV(n: nat) | StrV(s: string)

  /**
    A namespace, indexed by the setting a key belongs to; the key strings
    themselves are given by `UserKeyName` and `PersistedKeyName`, which are
    one to one, so two settings never share a stored entry.
   */
  type Namespace<K> = map<K, Value>

  /** `getString`: the stored text, or the default when there is none. */
  function GetString<K>(ns: Namespace<K>, key: K, dflt: string): (r: string)
    ensures r == dflt || (key in ns && ns[key] == StrV(r))
  {
    if key in ns && ns[key].StrV? then ns[key].s else dflt
  }

  /** `getUInt`: the stored number as a `uint32_t`, or the default when there is none. */
  function GetUInt<K>(ns: Namespace<K>, key: K, dflt: nat): (r: nat)
    ensures r == dflt || (key in ns && ns[key].UIntV? && r == ns[key].n % Clock.UInt32Limit)
    ensures dflt < Clock.UInt32Limit ==> r < Clock.UInt32Limit
  {
    if key in ns && ns[key].UIntV? then ns[key].n % Clock.UInt32Limit else dflt
  }

  /** `getBool`: the stored flag, or the default when there is none. */
  function GetBool<K>(ns: Namespace<K>, key: K, dflt: bool): (r: bool)
    ensures r == dflt || (key in ns && ns[key] == BoolV(r))
  {
    if key in ns && ns[key].BoolV? then ns[key].b else dflt
  }

  /** A get reads back what a put of the same type stored, whatever the default. */
  lemma GetAfterPut<K>(ns: Namespace<K>, key: K, s: string, n: nat, b: bool, dflt: string, dn: nat, db: bool)
    ensures GetString(ns[key := StrV(s)], key, dflt) == s
    ensures GetUInt(ns[key := UInt(n)], key, dn) == n % Clock.UInt32Limit
    ensures GetBool(ns[key := BoolV(b)], key, db) == b
  {
  }

  /** A put leaves every other key's reading alone. */
  lemma GetOtherAfterPut<K>(ns: Namespace<K>, key: K, other: K, v: Value, dflt: string, dn: nat, db: bool)
    requires other != key
    ensures GetString(ns[key := v], other, dflt) == GetString(ns, other, dflt)
    ensures GetUInt(ns[key := v], other, dn) == GetUInt(ns, other, dn)
    ensures GetBool(ns[key := v], other, db) == GetBool(ns, other, db)
  {
  }

  /** A get of another type's value falls back to the default. */
  lemma GetWrongType<K>(ns: Namespace<K>, key: K, n: nat, dflt: string)
    requires key in ns && ns[key] == UIntV(n)
    ensures GetString(ns, key, dflt) == dflt
  {
  }

  /** `putUInt` stores a `uint32_t`. */
  function UInt(n: nat): (v: Value)
    ensures v.UIntV? && v.n < Clock.UInt32Limit
    ensures n < Clock.UInt32Limit ==> v == UIntV(n)
  {
    UIntV(n % Clock.UInt32Limit)
  }
}

/** The user settings of src/state.cpp: `save_user` and `load_user`. */
module UserStore {
  import opened Preferences
  import StaticStrings
  import Clock

  const NumButtons: nat := 6
  /** `BTN_LABEL_MAXLEN`: a `ButtonLabel` keeps at most this many characters. */
  const LabelCap: nat := 15

  /** A `DeviceName` keeps at most this many characters. */
  const DeviceNameCap: nat := 20
  const DeviceNameDefault := "Home Buttons"
  const MqttPortDefault: nat := 1883
  const BaseTopicDefault := "homebuttons"
  const DiscoveryPrefixDefault := "homeassistant"
  const SensorIntervalDefault: nat := 10
  const UInt16Limit: nat := 0x1_0000

  /** `BTN_<n>_LABEL_DFLT` for button index `i`. */
  function LabelDefault(i: nat): string
    requires i < NumButtons
  {
    ["B1", "B2", "B3", "B4", "B5", "B6"][i]
  }
  /** `UserPreferences`: the labels are `ButtonLabel`s, the interval a `uint16_t`. */
  datatype User = User(
    deviceName: string, server: string, port: nat, mqttUser: string, password: string,
    baseTopic: string, discoveryPrefix: string, labels: seq<string>, sensorInterval: nat)

  predicate UserWf(u: User) {
    |u.deviceName| <= DeviceNameCap
    && |u.labels| == NumButtons && (forall i | 0 <= i < |u.labels| :: |u.labels[i]| <= LabelCap)
    && u.port < Clock.UInt32Limit && u.sensorInterval < UInt16Limit
  }

  /** The settings `save_user` writes, one per key. */
  datatype UserKey =
    | DeviceNameKey | ServerKey | PortKey | UserNameKey | PasswordKey | BaseTopicKey | DiscoveryKey
    | Btn1Key | Btn2Key | Btn3Key | Btn4Key | Btn5Key | Btn6Key | IntervalKey

  const UserKeys: set<UserKey> := {
    DeviceNameKey, ServerKey, PortKey, UserNameKey, PasswordKey, BaseTopicKey, DiscoveryKey,
    Btn1Key, Btn2Key, Btn3Key, Btn4Key, Btn5Key, Btn6Key, IntervalKey}

  /** The key string under which each user setting is stored. */
  function UserKeyName(k: UserKey): string {
    match k
    case DeviceNameKey => "device_name" case ServerKey => "mqtt_srv" case PortKey => "mqtt_port"
    case UserNameKey => "mqtt_user" case PasswordKey => "mqtt_pass" case BaseTopicKey => "base_topic"
    case DiscoveryKey => "disc_prefix" case Btn1Key => "btn1_txt" case Btn2Key => "btn2_txt"
    case Btn3Key => "btn3_txt" case Btn4Key => "btn4_txt" case Btn5Key => "btn5_txt"
    case Btn6Key => "btn6_txt" case IntervalKey => "sen_itv"
  }

  /** No two user settings share a key. */
  lemma UserKeysDistinct()
    ensures forall a: UserKey, b: UserKey :: UserKeyName(a) == UserKeyName(b) ==> a == b
  {
  }

  /** The key of button label `i`. */
  function LabelKey(i: nat): UserKey
    requires i < NumButtons
  {
    [Btn1Key, Btn2Key, Btn3Key, Btn4Key, Btn5Key, Btn6Key][i]
  }

  /** The value `save_user` writes under a key. */
  function UserField(u: User, k: UserKey): Value
    requires |u.labels| == NumButtons
  {
    match k
    case DeviceNameKey => StrV(u.deviceName) case ServerKey => StrV(u.server) case PortKey => UInt(u.port)
    case UserNameKey => StrV(u.mqttUser) case PasswordKey => StrV(u.password) case BaseTopicKey => StrV(u.baseTopic)
    case DiscoveryKey => StrV(u.discoveryPrefix) case Btn1Key => StrV(u.labels[0]) case Btn2Key => StrV(u.labels[1])
    case Btn3Key => StrV(u.labels[2]) case Btn4Key => StrV(u.labels[3]) case Btn5Key => StrV(u.labels[4])
    case Btn6Key => StrV(u.labels[5]) case IntervalKey => UInt(u.sensorInterval)
  }

  /** `save_user`: one put per setting, which overwrites that setting's entry and no other. */
  function SaveUser(ns: Namespace<UserKey>, u: User): (r: Namespace<UserKey>)
    requires |u.labels| == NumButtons
    ensures forall k | k in UserKeys :: k in r && r[k] == UserField(u, k)
  {
    ns + map k | k in UserKeys :: UserField(u, k)
  }

  /** `_load_to_static_string` into a `ButtonLabel`: the stored text, cut to the label's capacity. */
  function LoadLabel(ns: Namespace<UserKey>, i: nat): (l: string)
    requires i < NumButtons
    ensures |l| <= LabelCap
  {
    StaticStrings.Cut(GetString(ns, LabelKey(i), LabelDefault(i)), LabelCap)
  }

  /** The default device name: `DEVICE_NAME_DFLT`, a space and the random id, as a `DeviceName`. */
  function DefaultDeviceName(randomId: string): (r: string)
    ensures |r| <= DeviceNameCap
    ensures |randomId| <= DeviceNameCap - |DeviceNameDefault| - 1 ==> r == DeviceNameDefault + " " + randomId
  {
    StaticStrings.Cut(DeviceNameDefault + " " + randomId, DeviceNameCap)
  }

  /**
    `load_user`, given the factory random id used in the default device
    name. The device name and the labels are loaded into static strings and
    cut to their capacity; the interval is read as a `uint32_t` and kept as a
    `uint16_t`.
   */
  function LoadUser(ns: Namespace<UserKey>, randomId: string): (u: User)
    ensures UserWf(u)
    ensures u.deviceName == StaticStrings.Cut(GetString(ns, DeviceNameKey, DefaultDeviceName(randomId)), DeviceNameCap)
  {
    User(
      StaticStrings.Cut(GetString(ns, DeviceNameKey, DefaultDeviceName(randomId)), DeviceNameCap),
      GetString(ns, ServerKey, ""),
      GetUInt(ns, PortKey, MqttPortDefault),
      GetString(ns, UserNameKey, ""),
      GetString(ns, PasswordKey, ""),
      GetString(ns, BaseTopicKey, BaseTopicDefault),
      GetString(ns, DiscoveryKey, DiscoveryPrefixDefault),
      [LoadLabel(ns, 0), LoadLabel(ns, 1), LoadLabel(ns, 2), LoadLabel(ns, 3), LoadLabel(ns, 4), LoadLabel(ns, 5)],
      GetUInt(ns, IntervalKey, SensorIntervalDefault) % UInt16Limit)
  }

  /**
    A stored device name longer than the `StaticString<20>` it is loaded
    into comes back as its first twenty characters.
   */
  lemma LongDeviceNameCut(ns: Namespace<UserKey>, randomId: string, name: string)
    requires DeviceNameKey in ns && ns[DeviceNameKey] == StrV(name) && |name| > DeviceNameCap
    ensures LoadUser(ns, randomId).deviceName == name[..DeviceNameCap]
    ensures |LoadUser(ns, randomId).deviceName| == DeviceNameCap
  {
    assert GetString(ns, DeviceNameKey, DefaultDeviceName(randomId)) == name;
  }

  /** Reading back a namespace that holds every setting of `u` under its key gives `u`. */
  lemma LoadInvertsSettings(s: Namespace<UserKey>, u: User, randomId: string)
    requires UserWf(u)
    requires forall k | k in UserKeys :: k in s && s[k] == UserField(u, k)
    ensures LoadUser(s, randomId) == u
  {
    assert s[DeviceNameKey] == UserField(u, DeviceNameKey) && s[ServerKey] == UserField(u, ServerKey);
    assert s[PortKey] == UserField(u, PortKey) && s[UserNameKey] == UserField(u, UserNameKey);
    assert s[PasswordKey] == UserField(u, PasswordKey) && s[BaseTopicKey] == UserField(u, BaseTopicKey);
    assert s[DiscoveryKey] == UserField(u, DiscoveryKey) && s[IntervalKey] == UserField(u, IntervalKey);
    assert GetUInt(s, IntervalKey, SensorIntervalDefault) == u.sensorInterval;
    assert u.sensorInterval % UInt16Limit == u.sensorInterval;
    LoadInvertsLabels(s, u);
  }

  /** One label reads back as stored, since it already fits the capacity. */
  lemma LoadLabelInverts(s: Namespace<UserKey>, i: nat, txt: string)
    requires i < NumButtons && |txt| <= LabelCap
    requires LabelKey(i) in s && s[LabelKey(i)] == StrV(txt)
    ensures LoadLabel(s, i) == txt
  {
  }

  /** The label part of `LoadInvertsSettings`. */
  lemma LoadInvertsLabels(s: Namespace<UserKey>, u: User)
    requires UserWf(u)
    requires forall k | k in UserKeys :: k in s && s[k] == UserField(u, k)
    ensures [LoadLabel(s, 0), LoadLabel(s, 1), LoadLabel(s, 2), LoadLabel(s, 3), LoadLabel(s, 4), LoadLabel(s, 5)] == u.labels
  {
    assert s[Btn1Key] == UserField(u, Btn1Key) && s[Btn2Key] == UserField(u, Btn2Key) && s[Btn3Key] == UserField(u, Btn3Key);
    assert s[Btn4Key] == UserField(u, Btn4Key) && s[Btn5Key] == UserField(u, Btn5Key) && s[Btn6Key] == UserField(u, Btn6Key);
    LoadLabelInverts(s, 0, u.labels[0]);
    LoadLabelInverts(s, 1, u.labels[1]);
    LoadLabelInverts(s, 2, u.labels[2]);
    LoadLabelInverts(s, 3, u.labels[3]);
    LoadLabelInverts(s, 4, u.labels[4]);
    LoadLabelInverts(s, 5, u.labels[5]);
  }

  /** Loading what was saved gives back the same user settings, whatever the namespace held before. */
  lemma UserRoundTrip(ns: Namespace<UserKey>, u: User, randomId: string)
    requires UserWf(u)
    ensures LoadUser(SaveUser(ns, u), randomId) == u
  {
    LoadInvertsSettings(SaveUser(ns, u), u, randomId);
  }

  /** An empty namespace loads the defaults, the device name built from the random id. */
  lemma UserDefaults(randomId: string)
    ensures var u := LoadUser(map[], randomId);
      u.deviceName == StaticStrings.Cut("Home Buttons " + randomId, 20)
      && (|randomId| <= 7 ==> u.deviceName == "Home Buttons " + randomId) && u.port == 1883
      && u.baseTopic == "homebuttons" && u.discoveryPrefix == "homeassistant"
      && u.labels == ["B1", "B2", "B3", "B4", "B5", "B6"] && u.sensorInterval == 10
      && u.server == "" && u.mqttUser == "" && u.password == ""
  {
    var u := LoadUser(map[], randomId);
    assert u.labels[0] == "B1" && u.labels[1] == "B2" && u.labels[2] == "B3";
    assert u.labels[3] == "B4" && u.labels[4] == "B5" && u.labels[5] == "B6";
  }
}

/** The persisted variables and flags of src/state.cpp: `save_persisted` and `load_persisted`. */
module PersistedStore {
  import opened Preferences

  /** `Persisted`: five settings and nine flags. */
  datatype Persisted = Persisted(
    lowBattMode: bool, wifiDone: bool, setupDone: bool, lastSwVer: string, userAwakeMode: bool,
    wifiQuickConnect: bool, chargeCompleteShowing: bool, infoScreenShowing: bool, checkConnection: bool,
    failedConnections: nat, restartToWifiSetup: bool, restartToSetup: bool, sendDiscoveryConfig: bool,
    silentRestart: bool)

  /** `failed_connections` is a `uint8_t`. */
  predicate PersistedWf(p: Persisted) {
    p.failedConnections < 256
  }

  /** The fields `save_persisted` writes, one per key. */
  datatype PersistedKey =
    | LowBattKey | WifiDoneKey | SetupDoneKey | LastSwKey | AwakeKey | QuickConnectKey | ChargeShownKey
    | InfoShownKey | CheckConnKey | FailedKey | WifiSetupKey | SetupKey | DiscoveryConfigKey | SilentKey

  const PersistedKeys: set<PersistedKey> := {
    LowBattKey, WifiDoneKey, SetupDoneKey, LastSwKey, AwakeKey, QuickConnectKey, ChargeShownKey,
    InfoShownKey, CheckConnKey, FailedKey, WifiSetupKey, SetupKey, DiscoveryConfigKey, SilentKey}

  function PersistedKeyName(k: PersistedKey): string {
    match k
    case LowBattKey => "lb_mode" case WifiDoneKey => "wifi_done" case SetupDoneKey => "setup_done"
    case LastSwKey => "last_sw" case AwakeKey => "u_awake" case QuickConnectKey => "wifi_qc"
    case ChargeShownKey => "chg_cpt_shwn" case InfoShownKey => "info_shwn" case CheckConnKey => "chk_conn"
    case FailedKey => "faild_cons" case WifiSetupKey => "rst_to_w_stp" case SetupKey => "rst_to_stp"
    case DiscoveryConfigKey => "send_adisc" case SilentKey => "silent_rst"
  }

  /** No two persisted fields share a key. */
  lemma PersistedKeysDistinct()
    ensures forall a: PersistedKey, b: PersistedKey :: PersistedKeyName(a) == PersistedKeyName(b) ==> a == b
  {
  }

  function PersistedField(p: Persisted, k: PersistedKey): Value {
    match k
    case LowBattKey => BoolV(p.lowBattMode) case WifiDoneKey => BoolV(p.wifiDone) case SetupDoneKey => BoolV(p.setupDone)
    case LastSwKey => StrV(p.lastSwVer) case AwakeKey => BoolV(p.userAwakeMode) case QuickConnectKey => BoolV(p.wifiQuickConnect)
    case ChargeShownKey => BoolV(p.chargeCompleteShowing) case InfoShownKey => BoolV(p.infoScreenShowing)
    case CheckConnKey => BoolV(p.checkConnection) case FailedKey => UInt(p.failedConnections)
    case WifiSetupKey => BoolV(p.restartToWifiSetup) case SetupKey => BoolV(p.restartToSetup)
    case DiscoveryConfigKey => BoolV(p.sendDiscoveryConfig) case SilentKey => BoolV(p.silentRestart)
  }

  /** `save_persisted`: one put per field, which overwrites that field's entry and no other. */
  function SavePersisted(ns: Namespace<PersistedKey>, p: Persisted): (r: Namespace<PersistedKey>)
    ensures forall k | k in PersistedKeys :: k in r && r[k] == PersistedField(p, k)
  {
    ns + map k | k in PersistedKeys :: PersistedField(p, k)
  }

  /** `load_persisted`; the failure count is read as a `uint32_t` and kept as a `uint8_t`. */
  function LoadPersisted(ns: Namespace<PersistedKey>): (p: Persisted)
    ensures PersistedWf(p)
    ensures p.failedConnections == GetUInt(ns, FailedKey, 0) % 256
  {
    Persisted(
      GetBool(ns, LowBattKey, false), GetBool(ns, WifiDoneKey, false), GetBool(ns, SetupDoneKey, false),
      GetString(ns, LastSwKey, ""), GetBool(ns, AwakeKey, false), GetBool(ns, QuickConnectKey, false),
      GetBool(ns, ChargeShownKey, false), GetBool(ns, InfoShownKey, false), GetBool(ns, CheckConnKey, false),
      GetUInt(ns, FailedKey, 0) % 256, GetBool(ns, WifiSetupKey, false), GetBool(ns, SetupKey, false),
      GetBool(ns, DiscoveryConfigKey, false), GetBool(ns, SilentKey, false))
  }

  /** Reading back a namespace that holds every field of `p` under its key gives `p`. */
  lemma LoadInvertsFields(s: Namespace<PersistedKey>, p: Persisted)
    requires PersistedWf(p)
    requires forall k | k in PersistedKeys :: k in s && s[k] == PersistedField(p, k)
    ensures LoadPersisted(s) == p
  {
    LoadInvertsFlags(s, p);
    LoadInvertsRestartFlags(s, p);
  }

  /** The first seven fields of `LoadInvertsFields`. */
  lemma LoadInvertsFlags(s: Namespace<PersistedKey>, p: Persisted)
    requires forall k | k in PersistedKeys :: k in s && s[k] == PersistedField(p, k)
    ensures var r := LoadPersisted(s);
      && r.lowBattMode == p.lowBattMode && r.wifiDone == p.wifiDone && r.setupDone == p.setupDone
      && r.lastSwVer == p.lastSwVer && r.userAwakeMode == p.userAwakeMode
      && r.wifiQuickConnect == p.wifiQuickConnect && r.chargeCompleteShowing == p.chargeCompleteShowing
  {
    assert s[LowBattKey] == PersistedField(p, LowBattKey) && s[WifiDoneKey] == PersistedField(p, WifiDoneKey);
    assert s[SetupDoneKey] == PersistedField(p, SetupDoneKey) && s[LastSwKey] == PersistedField(p, LastSwKey);
    assert s[AwakeKey] == PersistedField(p, AwakeKey) && s[QuickConnectKey] == PersistedField(p, QuickConnectKey);
    assert s[ChargeShownKey] == PersistedField(p, ChargeShownKey);
  }

  /** A stored failure count below 256 survives the narrowing to `uint8_t`. */
  lemma LoadInvertsFailures(s: Namespace<PersistedKey>, n: nat)
    requires n < 256 && FailedKey in s && s[FailedKey] == UInt(n)
    ensures LoadPersisted(s).failedConnections == n
  {
    assert GetUInt(s, FailedKey, 0) == n;
  }

  /** The last seven fields of `LoadInvertsFields`. */
  lemma LoadInvertsRestartFlags(s: Namespace<PersistedKey>, p: Persisted)
    requires PersistedWf(p)
    requires forall k | k in PersistedKeys :: k in s && s[k] == PersistedField(p, k)
    ensures var r := LoadPersisted(s);
      && r.infoScreenShowing == p.infoScreenShowing && r.checkConnection == p.checkConnection
      && r.failedConnections == p.failedConnections && r.restartToWifiSetup == p.restartToWifiSetup
      && r.restartToSetup == p.restartToSetup && r.sendDiscoveryConfig == p.sendDiscoveryConfig
      && r.silentRestart == p.silentRestart
  {
    assert s[InfoShownKey] == PersistedField(p, InfoShownKey) && s[CheckConnKey] == PersistedField(p, CheckConnKey);
    assert s[FailedKey] == PersistedField(p, FailedKey);
    LoadInvertsFailures(s, p.failedConnections);
    assert s[WifiSetupKey] == PersistedField(p, WifiSetupKey) && s[SetupKey] == PersistedField(p, SetupKey);
    assert s[DiscoveryConfigKey] == PersistedField(p, DiscoveryConfigKey) && s[SilentKey] == PersistedField(p, SilentKey);
  }

  /** The fourteen keys correspond one to one with the fields: loading what was saved restores every field. */
  lemma PersistedRoundTrip(ns: Namespace<PersistedKey>, p: Persisted)
    requires PersistedWf(p)
    ensures LoadPersisted(SavePersisted(ns, p)) == p
  {
    LoadInvertsFields(SavePersisted(ns, p), p);
  }

  /** A fresh device: an empty namespace loads all settings false, empty or zero. */
  lemma PersistedDefaults()
    ensures LoadPersisted(map[]) == Persisted(false, false, false, "", false, false, false, false, false, 0, false, false, false, false)
  {
  }

}

/**
  `DeviceState` of src/state.cpp: the settings held in memory, the button
  label accessors, and which namespaces `save_all`, `clear_all` and
  `clear_persisted_flags` touch.
 */
module DeviceState {
  import opened Preferences
  import opened UserStore
  import opened PersistedStore
  import StaticStrings

  /** The three `Preferences` namespaces the device uses; the factory one is only read here. */
  datatype Store = Store(factory: Namespace<string>, user: Namespace<UserKey>, persisted: Namespace<PersistedKey>)

  /** The settings held in memory. */
  datatype Device = Device(user: User, persisted: Persisted)

  /** `save_all`: user and persisted settings, never the factory data. */
  function SaveAll(st: Store, d: Device): (r: Store)
    requires |d.user.labels| == NumButtons
    ensures r.factory == st.factory
    ensures r.user == SaveUser(st.user, d.user) && r.persisted == SavePersisted(st.persisted, d.persisted)
  {
    Store(st.factory, SaveUser(st.user, d.user), SavePersisted(st.persisted, d.persisted))
  }

  /** `clear_all`: the user and persisted namespaces are emptied, the factory namespace kept. */
  function ClearAll(st: Store): (r: Store)
    ensures r.factory == st.factory && r.user == map[] && r.persisted == map[]
  {
    Store(st.factory, map[], map[])
  }

  /**
    `clear_persisted_flags`: eight transient flags are reset in memory, the
    other six persisted fields are kept, and everything is saved.
   */
  function ClearPersistedFlags(st: Store, d: Device): (r: (Store, Device))
    requires |d.user.labels| == NumButtons
    ensures r.1.user == d.user && r.0.factory == st.factory
    ensures var p := r.1.persisted;
      && !p.wifiQuickConnect && !p.chargeCompleteShowing && !p.infoScreenShowing && !p.checkConnection
      && p.failedConnections == 0 && !p.restartToWifiSetup && !p.restartToSetup && !p.silentRestart
    ensures var p := r.1.persisted; var q := d.persisted;
      && p.lowBattMode == q.lowBattMode && p.wifiDone == q.wifiDone && p.setupDone == q.setupDone
      && p.lastSwVer == q.lastSwVer && p.userAwakeMode == q.userAwakeMode && p.sendDiscoveryConfig == q.sendDiscoveryConfig
    ensures r.0 == SaveAll(st, r.1)
  {
    var p := d.persisted.(wifiQuickConnect := false, chargeCompleteShowing := false, infoScreenShowing := false,
      checkConnection := false, failedConnections := 0, restartToWifiSetup := false, restartToSetup := false,
      silentRestart := false);
    var d2 := d.(persisted := p);
    (SaveAll(st, d2), d2)
  }

  /** After clearing, a reload sees the eight flags reset and the other six fields as they were. */
  lemma ClearFlagsThenReload(st: Store, d: Device)
    requires |d.user.labels| == NumButtons && PersistedWf(d.persisted)
    ensures var r := ClearPersistedFlags(st, d);
      var p := LoadPersisted(r.0.persisted);
      !p.wifiQuickConnect && !p.chargeCompleteShowing && !p.infoScreenShowing && !p.checkConnection
      && p.failedConnections == 0 && !p.restartToWifiSetup && !p.restartToSetup && !p.silentRestart
      && p.lowBattMode == d.persisted.lowBattMode && p.wifiDone == d.persisted.wifiDone
      && p.setupDone == d.persisted.setupDone && p.lastSwVer == d.persisted.lastSwVer
      && p.userAwakeMode == d.persisted.userAwakeMode && p.sendDiscoveryConfig == d.persisted.sendDiscoveryConfig
      && r.0.factory == st.factory && r.1.user == d.user
  {
    var r := ClearPersistedFlags(st, d);
    PersistedRoundTrip(st.persisted, r.1.persisted);
  }

  /** `get_btn_label`: label `i`, or the empty label for an index past the buttons. */
  function GetBtnLabel(u: User, i: nat): (l: string)
    requires |u.labels| == NumButtons
    ensures i < NumButtons ==> l == u.labels[i]
    ensures i >= NumButtons ==> l == ""
  {
    if i < NumButtons then u.labels[i] else ""
  }

  /** `set_btn_label`: `ButtonLabel::set` on label `i`, which keeps the first 15 characters. */
  function SetBtnLabel(u: User, i: nat, txt: string): (r: User)
    requires |u.labels| == NumButtons
    ensures |r.labels| == NumButtons
  {
    if i < NumButtons then u.(labels := u.labels[i := StaticStrings.Cut(txt, LabelCap)]) else u
  }

  /** Setting label `i` changes only label `i`, to the stored text cut to 15 characters; a bad index changes nothing. */
  lemma SetThenGetLabel(u: User, i: nat, j: nat, txt: string)
    requires |u.labels| == NumButtons
    ensures i < NumButtons ==> GetBtnLabel(SetBtnLabel(u, i, txt), i) == StaticStrings.Cut(txt, LabelCap)
    ensures j != i ==> GetBtnLabel(SetBtnLabel(u, i, txt), j) == GetBtnLabel(u, j)
    ensures i >= NumButtons ==> SetBtnLabel(u, i, txt) == u
    ensures SetBtnLabel(u, i, txt).(labels := u.labels) == u
  {
  }

  /** A label set in memory survives a save and a reload. */
  lemma SetLabelSurvivesReload(ns: Namespace<UserKey>, u: User, i: nat, txt: string, randomId: string)
    requires UserWf(u) && i < NumButtons
    ensures GetBtnLabel(LoadUser(SaveUser(ns, SetBtnLabel(u, i, txt)), randomId), i) == StaticStrings.Cut(txt, LabelCap)
  {
    var u2 := SetBtnLabel(u, i, txt);
    assert UserWf(u2);
    UserRoundTrip(ns, u2, randomId);
  }
}
/**
  `UserSettings` of include/prefs.h: the older settings record, whose six
  labels are separate `String` fields reached through a switch on the index.
 */
module UserSettings {

  datatype Settings = Settings(l1: string, l2: string, l3: string, l4: string, l5: string, l6: string)

  /** `get_btn_label`. */
  function GetBtnLabel(s: Settings, i: nat): (r: string)
    ensures i >= 6 ==> r == ""
    ensures i < 6 ==> r == [s.l1, s.l2, s.l3, s.l4, s.l5, s.l6][i]
  {
    if i == 0 then s.l1 else if i == 1 then s.l2 else if i == 2 then s.l3
    else if i == 3 then s.l4 else if i == 4 then s.l5 else if i == 5 then s.l6
    else ""
  }

  /** `set_btn_label`: no truncation, and no change for an index past 5. */
  function SetBtnLabel(s: Settings, i: nat, txt: string): (r: Settings)
    ensures i >= 6 ==> r == s
    ensures i < 6 ==> GetBtnLabel(r, i) == txt
  {
    if i == 0 then s.(l1 := txt) else if i == 1 then s.(l2 := txt) else if i == 2 then s.(l3 := txt)
    else if i == 3 then s.(l4 := txt) else if i == 4 then s.(l5 := txt) else if i == 5 then s.(l6 := txt)
    else s
  }

  /** The labels as a sequence, in index order. */
  function Labels(s: Settings): (ls: seq<string>)
    ensures |ls| == 6 && forall i | 0 <= i < 6 :: ls[i] == GetBtnLabel(s, i)
  {
    [s.l1, s.l2, s.l3, s.l4, s.l5, s.l6]
  }

  /** Set then get gives the label back, other labels are unchanged, and an index past 5 changes nothing. */
  lemma SetThenGet(s: Settings, i: nat, j: nat, txt: string)
    ensures i < 6 ==> GetBtnLabel(SetBtnLabel(s, i, txt), i) == txt
    ensures j != i ==> GetBtnLabel(SetBtnLabel(s, i, txt), j) == GetBtnLabel(s, j)
    ensures i >= 6 ==> SetBtnLabel(s, i, txt) == s
    ensures i >= 6 ==> GetBtnLabel(s, i) == ""
  {
  }

  /** Setting every label through the switch is the same as updating the sequence of labels at the index. */
  lemma SetIsSequenceUpdate(s: Settings, i: nat, txt: string)
    requires i < 6
    ensures Labels(SetBtnLabel(s, i, txt)) == Labels(s)[i := txt]
  {
  }
}
