/**
  The device side of the factory test (src/factory.cpp): accepting the test
  spec from MQTT, the topics and documents the device sends, the button and
  battery sub-tests and how their results combine. Sensor readings, the
  clock, button levels and the display download are inputs; floating-point
  values stay opaque JSON values.
 */
module FactoryDevice {
  import opened Wrappers
  import opened CBuffer
  import opened JsonTree
  import opened StaticStrings
  import FactoryTest
  import Clock

  const FacTestBaseTopic: string := "homebuttons-factory/devices"
  const ButtonTestTimeout: nat := 60000
  const NumButtons: nat := 6
  const SwVersion: string := "v2.0.3-beta"

  /** `TEST_SPEC_KEYS`: the parameters a test spec must carry. */
  const TestSpecKeys: seq<string> := [
    "temp_ref", "temp_tol", "humd_ref", "humd_tol",
    "batt_mvolt_ref", "batt_mvolt_tol", "mdi_name", "disp_text"]

  const UInt32Limit: nat := 0x1_0000_0000

  /** The device reports under the same base the host runner listens on. */
  lemma BaseTopicsAgree()
    ensures FacTestBaseTopic == FactoryTest.DevicesTopic
  {
  }

  // ---------------------------------------------------------------------
  // The test spec
  // ---------------------------------------------------------------------

  /** `TestSpec` of src/factory.h; the four float fields are kept as JSON values. */
  datatype DeviceSpec = DeviceSpec(
    received: bool,
    tempRef: Json, tempTol: Json, humdRef: Json, humdTol: Json,
    battRef: int, battTol: int,
    mdiName: SString, dispText: SString)

  /** `TestSpec test_spec_ = {}`. */
  function InitialSpec(): (s: DeviceSpec)
    ensures !s.received && s.battRef == 0 && s.battTol == 0
    ensures Wf(s.mdiName) && Value(s.mdiName) == "" && s.mdiName.cap == 56
    ensures Wf(s.dispText) && Value(s.dispText) == "" && s.dispText.cap == 32
  {
    DeviceSpec(false, JNum(0), JNum(0), JNum(0), JNum(0), 0, 0, Default(56), Default(32))
  }

  predicate SpecWf(s: DeviceSpec) {
    Wf(s.mdiName) && s.mdiName.cap == 56 && Wf(s.dispText) && s.dispText.cap == 32
    && -0x8000 <= s.battRef < 0x8000 && -0x8000 <= s.battTol < 0x8000
  }

  /** The first of `keys` the object `params` lacks, as the validation loop reports it. */
  function MissingKey(params: Json, keys: seq<string>): (r: Option<string>)
    ensures r.None? <==> forall i :: 0 <= i < |keys| ==> ContainsKey(params, keys[i])
    ensures r.Some? ==> r.value in keys && !ContainsKey(params, r.value)
    decreases |keys|
  {
    if |keys| == 0 then None
    else if !ContainsKey(params, keys[0]) then Some(keys[0])
    else MissingKey(params, keys[1..])
  }

  /** The document is an object whose "parameters" hold every key of `TEST_SPEC_KEYS`. */
  predicate CompleteSpec(doc: Json) {
    ContainsKey(doc, "parameters") && MissingKey(doc.fields["parameters"], TestSpecKeys).None?
  }

  /** ArduinoJson's `as<unsigned int>()`: an integer that fits, a boolean as 0 or 1, otherwise 0. */
  function AsUnsigned(j: Json): (u: nat)
    ensures u < UInt32Limit
    ensures j.JNum? && 0 <= j.n < UInt32Limit ==> u == j.n
  {
    match j
    case JNum(n) => if 0 <= n < UInt32Limit then n else 0
    case JBool(b) => if b then 1 else 0
    case _ => 0
  }

  /** Storing an `unsigned int` in an `int16_t`: the low 16 bits, read as two's complement. */
  function ToInt16(u: nat): (r: int)
    ensures -0x8000 <= r < 0x8000
    ensures (r - u) % 0x1_0000 == 0
    ensures u < 0x8000 ==> r == u
  {
    var m := u % 0x1_0000;
    if m < 0x8000 then m else m - 0x1_0000
  }

  /** `as<const char*>()`: the C string of a JSON string; a non-string is read as "". */
  function TextOf(j: Json): (t: string)
    ensures CString(t)
  {
    if j.JStr? then CPrefix(j.s) else ""
  }

  /**
    `_mqtt_callback`: `payload` is the parsed document, or `None` when it
    does not parse. A complete spec is copied into the stored one and marks
    it received; anything else leaves the stored spec as it was.
   */
  function OnSpecMessage(s: DeviceSpec, payload: Option<Json>): (r: DeviceSpec)
    requires SpecWf(s)
    ensures SpecWf(r)
    ensures r.received <==> s.received || (payload.Some? && CompleteSpec(payload.value))
    ensures !(payload.Some? && CompleteSpec(payload.value)) ==> r == s
    ensures payload.Some? && CompleteSpec(payload.value) ==>
      var p := payload.value.fields["parameters"].fields;
      r.tempRef == p["temp_ref"] && r.tempTol == p["temp_tol"]
      && r.humdRef == p["humd_ref"] && r.humdTol == p["humd_tol"]
      && r.battRef == ToInt16(AsUnsigned(p["batt_mvolt_ref"]))
      && r.battTol == ToInt16(AsUnsigned(p["batt_mvolt_tol"]))
      && Value(r.mdiName) == Cut(TextOf(p["mdi_name"]), 56)
      && Value(r.dispText) == Cut(TextOf(p["disp_text"]), 32)
  {
    if payload.None? || !ContainsKey(payload.value, "parameters") then s
    else
      var params := payload.value.fields["parameters"];
      if MissingKey(params, TestSpecKeys).Some? then s
      else
        assert ContainsKey(params, TestSpecKeys[0]);
        var p := params.fields;
        DeviceSpec(
          true,
          p["temp_ref"], p["temp_tol"], p["humd_ref"], p["humd_tol"],
          ToInt16(AsUnsigned(p["batt_mvolt_ref"])), ToInt16(AsUnsigned(p["batt_mvolt_tol"])),
          Assign(s.mdiName, TextOf(p["mdi_name"])), Assign(s.dispText, TextOf(p["disp_text"])))
  }

  /**
    A spec the host runner publishes is accepted exactly when its
    `parameters` object holds all eight keys.
   */
  lemma HostSpecAccepted(s: DeviceSpec, t: FactoryTest.TestSpec)
    requires SpecWf(s)
    ensures OnSpecMessage(s, Some(FactoryTest.TestSpecToJson(t))).received <==>
      s.received || forall i :: 0 <= i < |TestSpecKeys| ==> ContainsKey(t.parameters, TestSpecKeys[i])
  {
    var doc := FactoryTest.TestSpecToJson(t);
    assert ContainsKey(doc, "parameters") && doc.fields["parameters"] == t.parameters;
  }

  // ---------------------------------------------------------------------
  // Topics
  // ---------------------------------------------------------------------

  /** A topic formatted into a `StaticString<256>`. */
  function Topic256(text: string): (t: string)
    requires CString(text)
    ensures |text| <= 256 ==> t == text
  {
    Value(FromCStr(256, text))
  }

  /** The topic the device subscribes to for its start message. */
  function SubscribeTopic(serial: string): string
    requires CString(serial)
  {
    Topic256(FacTestBaseTopic + "/" + serial + "/test_start")
  }

  /** The topic the device announces itself on. */
  function AnnounceTopic(serial: string): string
    requires CString(serial)
  {
    Topic256(FacTestBaseTopic + "/" + serial)
  }

  /** The topic the device reports its result on. */
  function ResultTopic(serial: string): string
    requires CString(serial)
  {
    Topic256(FacTestBaseTopic + "/" + serial + "/test_result")
  }

  /** The subscribed topic is the one the runner publishes the start message on. */
  lemma SubscribeMatchesStart(serial: string)
    requires CString(serial) && |serial| <= 200
    ensures SubscribeTopic(serial) == FactoryTest.StartTestTopic(serial)
  {
    var text := FacTestBaseTopic + "/" + serial + "/test_start";
    assert |text| <= 256;
    BaseTopicsAgree();
    assert text == FactoryTest.DevicesTopic + "/" + serial + "/" + FactoryTest.TestStart;
  }

  /** The runner sees an announcement under its devices topic, with the serial as last segment. */
  lemma AnnounceSplits(serial: string)
    requires CString(serial) && '/' !in serial && |serial| <= 200
    ensures FactoryTest.SplitTopic(AnnounceTopic(serial)) == (FactoryTest.DevicesTopic, serial)
  {
    var text := FacTestBaseTopic + "/" + serial;
    assert |text| <= 256;
    assert AnnounceTopic(serial) == FactoryTest.DevicesTopic + "/" + serial;
    FactoryTest.SplitTopicOf(FactoryTest.DevicesTopic, serial);
  }

  /** The runner sees a result as `<devices>/<serial>` followed by `test_result`. */
  lemma ResultSplits(serial: string)
    requires CString(serial) && |serial| <= 200
    ensures ResultTopic(serial) == (FactoryTest.DevicesTopic + "/" + serial) + "/" + FactoryTest.TestResultSuffix
    ensures FactoryTest.SplitTopic(ResultTopic(serial))
         == (FactoryTest.DevicesTopic + "/" + serial, FactoryTest.TestResultSuffix)
  {
    var text := FacTestBaseTopic + "/" + serial + "/test_result";
    assert |text| <= 256;
    assert text == (FactoryTest.DevicesTopic + "/" + serial) + "/" + FactoryTest.TestResultSuffix;
    FactoryTest.SplitTopicOf(FactoryTest.DevicesTopic + "/" + serial, FactoryTest.TestResultSuffix);
  }

  // ---------------------------------------------------------------------
  // Documents sent to the runner
  // ---------------------------------------------------------------------

  /** The identity the device reads from its eFuse block. */
  datatype Identity = Identity(serial: string, randomId: string, modelId: string, hwVersion: string)

  /** The device object under a given key for the hardware version. */
  function DeviceDoc(id: Identity, hwKey: string): (j: Json)
    ensures j.JObj? && j.fields.Keys == {"serial", "random_id", "model_id", "fw_version", hwKey}
    ensures j.fields[hwKey] == JStr(id.hwVersion)
    ensures hwKey !in {"serial", "random_id", "model_id", "fw_version"} ==>
      j.fields["serial"] == JStr(id.serial) && j.fields["random_id"] == JStr(id.randomId)
      && j.fields["model_id"] == JStr(id.modelId) && j.fields["fw_version"] == JStr(SwVersion)
  {
    JObj(map["serial" := JStr(id.serial), "random_id" := JStr(id.randomId),
             "model_id" := JStr(id.modelId), "fw_version" := JStr(SwVersion),
             hwKey := JStr(id.hwVersion)])
  }

  /** The announcement as written: the hardware version goes under "app_.hw__version". */
  function AnnounceDoc(id: Identity): (j: Json)
    ensures j.JObj? && "app_.hw__version" in j.fields && "hw_version" !in j.fields
  {
    DeviceDoc(id, "app_.hw__version")
  }

  /** The announcement with the key the runner's `Device` record has. */
  function AnnounceDocIntended(id: Identity): (j: Json)
    ensures j.JObj? && j.fields.Keys == FactoryTest.DeviceKeys
  {
    DeviceDoc(id, "hw_version")
  }

  /** The `Device` the runner builds from the intended announcement. */
  function RunnerDevice(id: Identity): FactoryTest.Device {
    FactoryTest.Device(JStr(id.serial), JStr(id.randomId), JStr(id.modelId), JStr(SwVersion),
                       JStr(id.hwVersion))
  }

  /**
    As written, the announcement carries a key the runner's `Device` does not
    have, so decoding raises TypeError: the runner drops it, tracks nothing
    and never starts the test.
   */
  lemma AnnouncementRejected(r: FactoryTest.Runner, id: Identity)
    requires CString(id.serial) && '/' !in id.serial && |id.serial| <= 200
    ensures FactoryTest.DeviceFromJson(AnnounceDoc(id)) == Failure(FactoryTest.TypeError)
    ensures var st := FactoryTest.OnMessage(r, FactoryTest.Message(AnnounceTopic(id.serial),
                                                                  FactoryTest.Document(AnnounceDoc(id))));
      st.runner == r && st.published == [] && st.outcome == FactoryTest.Rejected
  {
    AnnounceSplits(id.serial);
    FactoryTest.BadFieldsRejected(r, AnnounceTopic(id.serial), AnnounceDoc(id));
  }

  /**
    With the intended key the announcement decodes to the device's identity,
    and a runner whose spec targets this model and that does not yet track
    the serial admits it and starts its test on the topic the device
    subscribed to.
   */
  lemma AnnouncementAdmittedIntended(r: FactoryTest.Runner, id: Identity)
    requires CString(id.serial) && '/' !in id.serial && |id.serial| <= 200
    requires r.spec.Some? && r.spec.value.targetModelId == JStr(id.modelId)
    requires !FactoryTest.Tracked(r.devices, JStr(id.serial))
    ensures FactoryTest.DeviceFromJson(AnnounceDocIntended(id)) == Success(RunnerDevice(id))
    ensures var st := FactoryTest.OnMessage(r, FactoryTest.Message(AnnounceTopic(id.serial),
                                                                  FactoryTest.Document(AnnounceDocIntended(id))));
      st.runner == r.(devices := r.devices + [RunnerDevice(id)])
      && st.published == FactoryTest.StartTest(r.spec, id.serial)
      && st.published[0].topic == SubscribeTopic(id.serial)
  {
    AnnounceSplits(id.serial);
    SubscribeMatchesStart(id.serial);
    IntendedDeviceDecodes(id);
    FactoryTest.AnnouncementAdmission(r, AnnounceTopic(id.serial), AnnounceDocIntended(id));
  }

  /** Which features the firmware is built with. */
  datatype Features = Features(display: bool, buttonUi: bool, thSensor: bool, battery: bool)

  /** Sensor readings: the floats as JSON values, the battery in millivolts as a `uint16_t`. */
  datatype Measured = Measured(temp: Json, humidity: Json, battMv: nat)

  /** The "parameters" object: present when the build has a sensor or a battery. */
  function MeasuredParams(f: Features, m: Measured): (p: Option<Json>)
    ensures p.Some? <==> f.thSensor || f.battery
    ensures p.Some? ==>
      p.value.JObj?
      && ("measured_battery" in p.value.fields <==> f.battery)
      && ("measured_temp" in p.value.fields <==> f.thSensor)
  {
    if !(f.thSensor || f.battery) then None
    else
      var th := if f.thSensor then map["measured_temp" := m.temp, "measured_humidity" := m.humidity]
                else map[];
      var batt := if f.battery then map["measured_battery" := JNum(m.battMv)] else map[];
      Some(JObj(th + batt))
  }

  /** The result document as written: the device's hardware version goes under "app_.hw_version". */
  function ResultDoc(f: Features, id: Identity, passed: bool, m: Measured): (j: Json)
    ensures j.JObj? && "device" in j.fields && j.fields["device"].JObj?
    ensures "parameters" in j.fields <==> f.thSensor || f.battery
  {
    var base := map["device" := DeviceDoc(id, "app_.hw_version"), "passed" := JBool(passed)];
    var params := MeasuredParams(f, m);
    JObj(if params.Some? then base["parameters" := params.value] else base)
  }

  /**
    The result document with the runner's key for the hardware version and
    a "parameters" object in every build, empty when there is nothing
    measured.
   */
  function ResultDocIntended(f: Features, id: Identity, passed: bool, m: Measured): (j: Json)
    ensures j.JObj? && j.fields.Keys == FactoryTest.ResultKeys
    ensures j.fields["device"] == AnnounceDocIntended(id)
  {
    var params := MeasuredParams(f, m);
    JObj(map["device" := DeviceDoc(id, "hw_version"), "passed" := JBool(passed),
             "parameters" := if params.Some? then params.value else JObj(map[])])
  }

  /**
    As written, the result document never decodes on the runner: its device
    object has the wrong hardware-version key, and a build without sensors
    also leaves out "parameters". The runner drops it and keeps tracking the
    device.
   */
  lemma ResultRejected(r: FactoryTest.Runner, f: Features, id: Identity, passed: bool, m: Measured)
    requires CString(id.serial) && '/' !in id.serial && |id.serial| <= 200
    ensures FactoryTest.TestResultFromJson(ResultDoc(f, id, passed, m)) == Failure(FactoryTest.TypeError)
    ensures var st := FactoryTest.OnMessage(r, FactoryTest.Message(ResultTopic(id.serial),
                                            FactoryTest.Document(ResultDoc(f, id, passed, m))));
      st.runner == r && st.published == [] && st.outcome == FactoryTest.Rejected
  {
    var doc := ResultDoc(f, id, passed, m);
    ResultDocUndecodable(f, id, passed, m);
    ResultSplits(id.serial);
    var prefix := FactoryTest.DevicesTopic + "/" + id.serial;
    assert prefix != FactoryTest.DevicesTopic by { assert |prefix| > |FactoryTest.DevicesTopic|; }
    var st := FactoryTest.OnMessage(r, FactoryTest.Message(ResultTopic(id.serial), FactoryTest.Document(doc)));
    assert st == FactoryTest.OnResult(r, prefix, FactoryTest.Document(doc));
  }

  lemma ResultDocUndecodable(f: Features, id: Identity, passed: bool, m: Measured)
    ensures FactoryTest.TestResultFromJson(ResultDoc(f, id, passed, m)) == Failure(FactoryTest.TypeError)
  {
    var doc := ResultDoc(f, id, passed, m);
    var device := doc.fields["device"];
    assert device == DeviceDoc(id, "app_.hw_version");
    assert "hw_version" !in device.fields;
    assert device.fields.Keys != FactoryTest.DeviceKeys;
  }

  /**
    With the intended document, a device the runner admitted from the
    intended announcement is removed again by its result, and the result is
    recorded when the runner has an output file.
   */
  lemma ResultCorrelatedIntended(r: FactoryTest.Runner, f: Features, id: Identity, passed: bool, m: Measured, i: nat)
    requires CString(id.serial) && '/' !in id.serial && |id.serial| <= 200
    requires FactoryTest.UniqueSerials(r.devices)
    requires i < |r.devices| && r.devices[i] == RunnerDevice(id)
    ensures var doc := ResultDocIntended(f, id, passed, m);
      var st := FactoryTest.OnMessage(r, FactoryTest.Message(ResultTopic(id.serial), FactoryTest.Document(doc)));
      st.runner.devices == r.devices[..i] + r.devices[i + 1..]
      && st.runner.report == r.report + (if FactoryTest.Truthy(r.outFile) then
           [FactoryTest.ReportEntry(FactoryTest.ReportHeader(id.serial), doc)] else [])
  {
    var doc := ResultDocIntended(f, id, passed, m);
    IntendedResultDecodes(f, id, passed, m);
    ResultSplits(id.serial);
    FactoryTest.ResultCorrelated(r, id.serial, doc, i);
  }

  /** The intended announcement decodes to the device's identity. */
  lemma IntendedDeviceDecodes(id: Identity)
    ensures FactoryTest.DeviceFromJson(AnnounceDocIntended(id)) == Success(RunnerDevice(id))
  {
    assert FactoryTest.DeviceToJson(RunnerDevice(id)) == AnnounceDocIntended(id);
  }

  /** The intended result document decodes, and its device is the device's identity. */
  lemma IntendedResultDecodes(f: Features, id: Identity, passed: bool, m: Measured)
    ensures var r := FactoryTest.TestResultFromJson(ResultDocIntended(f, id, passed, m));
      r.Success? && r.value.device == FactoryTest.DeviceObj(RunnerDevice(id))
  {
    IntendedDeviceDecodes(id);
  }

  // ---------------------------------------------------------------------
  // Sub-tests and the verdict
  // ---------------------------------------------------------------------

  /** The `all_pressed` loop: true iff every entry of `pressed` is. */
  method AllPressed(pressed: seq<bool>) returns (all: bool)
    ensures all <==> forall i :: 0 <= i < |pressed| ==> pressed[i]
  {
    all := true;
    var i := 0;
    while i < |pressed|
      invariant 0 <= i <= |pressed|
      invariant all <==> forall k :: 0 <= k < i ==> pressed[k]
      invariant i > 0 ==> all
    {
      all := pressed[i];
      if !all {
        return;
      }
      i := i + 1;
    }
  }

  /** One pass of the polling loop: the `millis()` reading and the buttons (1-based) found pressed. */
  datatype Poll = Poll(now: nat, down: set<nat>)

  predicate TimedOut(p: Poll, start: nat) {
    Clock.Since(p.now, start) > ButtonTestTimeout
  }

  /** Button `b` (1-based) was seen pressed in one of the polls up to `t`. */
  predicate SeenBy(polls: seq<Poll>, t: nat, b: nat) {
    exists u :: 0 <= u <= t && u < |polls| && b in polls[u].down
  }

  predicate AllSeen(polls: seq<Poll>, t: nat) {
    forall b :: 1 <= b <= NumButtons ==> SeenBy(polls, t, b)
  }

  /** The loop stops at poll `t`: it timed out there, or all buttons have been seen by then. */
  predicate Decisive(polls: seq<Poll>, t: nat, start: nat)
    requires t < |polls|
  {
    TimedOut(polls[t], start) || AllSeen(polls, t)
  }

  /**
    The button test over a finite run of polls: `Some(passed)` once the loop
    stops, `None` if it is still waiting after the last poll. The time-out
    is checked before the buttons are read.
   */
  method ButtonTest(start: nat, polls: seq<Poll>) returns (verdict: Option<bool>)
    ensures verdict.None? ==> forall t :: 0 <= t < |polls| ==> !Decisive(polls, t, start)
    ensures verdict.Some? ==>
      exists t :: 0 <= t < |polls| && Decisive(polls, t, start)
        && (forall u :: 0 <= u < t ==> !Decisive(polls, u, start))
        && (verdict.value <==> !TimedOut(polls[t], start))
  {
    var pressed := seq(NumButtons, _ => false);
    var k := 0;
    while k < |polls|
      invariant 0 <= k <= |polls| && |pressed| == NumButtons
      invariant forall i :: 0 <= i < NumButtons ==>
        (pressed[i] <==> exists u :: 0 <= u < k && i + 1 in polls[u].down)
      invariant forall u :: 0 <= u < k ==> !Decisive(polls, u, start)
    {
      if TimedOut(polls[k], start) {
        return Some(false);
      }
      var prev := pressed;
      pressed := seq(NumButtons, i requires 0 <= i < NumButtons => prev[i] || i + 1 in polls[k].down);
      var all := AllPressed(pressed);
      SeenIff(polls, k, pressed, all);
      if all {
        return Some(true);
      }
      k := k + 1;
    }
    return None;
  }

  lemma SeenIff(polls: seq<Poll>, k: nat, pressed: seq<bool>, all: bool)
    requires k < |polls| && |pressed| == NumButtons
    requires forall i :: 0 <= i < NumButtons ==>
      (pressed[i] <==> exists u :: 0 <= u <= k && i + 1 in polls[u].down)
    requires all <==> forall i :: 0 <= i < |pressed| ==> pressed[i]
    ensures all <==> AllSeen(polls, k)
  {
    if all {
      forall b | 1 <= b <= NumButtons
        ensures SeenBy(polls, k, b)
      {
        assert pressed[b - 1];
      }
    } else {
      var i :| 0 <= i < |pressed| && !pressed[i];
      assert !SeenBy(polls, k, i + 1);
    }
  }

  /** The battery check: the reading must lie strictly inside `ref ± tol`. */
  predicate BatteryOk(battMv: nat, ref: int, tol: int) {
    !(battMv <= ref - tol || battMv >= ref + tol)
  }

  /** The window is open: a reading equal to either bound fails, and no tolerance above zero means every reading fails. */
  lemma BatteryWindow(battMv: nat, ref: int, tol: int)
    ensures BatteryOk(battMv, ref, tol) <==> ref - tol < battMv < ref + tol
    ensures tol <= 0 ==> !BatteryOk(battMv, ref, tol)
  {
  }

  /**
    A reference above 32767 mV in the spec wraps to a negative `int16_t`,
    which moves the whole window 65536 mV down.
   */
  lemma LargeReferenceShifts(battMv: nat, ref: nat, tol: nat)
    requires 0x8000 <= ref < 0x1_0000 && tol < 0x8000
    ensures BatteryOk(battMv, ToInt16(AsUnsigned(JNum(ref))), ToInt16(AsUnsigned(JNum(tol)))) <==>
      ref - tol - 0x1_0000 < battMv < ref + tol - 0x1_0000
  {
  }

  /** The sub-test results the pass verdict is formed from; each matters only if its feature is built. */
  datatype SubResults = SubResults(
    mdiConnected: bool, mdiDownloaded: bool, buttons: bool,
    tempOk: bool, humidityOk: bool, battMv: nat)

  /** `passed`, starting from true and and-ed with each built sub-test in turn. */
  function Passed(f: Features, s: DeviceSpec, sub: SubResults): (passed: bool)
    ensures passed ==> (f.display ==> sub.mdiConnected && sub.mdiDownloaded) && (f.buttonUi ==> sub.buttons)
    ensures !f.display && !f.buttonUi && !f.thSensor ==> passed
  {
    var passed := true;
    var passed := if f.display then passed && sub.mdiConnected && sub.mdiDownloaded else passed;
    var passed := if f.buttonUi then passed && sub.buttons else passed;
    var sensor := sub.tempOk && sub.humidityOk
      && (f.battery ==> BatteryOk(sub.battMv, s.battRef, s.battTol));
    if f.thSensor then passed && sensor else passed
  }

  /**
    The test passes iff every sub-test that is built passes. The battery
    check sits inside the sensor block, so it counts only on builds with the
    temperature and humidity sensor.
   */
  lemma PassedIffEnabledPass(f: Features, s: DeviceSpec, sub: SubResults)
    ensures Passed(f, s, sub) <==>
      (f.display ==> sub.mdiConnected && sub.mdiDownloaded)
      && (f.buttonUi ==> sub.buttons)
      && (f.thSensor ==> sub.tempOk && sub.humidityOk)
      && (f.thSensor && f.battery ==> BatteryOk(sub.battMv, s.battRef, s.battTol))
  {
  }

  /**
    The end of `run_test`: the "fac_test" namespace is cleared iff the test
    passed, and the verdict is returned.
   */
  function FinishTest(passed: bool, facTest: map<string, Json>): (r: (map<string, Json>, bool))
    ensures r.1 == passed
    ensures r.0 == (if passed then map[] else facTest)
  {
    if passed then (map[], true) else (facTest, false)
  }

  /** `is_test_required`: the "do_test" flag, false when absent or not a boolean. */
  function IsTestRequired(facTest: map<string, Json>): (b: bool)
    ensures b <==> "do_test" in facTest && facTest["do_test"] == JBool(true)
  {
    if "do_test" in facTest && facTest["do_test"].JBool? then facTest["do_test"].b else false
  }

  /** A passed test clears the flag, so the next boot does not run the test again. */
  lemma PassedTestNotRequiredAgain(facTest: map<string, Json>)
    ensures !IsTestRequired(FinishTest(true, facTest).0)
    ensures IsTestRequired(FinishTest(false, facTest).0) == IsTestRequired(facTest)
  {
  }
}
