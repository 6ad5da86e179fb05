/**
  The host side of the factory test (tools/factory_test.py): topic splitting,
  the `json_serializable` codec of the three records, and the `TestRunner`
  message handler as a pure step over its state. The MQTT client is left
  out: a received message is an input and a `publish` is an output; the
  report file is the sequence of entries appended to it.
 */
module FactoryTest {
  import opened Wrappers
  import opened Text
  import opened JsonTree

  const BaseTopic: string := "homebuttons-factory"
  const DevicesTopic: string := BaseTopic + "/devices"
  const TestStart: string := "test_start"
  const TestResultSuffix: string := "test_result"

  // ---------------------------------------------------------------------
  // Topics
  // ---------------------------------------------------------------------

  /** Python's `sep.join(parts)`, which is "" for no parts. */
  function PyJoin(parts: seq<string>, sep: char): string {
    if |parts| == 0 then "" else Join(parts, sep)
  }

  /**
    `split_topic`: everything before the last '/', and the last segment.
    A topic without '/' splits into "" and itself.
   */
  function SplitTopic(topic: string): (r: (string, string))
    ensures '/' !in r.1
    ensures '/' !in topic ==> r == ("", topic)
    ensures '/' in topic ==> topic == r.0 + "/" + r.1
  {
    var parts := Split(topic, '/');
    var n := |parts|;
    if '/' !in topic then
      SplitNoSep(topic, '/');
      ("", parts[n - 1])
    else
      JoinSplit(topic, '/');
      assert parts[..n - 1] + [parts[n - 1]] == parts;
      JoinSnoc(parts[..n - 1], parts[n - 1], '/');
      (PyJoin(parts[..n - 1], '/'), parts[n - 1])
  }

  /** `join_topic(*args)`. */
  function JoinTopic(args: seq<string>): (t: string)
    ensures args == [] ==> t == ""
    ensures |args| > 0 && (forall k | 0 <= k < |args| :: '/' !in args[k]) ==> Split(t, '/') == args
  {
    if |args| > 0 && (forall k | 0 <= k < |args| :: '/' !in args[k]) then
      SplitJoin(args, '/');
      PyJoin(args, '/')
    else PyJoin(args, '/')
  }

  /** The text after the last '/' is determined by the topic. */
  lemma LastSegmentUnique(a: string, b: string, c: string, d: string)
    requires a + "/" + b == c + "/" + d && '/' !in b && '/' !in d
    ensures a == c && b == d
  {
    var t := a + "/" + b;
    SplitAppend(a, b, '/');
    SplitAppend(c, d, '/');
    SplitNoSep(b, '/');
    SplitNoSep(d, '/');
    var p := Split(t, '/');
    assert p == Split(a, '/') + [b] && p == Split(c, '/') + [d];
    assert b == p[|p| - 1] == d;
    assert a == t[..|a|] == c;
  }

  /** `join_topic(*split_topic(t)) == t` for every topic with a '/'. */
  lemma JoinSplitTopic(topic: string)
    requires '/' in topic
    ensures JoinTopic([SplitTopic(topic).0, SplitTopic(topic).1]) == topic
  {
    var (head, last) := SplitTopic(topic);
    assert [head, last][1..] == [last];
    assert Join([head, last], '/') == head + "/" + last;
  }

  /** A topic `prefix/last` splits back into `prefix` and `last` when `last` has no '/'. */
  lemma {:induction false} SplitTopicOf(prefix: string, last: string)
    requires '/' !in last
    ensures SplitTopic(prefix + "/" + last) == (prefix, last)
  {
    var topic := prefix + "/" + last;
    SplitAppend(prefix, last, '/');
    SplitNoSep(last, '/');
    var parts := Split(topic, '/');
    assert parts == Split(prefix, '/') + [last];
    assert parts[..|parts| - 1] == Split(prefix, '/');
    JoinSplit(prefix, '/');
  }

  // ---------------------------------------------------------------------
  // The json_serializable codec
  // ---------------------------------------------------------------------

  datatype TestSpec = TestSpec(description: Json, targetModelId: Json, parameters: Json)

  datatype Device = Device(serial: Json, randomId: Json, modelId: Json, fwVersion: Json, hwVersion: Json)

  /**
    `TestResult.device` after `from_json`: a nested object is rebuilt as a
    `Device`; any other JSON value is kept as it is.
   */
  datatype DeviceField = DeviceObj(device: Device) | RawDevice(value: Json)

  datatype TestResult = TestResult(device: DeviceField, passed: Json, parameters: Json)

  /**
    What `from_json` raises on a parsed document: `cls(**data)` with missing
    or unexpected keys raises TypeError; a document that is not an object has
    no `items()` and raises AttributeError.
   */
  datatype DecodeError = TypeError | AttributeError

  const SpecKeys: set<string> := {"description", "target_model_id", "parameters"}
  const DeviceKeys: set<string> := {"serial", "random_id", "model_id", "fw_version", "hw_version"}
  const ResultKeys: set<string> := {"device", "passed", "parameters"}

  /** The classes `inspect.getmembers` finds in the module. */
  const ModuleClasses: seq<string> := ["Device", "TestResult", "TestRunner", "TestSpec"]

  function Upper(c: char): (u: char)
    ensures 'a' <= c <= 'z' ==> 'A' <= u <= 'Z'
  {
    if 'a' <= c <= 'z' then (c as int - 32) as char else c
  }

  function Lower(c: char): (l: char)
    ensures !('A' <= l <= 'Z')
  {
    if 'A' <= c <= 'Z' then (c as int + 32) as char else c
  }

  /** `str.capitalize()` over ASCII: first character upper-case, the rest lower-case. */
  function Capitalize(s: string): (r: string)
    ensures |r| == |s|
    ensures forall i :: 1 <= i < |r| ==> !('A' <= r[i] <= 'Z')
  {
    if |s| == 0 then ""
    else [Upper(s[0])] + seq(|s| - 1, i requires 0 <= i < |s| - 1 => Lower(s[i + 1]))
  }

  /** The class `from_json` rebuilds a nested object under `key` with, if any. */
  function NestedClass(key: string): Option<string> {
    var name := Capitalize(key);
    if name in ModuleClasses then Some(name) else None
  }

  /**
    Only `Device` can ever be found: the other class names carry a capital
    letter after their first one, which `capitalize()` never produces.
   */
  lemma OnlyDeviceNests(key: string)
    ensures NestedClass(key).Some? <==> Capitalize(key) == "Device"
  {
    var c := Capitalize(key);
    if |c| > 4 {
      assert !('A' <= c[4] <= 'Z');
    }
    assert c != "TestResult" && c != "TestRunner" && c != "TestSpec";
  }

  /**
    Among the records' field names only "device" selects a nested class, so
    the nested rebuild matters for `TestResult.device` alone. A rebuild under
    any other key can fail only with TypeError, and such a key is already an
    unexpected keyword that makes the constructor raise TypeError.
   */
  lemma FieldNesting(key: string)
    requires key in SpecKeys + DeviceKeys + ResultKeys
    ensures NestedClass(key).Some? <==> key == "device"
  {
    OnlyDeviceNests(key);
    var c := Capitalize(key);
    if key != "device" {
      assert c[0] != 'D' || c[1] != 'e' || c[2] != 'v';
    }
  }

  function TestSpecToJson(t: TestSpec): (j: Json)
    ensures j.JObj? && j.fields.Keys == SpecKeys
  {
    JObj(map["description" := t.description, "target_model_id" := t.targetModelId,
             "parameters" := t.parameters])
  }

  function TestSpecFromJson(j: Json): (r: Result<TestSpec, DecodeError>)
    ensures r.Success? <==> j.JObj? && j.fields.Keys == SpecKeys
    ensures !j.JObj? ==> r == Failure(AttributeError)
    ensures r.Success? ==> TestSpecToJson(r.value) == j
  {
    match j
    case JObj(f) =>
      if f.Keys != SpecKeys then Failure(TypeError)
      else Success(TestSpec(f["description"], f["target_model_id"], f["parameters"]))
    case _ => Failure(AttributeError)
  }

  function DeviceToJson(d: Device): (j: Json)
    ensures j.JObj? && j.fields.Keys == DeviceKeys
  {
    JObj(map["serial" := d.serial, "random_id" := d.randomId, "model_id" := d.modelId,
             "fw_version" := d.fwVersion, "hw_version" := d.hwVersion])
  }

  function DeviceFromJson(j: Json): (r: Result<Device, DecodeError>)
    ensures r.Success? <==> j.JObj? && j.fields.Keys == DeviceKeys
    ensures !j.JObj? ==> r == Failure(AttributeError)
    ensures r.Success? ==> DeviceToJson(r.value) == j
  {
    match j
    case JObj(f) =>
      if f.Keys != DeviceKeys then Failure(TypeError)
      else Success(Device(f["serial"], f["random_id"], f["model_id"], f["fw_version"], f["hw_version"]))
    case _ => Failure(AttributeError)
  }

  function DeviceFieldToJson(f: DeviceField): Json {
    match f
    case DeviceObj(d) => DeviceToJson(d)
    case RawDevice(v) => v
  }

  function TestResultToJson(t: TestResult): (j: Json)
    ensures j.JObj? && j.fields.Keys == ResultKeys
  {
    JObj(map["device" := DeviceFieldToJson(t.device), "passed" := t.passed,
             "parameters" := t.parameters])
  }

  function TestResultFromJson(j: Json): (r: Result<TestResult, DecodeError>)
    ensures r.Success? <==>
      j.JObj? && j.fields.Keys == ResultKeys
      && (j.fields["device"].JObj? ==> j.fields["device"].fields.Keys == DeviceKeys)
    ensures !j.JObj? ==> r == Failure(AttributeError)
    ensures r.Success? ==> (r.value.device.DeviceObj? <==> j.fields["device"].JObj?)
    ensures r.Success? ==> TestResultToJson(r.value) == j
  {
    match j
    case JObj(f) =>
      if f.Keys != ResultKeys then Failure(TypeError)
      else if f["device"].JObj? then
        var d :- DeviceFromJson(f["device"]);
        Success(TestResult(DeviceObj(d), f["passed"], f["parameters"]))
      else Success(TestResult(RawDevice(f["device"]), f["passed"], f["parameters"]))
    case _ => Failure(AttributeError)
  }

  /** `from_json(to_json(x)) == x` for the three records. */
  lemma CodecRoundTrip(spec: TestSpec, device: Device, result: TestResult)
    requires result.device.RawDevice? ==> !result.device.value.JObj?
    ensures TestSpecFromJson(TestSpecToJson(spec)) == Success(spec)
    ensures DeviceFromJson(DeviceToJson(device)) == Success(device)
    ensures TestResultFromJson(TestResultToJson(result)) == Success(result)
  {
    var j := TestResultToJson(result);
    assert j.fields["device"] == DeviceFieldToJson(result.device);
    if result.device.DeviceObj? {
      assert DeviceFromJson(DeviceToJson(result.device.device)) == Success(result.device.device);
    }
  }

  // ---------------------------------------------------------------------
  // The runner
  // ---------------------------------------------------------------------

  /** A received payload: empty, not UTF-8, not JSON, or a parsed document. */
  datatype Payload = EmptyPayload | NotUtf8 | NotJson | Document(doc: Json)

  datatype Message = Message(topic: string, payload: Payload)

  datatype Publication = Publication(topic: string, payload: Json)

  /** One block appended to the report file: the header line and the indented result. */
  datatype ReportEntry = ReportEntry(header: string, result: Json)

  datatype Runner = Runner(
    outFile: Option<string>, spec: Option<TestSpec>,
    devices: seq<Device>, report: seq<ReportEntry>)

  /**
    How a message ends: handled (possibly ignored), rejected as invalid JSON
    with a printed message, or with an exception escaping `on_message`.
   */
  datatype Outcome = Handled | Rejected | Crashed

  datatype Step = Step(runner: Runner, published: seq<Publication>, outcome: Outcome)

  function NewRunner(outFile: Option<string>): (r: Runner)
    ensures r.spec.None? && r.devices == [] && r.report == []
  {
    Runner(outFile, None, [], [])
  }

  function LoadTestSpec(r: Runner, spec: TestSpec): (r': Runner)
    ensures r' == r.(spec := Some(spec))
  {
    r.(spec := Some(spec))
  }

  predicate Tracked(devices: seq<Device>, serial: Json) {
    exists i :: 0 <= i < |devices| && devices[i].serial == serial
  }

  predicate UniqueSerials(devices: seq<Device>) {
    forall i, j :: 0 <= i < j < |devices| ==> devices[i].serial != devices[j].serial
  }

  /** Python truthiness of the optional output file name. */
  predicate Truthy(file: Option<string>) {
    file.Some? && |file.value| > 0
  }

  /** The device's start topic, whose last segment is "test_start" and whose head names the device. */
  function StartTestTopic(serial: string): (t: string)
    ensures SplitTopic(t) == (DevicesTopic + "/" + serial, TestStart)
  {
    var t := DevicesTopic + "/" + serial + "/" + TestStart;
    assert '/' in t by { assert t[|t| - |TestStart| - 1] == '/'; }
    LastSegmentUnique(SplitTopic(t).0, SplitTopic(t).1, DevicesTopic + "/" + serial, TestStart);
    t
  }

  /** `start_test`: one publication of the spec to the device's start topic, or none without a spec. */
  function StartTest(spec: Option<TestSpec>, serial: string): (ps: seq<Publication>)
    ensures spec.None? <==> ps == []
    ensures spec.Some? ==>
      ps == [Publication(StartTestTopic(serial), TestSpecToJson(spec.value))]
  {
    if spec.None? then []
    else [Publication(StartTestTopic(serial), TestSpecToJson(spec.value))]
  }

  function ReportHeader(serial: string): string {
    "#### TEST RESULT - DEVICE: " + serial + " ####\n"
  }

  /** The first index whose device has `serial`, or `|devices|`. */
  function FirstWithSerial(devices: seq<Device>, serial: Json): (i: nat)
    ensures i <= |devices|
    ensures i < |devices| ==> devices[i].serial == serial
    ensures forall k :: 0 <= k < i ==> devices[k].serial != serial
    decreases |devices|
  {
    if |devices| == 0 || devices[0].serial == serial then 0
    else 1 + FirstWithSerial(devices[1..], serial)
  }

  function Unchanged(r: Runner, outcome: Outcome): Step {
    Step(r, [], outcome)
  }

  /** A message under `devices_topic`: a device announcing itself. */
  function OnAnnouncement(r: Runner, last: string, payload: Payload): (st: Step)
    requires payload != EmptyPayload
    ensures st.runner.spec == r.spec && st.runner.outFile == r.outFile
    ensures st.published == [] <==> st.runner == r
    ensures st.published != [] ==>
      st.outcome == Handled && st.published == StartTest(r.spec, last) && r.spec.Some?
      && |st.runner.devices| == |r.devices| + 1 && st.runner.report == r.report
  {
    match payload
    case NotUtf8 => Unchanged(r, Crashed)
    case NotJson => Unchanged(r, Rejected)
    case Document(doc) =>
      match DeviceFromJson(doc)
      case Failure(e) => Unchanged(r, if e == TypeError then Rejected else Crashed)
      case Success(d) =>
        if d.serial != JStr(last) || Tracked(r.devices, d.serial) then Unchanged(r, Handled)
        else if r.spec.None? then Unchanged(r, Crashed)
        else if d.modelId != r.spec.value.targetModelId then Unchanged(r, Handled)
        else Step(r.(devices := r.devices + [d]), StartTest(r.spec, last), Handled)
  }

  /** A message on `<prefix>/test_result`: a device reporting its result. */
  function OnResult(r: Runner, prefix: string, payload: Payload): (st: Step)
    requires payload != EmptyPayload
    ensures st.runner.spec == r.spec && st.runner.outFile == r.outFile
    ensures st.published == []
    ensures st.outcome != Handled ==> st.runner == r
    ensures |st.runner.devices| < |r.devices| || st.runner == r
  {
    match payload
    case NotUtf8 => Unchanged(r, Crashed)
    case NotJson => Unchanged(r, Rejected)
    case Document(doc) =>
      match TestResultFromJson(doc)
      case Failure(e) => Unchanged(r, if e == TypeError then Rejected else Crashed)
      case Success(res) =>
        if res.device.RawDevice? then Unchanged(r, Crashed)
        else
          var serial := SplitTopic(prefix).1;
          if JStr(serial) != res.device.device.serial then Unchanged(r, Handled)
          else
            var i := FirstWithSerial(r.devices, JStr(serial));
            if i == |r.devices| then Unchanged(r, Handled)
            else
              var entry := ReportEntry(ReportHeader(serial), TestResultToJson(res));
              var report := if Truthy(r.outFile) then r.report + [entry] else r.report;
              Step(r.(devices := r.devices[..i] + r.devices[i + 1..], report := report), [], Handled)
  }

  /** `TestRunner.on_message`. */
  function OnMessage(r: Runner, m: Message): (st: Step)
    ensures st.runner.spec == r.spec && st.runner.outFile == r.outFile
    ensures m.payload == EmptyPayload ==> st == Step(r, [], Handled)
    ensures m.payload in {NotJson, NotUtf8} ==> st.runner == r && st.published == []
    ensures st.outcome != Handled ==> st.runner == r && st.published == []
    ensures st.published != [] ==>
      |st.published| == 1 && r.spec.Some? && SplitTopic(m.topic).0 == DevicesTopic
      && st.published == StartTest(r.spec, SplitTopic(m.topic).1)
      && |st.runner.devices| == |r.devices| + 1 && st.runner.report == r.report
    ensures SplitTopic(m.topic).0 != DevicesTopic && SplitTopic(m.topic).1 != TestResultSuffix ==>
      st == Step(r, [], Handled)
  {
    if m.payload == EmptyPayload then Unchanged(r, Handled)
    else
      var (prefix, last) := SplitTopic(m.topic);
      if prefix == DevicesTopic then OnAnnouncement(r, last, m.payload)
      else if last == TestResultSuffix then OnResult(r, prefix, m.payload)
      else Unchanged(r, Handled)
  }

  /**
    With a spec loaded, an announcement is admitted iff the topic's last
    segment is the payload's serial, no tracked device has that serial and
    the model id is the spec's target. Admission appends exactly that device
    and starts its test; anything else changes nothing and publishes nothing.
   */
  lemma AnnouncementAdmission(r: Runner, topic: string, doc: Json)
    requires SplitTopic(topic).0 == DevicesTopic && r.spec.Some?
    requires DeviceFromJson(doc).Success?
    ensures var d := DeviceFromJson(doc).value;
      var st := OnMessage(r, Message(topic, Document(doc)));
      var admitted := d.serial == JStr(SplitTopic(topic).1) && !Tracked(r.devices, d.serial)
        && d.modelId == r.spec.value.targetModelId;
      st.outcome == Handled
      && (admitted ==>
            st.runner == r.(devices := r.devices + [d])
            && st.published == StartTest(r.spec, SplitTopic(topic).1))
      && (!admitted ==> st.runner == r && st.published == [])
  {
  }

  /** A non-empty message under the devices topic goes to the announcement handler. */
  lemma RoutedToAnnouncement(r: Runner, topic: string, payload: Payload)
    requires payload != EmptyPayload && SplitTopic(topic).0 == DevicesTopic
    ensures OnMessage(r, Message(topic, payload)) == OnAnnouncement(r, SplitTopic(topic).1, payload)
  {
  }

  /** A non-empty message on any other `<prefix>/test_result` goes to the result handler. */
  lemma RoutedToResult(r: Runner, topic: string, payload: Payload)
    requires payload != EmptyPayload
    requires SplitTopic(topic).0 != DevicesTopic && SplitTopic(topic).1 == TestResultSuffix
    ensures OnMessage(r, Message(topic, payload)) == OnResult(r, SplitTopic(topic).0, payload)
  {
  }

  /** A document missing a field or carrying an unexpected one is rejected without effect. */
  lemma BadFieldsRejected(r: Runner, topic: string, doc: Json)
    requires doc.JObj?
    requires SplitTopic(topic).0 == DevicesTopic ==> doc.fields.Keys != DeviceKeys
    requires SplitTopic(topic).0 != DevicesTopic ==> doc.fields.Keys != ResultKeys
    ensures OnMessage(r, Message(topic, Document(doc))).runner == r
    ensures OnMessage(r, Message(topic, Document(doc))).published == []
    ensures SplitTopic(topic).0 == DevicesTopic || SplitTopic(topic).1 == TestResultSuffix ==>
      OnMessage(r, Message(topic, Document(doc))).outcome == Rejected
  {
    var (prefix, last) := SplitTopic(topic);
    if prefix == DevicesTopic {
      RoutedToAnnouncement(r, topic, Document(doc));
      BadDeviceRejected(r, last, doc);
    } else if last == TestResultSuffix {
      RoutedToResult(r, topic, Document(doc));
      BadResultRejected(r, prefix, doc);
    }
  }

  lemma BadDeviceRejected(r: Runner, last: string, doc: Json)
    requires doc.JObj? && doc.fields.Keys != DeviceKeys
    ensures OnAnnouncement(r, last, Document(doc)) == Step(r, [], Rejected)
  {
    assert DeviceFromJson(doc) == Failure(TypeError);
  }

  lemma BadResultRejected(r: Runner, prefix: string, doc: Json)
    requires doc.JObj? && doc.fields.Keys != ResultKeys
    ensures OnResult(r, prefix, Document(doc)) == Step(r, [], Rejected)
  {
    assert TestResultFromJson(doc) == Failure(TypeError);
  }

  /** The result handler removes the first device with the topic's serial when the document names it. */
  lemma ResultRemovesFirst(r: Runner, prefix: string, doc: Json, i: nat)
    requires TestResultFromJson(doc).Success?
    requires TestResultFromJson(doc).value.device.DeviceObj?
    requires TestResultFromJson(doc).value.device.device.serial == JStr(SplitTopic(prefix).1)
    requires i < |r.devices| && i == FirstWithSerial(r.devices, JStr(SplitTopic(prefix).1))
    ensures var st := OnResult(r, prefix, Document(doc));
      st.outcome == Handled
      && st.runner.devices == r.devices[..i] + r.devices[i + 1..]
      && st.runner.report == r.report + (if Truthy(r.outFile) then
           [ReportEntry(ReportHeader(SplitTopic(prefix).1), doc)] else [])
  {
  }

  /**
    A result on `<devices_topic>/<s>/test_result` for the tracked device `i`
    removes exactly that device and appends one report entry when an output
    file is set, whatever `passed` says.
   */
  lemma ResultCorrelated(r: Runner, s: string, doc: Json, i: nat)
    requires '/' !in s && UniqueSerials(r.devices)
    requires TestResultFromJson(doc).Success?
    requires i < |r.devices| && TestResultFromJson(doc).value.device == DeviceObj(r.devices[i])
    requires r.devices[i].serial == JStr(s)
    ensures var st := OnMessage(r, Message(DevicesTopic + "/" + s + "/" + TestResultSuffix, Document(doc)));
      st.outcome == Handled && st.published == []
      && st.runner.devices == r.devices[..i] + r.devices[i + 1..]
      && st.runner.report == r.report + (if Truthy(r.outFile) then
           [ReportEntry(ReportHeader(s), doc)] else [])
  {
    var prefix := DevicesTopic + "/" + s;
    var topic := prefix + "/" + TestResultSuffix;
    SplitTopicOf(prefix, TestResultSuffix);
    SplitTopicOf(DevicesTopic, s);
    assert prefix != DevicesTopic by { assert |prefix| > |DevicesTopic|; }
    RoutedToResult(r, topic, Document(doc));
    assert FirstWithSerial(r.devices, JStr(s)) == i;
    ResultRemovesFirst(r, prefix, doc, i);
  }

  /** A result naming a serial no device is tracked under changes nothing. */
  lemma UnknownResultIgnored(r: Runner, topic: string, doc: Json)
    requires SplitTopic(topic).0 != DevicesTopic && SplitTopic(topic).1 == TestResultSuffix
    requires TestResultFromJson(doc).Success? && TestResultFromJson(doc).value.device.DeviceObj?
    requires !Tracked(r.devices, TestResultFromJson(doc).value.device.device.serial)
    ensures OnMessage(r, Message(topic, Document(doc))) == Step(r, [], Handled)
  {
    RoutedToResult(r, topic, Document(doc));
    ResultForUntracked(r, SplitTopic(topic).0, doc);
  }

  lemma ResultForUntracked(r: Runner, prefix: string, doc: Json)
    requires TestResultFromJson(doc).Success? && TestResultFromJson(doc).value.device.DeviceObj?
    requires !Tracked(r.devices, TestResultFromJson(doc).value.device.device.serial)
    ensures OnResult(r, prefix, Document(doc)) == Step(r, [], Handled)
  {
    var serial := TestResultFromJson(doc).value.device.device.serial;
    if JStr(SplitTopic(prefix).1) == serial {
      assert FirstWithSerial(r.devices, serial) == |r.devices|;
    }
  }

  /** The test_start message the runner publishes is not handled by either branch. */
  lemma {:induction false} EchoIgnored(r: Runner, serial: string, payload: Payload)
    ensures OnMessage(r, Message(StartTestTopic(serial), payload)) == Step(r, [], Handled)
  {
    var prefix := DevicesTopic + "/" + serial;
    assert StartTestTopic(serial) == prefix + "/" + TestStart;
    SplitTopicOf(prefix, TestStart);
    assert |prefix| > |DevicesTopic|;
  }

  lemma RemovePreservesUnique(devices: seq<Device>, i: nat)
    requires UniqueSerials(devices) && i < |devices|
    ensures UniqueSerials(devices[..i] + devices[i + 1..])
  {
    var rest := devices[..i] + devices[i + 1..];
    forall a, b | 0 <= a < b < |rest|
      ensures rest[a].serial != rest[b].serial
    {
      var a' := if a < i then a else a + 1;
      var b' := if b < i then b else b + 1;
      assert rest[a] == devices[a'] && rest[b] == devices[b'];
    }
  }

  lemma AnnouncementKeepsSerialsUnique(r: Runner, last: string, payload: Payload)
    requires payload != EmptyPayload && UniqueSerials(r.devices)
    ensures UniqueSerials(OnAnnouncement(r, last, payload).runner.devices)
  {
    var st := OnAnnouncement(r, last, payload);
    if st.runner != r {
      var d := DeviceFromJson(payload.doc).value;
      assert st.runner.devices == r.devices + [d];
      assert !Tracked(r.devices, d.serial);
    }
  }

  lemma ResultKeepsSerialsUnique(r: Runner, prefix: string, payload: Payload)
    requires payload != EmptyPayload && UniqueSerials(r.devices)
    ensures UniqueSerials(OnResult(r, prefix, payload).runner.devices)
  {
    var st := OnResult(r, prefix, payload);
    if st.runner != r {
      var res := TestResultFromJson(payload.doc).value;
      var i := FirstWithSerial(r.devices, res.device.device.serial);
      assert st.runner.devices == r.devices[..i] + r.devices[i + 1..];
      RemovePreservesUnique(r.devices, i);
    }
  }

  /** The runner never tracks two devices with the same serial. */
  lemma OnMessageKeepsSerialsUnique(r: Runner, m: Message)
    requires UniqueSerials(r.devices)
    ensures UniqueSerials(OnMessage(r, m).runner.devices)
  {
    if m.payload != EmptyPayload {
      var (prefix, last) := SplitTopic(m.topic);
      if prefix == DevicesTopic {
        AnnouncementKeepsSerialsUnique(r, last, m.payload);
      } else if last == TestResultSuffix {
        ResultKeepsSerialsUnique(r, prefix, m.payload);
      }
    }
  }
}
