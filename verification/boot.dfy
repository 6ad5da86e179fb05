/**
  The boot logic of src/main.cpp, the earlier firmware's single `setup()`:
  how a wake-up is classified into a `BootReason` by the press-duration
  ladder, how the boot reason and the persisted flags select a
  `ControlFlow`, the topics `set_topics` builds, which button a wake-up pin
  stands for, and the persisted flags the `BTN_PRESS` and `TIMER` flows
  update. Pin levels, elapsed times and connection outcomes are inputs.
 */
module Boot {
  import opened Text
  import Hardware
  import App
  import MqttTopics

  datatype BootReason = NoReason | Tmr | Rst | Btn | BtnMedium | BtnLong | BtnExtraLong | BtnUltraLong

  datatype ControlFlow = NoFlow | WifiSetup | Setup | Reset | BtnPress | FacReset | Timer | ShowInfo | AfterUpdate

  /** `PersistedVars` of include/prefs.h. */
  datatype PersistedVars = PersistedVars(
    lowBattMode: bool, wifiDone: bool, setupDone: bool, wifiQuickConnect: bool,
    infoScreenShowing: bool, chargeCompleteShowing: bool, resetToSetup: bool,
    failedConnections: nat, checkConnection: bool, lastSwVer: string)

  // ---------------------------------------------------------------- routing

  /**
    The `switch (boot_reason)`: the control flow, and the persisted flags
    after it (a reset into setup clears `reset_to_setup`). `swVersion` is the
    firmware's `SW_VERSION`.
   */
  function Route(reason: BootReason, p: PersistedVars, swVersion: string): (r: (ControlFlow, PersistedVars))
    ensures r.1 == p || (reason == Rst && p.resetToSetup && r.1 == p.(resetToSetup := false))
  {
    match reason
    case NoReason => (NoFlow, p)
    case Rst =>
      if p.resetToSetup then (Setup, p.(resetToSetup := false))
      else if p.lastSwVer != swVersion then (AfterUpdate, p)
      else (Reset, p)
    case Tmr => if !p.wifiDone && !p.setupDone then (NoFlow, p) else (Timer, p)
    case Btn => if !p.wifiDone then (WifiSetup, p) else if !p.setupDone then (Setup, p) else (BtnPress, p)
    case BtnMedium => if !p.wifiDone then (WifiSetup, p) else if !p.setupDone then (Setup, p) else (ShowInfo, p)
    case BtnLong => if !p.wifiDone then (WifiSetup, p) else (Setup, p)
    case BtnExtraLong => (WifiSetup, p)
    case BtnUltraLong => (FacReset, p)
  }

  predicate ShortPress(reason: BootReason) {
    reason == Btn || reason == BtnMedium || reason == BtnLong
  }

  /**
    The routing table read by control flow: for each flow, exactly the boot
    reasons and flag values that lead to it. Only an ultra long press resets
    to factory settings; Wi-Fi setup is forced by an extra long press and is
    otherwise where every short press goes until Wi-Fi is configured.
   */
  lemma RouteByFlow(reason: BootReason, p: PersistedVars, swVersion: string)
    ensures var f := Route(reason, p, swVersion).0;
      && (f == FacReset <==> reason == BtnUltraLong)
      && (f == WifiSetup <==> reason == BtnExtraLong || (ShortPress(reason) && !p.wifiDone))
      && (f == Setup <==>
            (reason == Rst && p.resetToSetup)
            || ((reason == Btn || reason == BtnMedium) && p.wifiDone && !p.setupDone)
            || (reason == BtnLong && p.wifiDone))
      && (f == BtnPress <==> reason == Btn && p.wifiDone && p.setupDone)
      && (f == ShowInfo <==> reason == BtnMedium && p.wifiDone && p.setupDone)
      && (f == Timer <==> reason == Tmr && (p.wifiDone || p.setupDone))
      && (f == NoFlow <==> reason == NoReason || (reason == Tmr && !p.wifiDone && !p.setupDone))
      && (f == AfterUpdate <==> reason == Rst && !p.resetToSetup && p.lastSwVer != swVersion)
      && (f == Reset <==> reason == Rst && !p.resetToSetup && p.lastSwVer == swVersion)
  {
  }

  /** Only a reset into setup changes the persisted flags, and it clears `reset_to_setup`, so the next reset does not repeat it. */
  lemma SetupAfterResetIsOneShot(p: PersistedVars, swVersion: string)
    requires p.resetToSetup
    ensures var r := Route(Rst, p, swVersion);
      r.0 == Setup && !r.1.resetToSetup && Route(Rst, r.1, swVersion).0 != Setup
  {
  }

  // ---------------------------------------------------------------- press ladder

  /** One reading of the wake-up pin: its level and the time since the wake-up. */
  datatype Sample = Sample(pressed: bool, elapsed: nat)

  /** `MEDIUM_PRESS_TIME`, `LONG_PRESS_TIME`, `EXTRA_LONG_PRESS_TIME`, `ULTRA_LONG_PRESS_TIME`. */
  datatype PressTimes = PressTimes(medium: nat, long: nat, extraLong: nat, ultraLong: nat)

  /** The rungs of the ladder: the values `ctrl` takes before the decision. */
  predicate IsRung(ctrl: int) {
    ctrl == 0 || ctrl == 1 || ctrl == 3 || ctrl == 4
  }

  /** The rung above each: 0, 1, 3, 4 in that order, then the decision. */
  function NextRung(ctrl: int): int {
    if ctrl == 0 then 1 else if ctrl == 1 then 3 else if ctrl == 3 then 4 else -1
  }

  /** How far up the ladder a rung, or a press decided there, lies. */
  function RungRank(ctrl: int): nat {
    if ctrl == 0 then 0 else if ctrl == 1 then 1 else if ctrl == 3 then 2 else 3
  }

  function ReasonRank(r: BootReason): nat {
    match r
    case BtnMedium => 1
    case BtnLong => 2
    case BtnExtraLong => 3
    case BtnUltraLong => 4
    case _ => 0
  }

  /**
    One pass of the `switch (ctrl)`: a release decides the press by the
    rung it happens on, holding past the rung's time climbs one rung, and
    holding past the ultra long time on the top rung decides it as well.
   */
  function LadderStep(ctrl: int, s: Sample, t: PressTimes): (r: (int, BootReason))
    requires IsRung(ctrl)
    ensures r.0 == ctrl || r.0 == NextRung(ctrl) || r.0 == -1
    ensures r.0 == -1 <==> r.1 != NoReason
    ensures !s.pressed ==> r.0 == -1 && ReasonRank(r.1) == RungRank(ctrl) && r.1 != BtnUltraLong
    ensures r.1 == BtnUltraLong ==> ctrl == 4 && s.pressed && s.elapsed > t.ultraLong
  {
    if ctrl == 0 then
      if !s.pressed then (-1, Btn) else if s.elapsed > t.medium then (1, NoReason) else (0, NoReason)
    else if ctrl == 1 then
      if !s.pressed then (-1, BtnMedium) else if s.elapsed > t.long then (3, NoReason) else (1, NoReason)
    else if ctrl == 3 then
      if !s.pressed then (-1, BtnLong) else if s.elapsed > t.extraLong then (4, NoReason) else (3, NoReason)
    else
      if !s.pressed then (-1, BtnExtraLong) else if s.elapsed > t.ultraLong then (-1, BtnUltraLong) else (4, NoReason)
  }

  /**
    The ladder from rung `ctrl` over a sequence of readings: the reason and
    how many readings it took. Readings that run out before a decision
    leave `NoReason` (the firmware would keep reading).
   */
  function Ladder(ctrl: int, ss: seq<Sample>, t: PressTimes): (r: (BootReason, nat))
    requires IsRung(ctrl)
    ensures r.1 <= |ss|
    decreases |ss|
  {
    if ss == [] then (NoReason, 0)
    else
      var (c, reason) := LadderStep(ctrl, ss[0], t);
      if c == -1 then (reason, 1)
      else
        var rest := Ladder(c, ss[1..], t);
        (rest.0, rest.1 + 1)
  }

  /** The wake-up loop of `setup()`, reading one sample per pass. */
  method PressLadder(ss: seq<Sample>, t: PressTimes) returns (reason: BootReason, used: nat)
    ensures (reason, used) == Ladder(0, ss, t)
    ensures reason != NoReason ==> 0 < used <= |ss|
  {
    var ctrl := 0;
    var i := 0;
    reason := NoReason;
    while ctrl != -1 && i < |ss|
      invariant 0 <= i <= |ss| && (IsRung(ctrl) || ctrl == -1)
      invariant IsRung(ctrl) ==>
        reason == NoReason && (Ladder(ctrl, ss[i..], t).0, Ladder(ctrl, ss[i..], t).1 + i) == Ladder(0, ss, t)
      invariant ctrl == -1 ==> (reason, i) == Ladder(0, ss, t) && i > 0
      decreases |ss| - i
    {
      assert ss[i..][1..] == ss[i + 1..];
      var step := LadderStep(ctrl, ss[i], t);
      ctrl := step.0;
      reason := step.1;
      i := i + 1;
    }
    if ctrl != -1 {
      assert ss[i..] == [];
    }
    used := i;
  }

  /** The ladder never decides below the rung it starts on. */
  lemma {:induction false} LadderOnlyClimbs(ctrl: int, ss: seq<Sample>, t: PressTimes)
    requires IsRung(ctrl)
    ensures var r := Ladder(ctrl, ss, t).0; r != NoReason ==> ReasonRank(r) >= RungRank(ctrl)
    decreases |ss|
  {
    if ss != [] {
      var (c, reason) := LadderStep(ctrl, ss[0], t);
      if c != -1 {
        LadderOnlyClimbs(c, ss[1..], t);
      }
    }
  }

  /** A release among the readings always decides the press. */
  lemma {:induction false} ReleaseDecides(ctrl: int, ss: seq<Sample>, t: PressTimes, k: nat)
    requires IsRung(ctrl) && k < |ss| && !ss[k].pressed
    ensures Ladder(ctrl, ss, t).0 != NoReason && Ladder(ctrl, ss, t).1 <= k + 1
    decreases k
  {
    var (c, reason) := LadderStep(ctrl, ss[0], t);
    if c != -1 {
      assert ss[1..][k - 1] == ss[k];
      ReleaseDecides(c, ss[1..], t, k - 1);
    }
  }

  /**
    A press is a plain `BTN` exactly when none of the readings before the
    release exceeded the medium press time.
   */
  lemma {:induction false} ShortPressExactly(ss: seq<Sample>, t: PressTimes, k: nat)
    requires k < |ss| && !ss[k].pressed && forall j | 0 <= j < k :: ss[j].pressed
    ensures Ladder(0, ss, t).0 == Btn <==> forall j | 0 <= j < k :: ss[j].elapsed <= t.medium
    decreases k
  {
    if k > 0 {
      var (c, reason) := LadderStep(0, ss[0], t);
      assert ss[1..][k - 1] == ss[k];
      if c == 1 {
        ReleaseDecides(1, ss[1..], t, k - 1);
        LadderOnlyClimbs(1, ss[1..], t);
      } else {
        assert forall j | 0 <= j < k - 1 :: ss[1..][j] == ss[j + 1];
        ShortPressExactly(ss[1..], t, k - 1);
        assert (forall j | 0 <= j < k :: ss[j].elapsed <= t.medium)
          <==> (forall j | 0 <= j < k - 1 :: ss[1..][j].elapsed <= t.medium);
      }
    }
  }

  /** An ultra long press needs a reading, still pressed, past the ultra long time. */
  lemma {:induction false} UltraLongNeedsHold(ctrl: int, ss: seq<Sample>, t: PressTimes) returns (j: nat)
    requires IsRung(ctrl) && Ladder(ctrl, ss, t).0 == BtnUltraLong
    ensures j < Ladder(ctrl, ss, t).1 && ss[j].pressed && ss[j].elapsed > t.ultraLong
    decreases |ss|
  {
    var (c, reason) := LadderStep(ctrl, ss[0], t);
    if c == -1 {
      j := 0;
    } else {
      var j1 := UltraLongNeedsHold(c, ss[1..], t);
      j := j1 + 1;
    }
  }

  // ---------------------------------------------------------------- topics

  /** `Topics` of include/prefs.h, as `set_topics` fills it. */
  datatype Topics = Topics(
    btnPress: seq<string>, temperature: string, humidity: string, battery: string,
    sensorIntervalState: string, sensorIntervalCmd: string,
    btnLabelState: seq<string>, btnLabelCmd: seq<string>)

  /** `set_topics`: Arduino `String`s, so nothing is cut. */
  function SetTopics(baseTopic: string, deviceName: string): (r: Topics)
    ensures |r.btnPress| == 6 && |r.btnLabelState| == 6 && |r.btnLabelCmd| == 6
  {
    var common := baseTopic + "/" + deviceName + "/";
    var cmd := common + "cmd/";
    Topics(
      seq(6, i requires 0 <= i < 6 => common + "button_" + NatToDecimal(i + 1)),
      common + "temperature", common + "humidity", common + "battery",
      common + "sensor_interval", cmd + "sensor_interval",
      seq(6, i requires 0 <= i < 6 => common + "btn_" + NatToDecimal(i + 1) + "_label"),
      seq(6, i requires 0 <= i < 6 => cmd + "btn_" + NatToDecimal(i + 1) + "_label"))
  }

  /**
    The earlier topics are the ones `MQTTHelper` builds from the same base
    topic and device name whenever those leave room for the suffixes, so
    the two firmware generations talk on the same topics.
   */
  lemma SetTopicsAgreesWithHelper(baseTopic: string, deviceName: string, i: nat)
    requires i < 6
    requires |baseTopic + "/" + deviceName + "/"| + 19 <= MqttTopics.MaxTopicLength
    ensures var p := MqttTopics.Prefs(baseTopic, deviceName);
      var ts := SetTopics(baseTopic, deviceName);
      && ts.btnPress[i] == MqttTopics.Build(p, MqttTopics.BtnPress(i))
      && ts.btnLabelState[i] == MqttTopics.Build(p, MqttTopics.BtnLabelState(i))
      && ts.btnLabelCmd[i] == MqttTopics.Build(p, MqttTopics.BtnLabelCmd(i))
      && ts.sensorIntervalCmd == MqttTopics.Build(p, MqttTopics.SensorIntervalCmd)
      && ts.sensorIntervalState == MqttTopics.Build(p, MqttTopics.SensorIntervalState)
      && ts.temperature == MqttTopics.Build(p, MqttTopics.Temperature)
  {
    PressTopicAgrees(baseTopic, deviceName, i);
    LabelStateTopicAgrees(baseTopic, deviceName, i);
    LabelCmdTopicAgrees(baseTopic, deviceName, i);
    FixedTopicsAgree(baseTopic, deviceName);
  }

  lemma PressTopicAgrees(baseTopic: string, deviceName: string, i: nat)
    requires i < 6
    requires |baseTopic + "/" + deviceName + "/"| + 19 <= MqttTopics.MaxTopicLength
    ensures SetTopics(baseTopic, deviceName).btnPress[i]
      == MqttTopics.Build(MqttTopics.Prefs(baseTopic, deviceName), MqttTopics.BtnPress(i))
  {
    var common := baseTopic + "/" + deviceName + "/";
    var d := NatToDecimal(i + 1);
    assert |d| == 1;
    BuildUncut(MqttTopics.Prefs(baseTopic, deviceName), MqttTopics.BtnPress(i));
    assert common + "button_" + d == common + ("button_" + d);
  }

  lemma LabelStateTopicAgrees(baseTopic: string, deviceName: string, i: nat)
    requires i < 6
    requires |baseTopic + "/" + deviceName + "/"| + 19 <= MqttTopics.MaxTopicLength
    ensures SetTopics(baseTopic, deviceName).btnLabelState[i]
      == MqttTopics.Build(MqttTopics.Prefs(baseTopic, deviceName), MqttTopics.BtnLabelState(i))
  {
    var common := baseTopic + "/" + deviceName + "/";
    var d := NatToDecimal(i + 1);
    assert |d| == 1;
    BuildUncut(MqttTopics.Prefs(baseTopic, deviceName), MqttTopics.BtnLabelState(i));
    assert common + "btn_" + d + "_label" == common + ("btn_" + d + "_label");
  }

  lemma LabelCmdTopicAgrees(baseTopic: string, deviceName: string, i: nat)
    requires i < 6
    requires |baseTopic + "/" + deviceName + "/"| + 19 <= MqttTopics.MaxTopicLength
    ensures SetTopics(baseTopic, deviceName).btnLabelCmd[i]
      == MqttTopics.Build(MqttTopics.Prefs(baseTopic, deviceName), MqttTopics.BtnLabelCmd(i))
  {
    var common := baseTopic + "/" + deviceName + "/";
    var d := NatToDecimal(i + 1);
    assert |d| == 1;
    BuildUncut(MqttTopics.Prefs(baseTopic, deviceName), MqttTopics.BtnLabelCmd(i));
    assert common + "cmd/" + "btn_" + d + "_label" == common + ("cmd/" + ("btn_" + d + "_label"));
  }

  lemma FixedTopicsAgree(baseTopic: string, deviceName: string)
    requires |baseTopic + "/" + deviceName + "/"| + 19 <= MqttTopics.MaxTopicLength
    ensures var p := MqttTopics.Prefs(baseTopic, deviceName);
      var ts := SetTopics(baseTopic, deviceName);
      && ts.sensorIntervalCmd == MqttTopics.Build(p, MqttTopics.SensorIntervalCmd)
      && ts.sensorIntervalState == MqttTopics.Build(p, MqttTopics.SensorIntervalState)
      && ts.temperature == MqttTopics.Build(p, MqttTopics.Temperature)
  {
    IntervalCmdTopicAgrees(baseTopic, deviceName);
    FixedTopicAgrees(baseTopic, deviceName, MqttTopics.SensorIntervalState, "sensor_interval");
    FixedTopicAgrees(baseTopic, deviceName, MqttTopics.Temperature, "temperature");
  }

  /** A state topic with a fixed suffix that fits is `common` followed by that suffix. */
  lemma FixedTopicAgrees(baseTopic: string, deviceName: string, b: MqttTopics.Builder, suffix: string)
    requires MqttTopics.InRange(b) && MqttTopics.Suffix(b) == suffix
    requires |baseTopic + "/" + deviceName + "/"| + |suffix| <= MqttTopics.MaxTopicLength
    ensures MqttTopics.Build(MqttTopics.Prefs(baseTopic, deviceName), b) == baseTopic + "/" + deviceName + "/" + suffix
  {
    BuildUncut(MqttTopics.Prefs(baseTopic, deviceName), b);
  }

  /** The interval command topic: the `cmd/` level and the suffix, uncut. */
  lemma IntervalCmdTopicAgrees(baseTopic: string, deviceName: string)
    requires |baseTopic + "/" + deviceName + "/"| + 19 <= MqttTopics.MaxTopicLength
    ensures MqttTopics.Build(MqttTopics.Prefs(baseTopic, deviceName), MqttTopics.SensorIntervalCmd)
      == baseTopic + "/" + deviceName + "/" + "cmd/" + "sensor_interval"
  {
    var common := baseTopic + "/" + deviceName + "/";
    BuildUncut(MqttTopics.Prefs(baseTopic, deviceName), MqttTopics.SensorIntervalCmd);
    assert common + ("cmd/" + "sensor_interval") == common + "cmd/" + "sensor_interval";
  }

  /** A topic that fits is built uncut. */
  lemma BuildUncut(p: MqttTopics.Prefs, b: MqttTopics.Builder)
    requires MqttTopics.InRange(b)
    requires |MqttTopics.CommonText(p) + MqttTopics.Suffix(b)| <= MqttTopics.MaxTopicLength
    ensures MqttTopics.Build(p, b) == MqttTopics.CommonText(p) + MqttTopics.Suffix(b)
  {
  }

  // ---------------------------------------------------------------- wake-up button

  /**
    The `BTN_PRESS` flow's `if` chain: the button number the wake-up pin
    stands for, 0 for `NO_BTN` when it is no button's pin.
   */
  function WakeupButton(pins: Hardware.ButtonPins, wakeupPin: nat): (b: nat)
    ensures b <= 6
  {
    if wakeupPin == pins[0] then 1
    else if wakeupPin == pins[1] then 3
    else if wakeupPin == pins[2] then 5
    else if wakeupPin == pins[3] then 6
    else if wakeupPin == pins[4] then 4
    else if wakeupPin == pins[5] then 2
    else 0
  }

  /**
    On a revision whose button pins differ, the wake-up pin of button pin
    `k` is reported as the same button id as the newer firmware's
    `_begin_buttons` gives that pin, and any other pin as no button.
   */
  lemma WakeupAgreesWithButtonMap(pins: Hardware.ButtonPins, wakeupPin: nat)
    requires Hardware.DistinctPins(pins)
    ensures forall k | 0 <= k < 6 :: WakeupButton(pins, pins[k]) == App.IdOfPin(k)
    ensures (forall k | 0 <= k < 6 :: wakeupPin != pins[k]) ==> WakeupButton(pins, wakeupPin) == 0
  {
  }

  // ---------------------------------------------------------------- persisted flags of two flows

  const MaxFailedConnections: nat := 5

  /**
    The start of the `BTN_PRESS` flow: a press first dismisses the info
    screen, then the charge-complete screen, then the connection warning
    (resetting the failure count); only when none is showing does it go on
    to publish the press, which the second component says.
   */
  function BtnPressFlags(p: PersistedVars): (r: (PersistedVars, bool))
    ensures r.1 <==> !p.infoScreenShowing && !p.chargeCompleteShowing && !p.checkConnection
    ensures r.1 ==> r.0 == p
  {
    if p.infoScreenShowing then (p.(infoScreenShowing := false), false)
    else if p.chargeCompleteShowing then (p.(chargeCompleteShowing := false), false)
    else if p.checkConnection then (p.(checkConnection := false, failedConnections := 0), false)
    else (p, true)
  }

  /** One failed connection attempt: the `uint8_t` count goes up, and reaching the maximum raises the warning. */
  function CountFailure(p: PersistedVars): (r: PersistedVars)
    ensures r.failedConnections == (p.failedConnections + 1) % 256
    ensures r.checkConnection <==> p.checkConnection || r.failedConnections >= MaxFailedConnections
    ensures r.(failedConnections := p.failedConnections, checkConnection := p.checkConnection) == p
  {
    var f := (p.failedConnections + 1) % 256;
    if f >= MaxFailedConnections then p.(failedConnections := f, checkConnection := true)
    else p.(failedConnections := f)
  }

  /**
    The `TIMER` flow's flags, given whether the charger reports standby and
    whether Wi-Fi and MQTT connect.
   */
  function TimerFlags(p: PersistedVars, chargerStandby: bool, wifiOk: bool, mqttOk: bool): PersistedVars {
    if p.infoScreenShowing then p.(infoScreenShowing := false)
    else
      var p1 := if chargerStandby && !p.chargeCompleteShowing then p.(chargeCompleteShowing := true) else p;
      if p1.checkConnection then p1
      else if !wifiOk || !mqttOk then CountFailure(p1)
      else p1
  }

  /** The failure count is at most the maximum and sits at it only while the warning shows. */
  predicate CounterWf(p: PersistedVars) {
    p.failedConnections <= MaxFailedConnections
    && (p.failedConnections == MaxFailedConnections ==> p.checkConnection)
  }

  /**
    A timer wake-up counts a failure exactly when no screen needs
    dismissing, no warning is up, and Wi-Fi or MQTT fails; the warning is
    raised only by such a failure, the one that brings the count to the
    maximum. A successful wake-up does not lower the count, so the failures
    need not be consecutive. The bound on the count holds across timer
    wake-ups and button presses.
   */
  lemma TimerCountsFailures(p: PersistedVars, chargerStandby: bool, wifiOk: bool, mqttOk: bool)
    requires CounterWf(p)
    ensures var r := TimerFlags(p, chargerStandby, wifiOk, mqttOk);
      && CounterWf(r) && CounterWf(BtnPressFlags(p).0)
      && (r.failedConnections != p.failedConnections <==>
            !p.infoScreenShowing && !p.checkConnection && (!wifiOk || !mqttOk))
      && (r.checkConnection != p.checkConnection ==> r.failedConnections == MaxFailedConnections)
  {
  }

  /**
    A button press while the connection warning shows clears it and starts
    the count over, so five more failed timer wake-ups are needed to raise it again.
   */
  lemma PressRestartsCount(p: PersistedVars)
    requires p.checkConnection && !p.infoScreenShowing && !p.chargeCompleteShowing
    ensures var r := BtnPressFlags(p).0;
      !r.checkConnection && r.failedConnections == 0
      && !TimerFlags(r, false, false, true).checkConnection
  {
  }
}
