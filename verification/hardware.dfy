/**
  The hardware selection of src/hardware.cpp: which revision's definition
  `init_hardware` installs for a factory version string, the version gate on
  the charger functions, and `digitalReadAny`. Pin levels and the battery
  voltage comparison are inputs.
 */
module Hardware {
  import opened Wrappers

  /** A `semver::version` without pre-release part. */
  datatype SemVer = SemVer(major: nat, minor: nat, patch: nat)

  /** `>=` on versions: lexicographic on major, minor, patch. */
  predicate AtLeast(v: SemVer, w: SemVer) {
    v.major > w.major
    || (v.major == w.major && (v.minor > w.minor || (v.minor == w.minor && v.patch >= w.patch)))
  }

  /** The revision definitions `hw_rev_1_0`, `hw_rev_2_0`, `hw_rev_2_2`, `hw_rev_2_3`. */
  datatype Revision = Rev1_0 | Rev2_0 | Rev2_2 | Rev2_3

  /**
    The global `HW`: a revision once `init_hardware` has installed one; before
    that it is the zero-initialised definition, whose version is 0.0.0.
   */
  type Hw = Option<Revision>

  /** The `version` field of each definition. */
  function VersionOf(r: Revision): (v: SemVer)
    ensures v.patch == 0
  {
    match r
    case Rev1_0 => SemVer(1, 0, 0)
    case Rev2_0 => SemVer(2, 0, 0)
    case Rev2_2 => SemVer(2, 2, 0)
    case Rev2_3 => SemVer(2, 3, 0)
  }

  /** `HW.version`: the installed definition's version, or the zero version before `init_hardware`. */
  function HwVersion(hw: Hw): (v: SemVer)
    ensures hw.None? <==> v.major == 0
    ensures v.minor <= 3 && v.patch == 0
  {
    if hw.Some? then VersionOf(hw.value) else SemVer(0, 0, 0)
  }

  const ChargerVersion := SemVer(2, 2, 0)

  /** `init_hardware`: one branch per supported string; any other string only logs an error. */
  function InitHardware(hw: Hw, hwVersion: string): (r: Hw)
    ensures hwVersion == "2.0" || hwVersion == "2.1" ==> r == Some(Rev2_0)
  {
    if hwVersion == "1.0" then Some(Rev1_0)
    else if hwVersion == "2.0" then Some(Rev2_0)
    else if hwVersion == "2.1" then Some(Rev2_0)
    else if hwVersion == "2.2" then Some(Rev2_2)
    else if hwVersion == "2.3" then Some(Rev2_3)
    else hw
  }

  /** The supported version strings and the revision each selects, as a table. */
  const Supported: map<string, Revision> :=
    map["1.0" := Rev1_0, "2.0" := Rev2_0, "2.1" := Rev2_0, "2.2" := Rev2_2, "2.3" := Rev2_3]

  /**
    `init_hardware` installs the table's revision for a supported string and
    leaves `HW` as it was for any other; so a second call with the same
    string changes nothing.
   */
  lemma InitHardwareIsTable(hw: Hw, hwVersion: string)
    ensures hwVersion in Supported ==> InitHardware(hw, hwVersion) == Some(Supported[hwVersion])
    ensures hwVersion !in Supported ==> InitHardware(hw, hwVersion) == hw
    ensures InitHardware(InitHardware(hw, hwVersion), hwVersion) == InitHardware(hw, hwVersion)
  {
  }

  /** The charger-circuit gate shared by the DC and battery probes: `v` from 2.2.0 on, false before. */
  function ChargerGated(hw: Hw, v: bool): bool {
    if AtLeast(HwVersion(hw), ChargerVersion) then v else false
  }

  /** `is_dc_connected`, given the level of the DC detect pin. */
  function IsDcConnected(hw: Hw, dcInLevel: bool): (r: bool)
    ensures r ==> dcInLevel
  {
    ChargerGated(hw, dcInLevel)
  }

  /** `enable_charger`: the level written to the charger enable pin, or nothing. */
  function EnableCharger(hw: Hw, enable: bool): (write: Option<bool>)
    ensures write.Some? ==> write.value == enable
  {
    if AtLeast(HwVersion(hw), ChargerVersion) then Some(enable) else None
  }

  /**
    `is_battery_present`: the measured battery voltage compared with the
    definition's `BATT_PRESENT_VOLT`, both in millivolts.
   */
  function IsBatteryPresent(hw: Hw, battMv: nat, presentMv: nat): (r: bool)
    ensures r ==> battMv >= presentMv
    ensures battMv < presentMv ==> !r
  {
    ChargerGated(hw, battMv >= presentMv)
  }

  /** The revisions that carry the DC detect and charger enable pins. */
  predicate HasCharger(hw: Hw) {
    hw == Some(Rev2_2) || hw == Some(Rev2_3)
  }

  /**
    The version gate selects exactly the 2.2 and 2.3 revisions: on the others
    (and before `init_hardware`) the DC and battery probes read false and the
    charger is never written; on those two the pin levels pass through.
   */
  lemma ChargerGate(hw: Hw, level: bool, battMv: nat, presentMv: nat)
    ensures HasCharger(hw) <==> AtLeast(HwVersion(hw), ChargerVersion)
    ensures !HasCharger(hw) ==>
      !IsDcConnected(hw, level) && !IsBatteryPresent(hw, battMv, presentMv) && EnableCharger(hw, level) == None
    ensures HasCharger(hw) ==>
      IsDcConnected(hw, level) == level && EnableCharger(hw, level) == Some(level)
      && IsBatteryPresent(hw, battMv, presentMv) == (battMv >= presentMv)
  {
  }

  /** Reading the version strings "2.0" to "2.3" enables the charger exactly from "2.2" on. */
  lemma ChargerFromVersionString(hw: Hw, hwVersion: string)
    requires hwVersion in Supported
    ensures HasCharger(InitHardware(hw, hwVersion)) <==> hwVersion == "2.2" || hwVersion == "2.3"
  {
  }

  /** The six button pins `BTN1_PIN` .. `BTN6_PIN` of a definition, in that order. */
  type ButtonPins = s: seq<nat> | |s| == 6 witness [1, 2, 3, 4, 5, 6]

  /** `digitalReadAny`: whether any button pin reads high. */
  function DigitalReadAny(pins: ButtonPins, level: nat -> bool): (r: bool)
    ensures forall k | 0 <= k < 6 :: level(pins[k]) ==> r
  {
    level(pins[0]) || level(pins[1]) || level(pins[2]) || level(pins[3]) || level(pins[4]) || level(pins[5])
  }

  /** `digitalReadAny` is high exactly when some button's pin is high. */
  lemma DigitalReadAnyIsExists(pins: ButtonPins, level: nat -> bool)
    ensures DigitalReadAny(pins, level) <==> exists k | 0 <= k < 6 :: level(pins[k])
  {
    if DigitalReadAny(pins, level) {
      var k :| 0 <= k < 6 && level(pins[k]);
    } else {
      forall k | 0 <= k < 6
        ensures !level(pins[k])
      {
        assert k == 0 || k == 1 || k == 2 || k == 3 || k == 4 || k == 5;
      }
    }
  }

  /** The button pins of `hw_rev_1_0` and `hw_rev_2_0` in src/hardware.h. */
  const PinsRev1_0: ButtonPins := [1, 2, 3, 4, 5, 6]
  const PinsRev2_0: ButtonPins := [5, 6, 21, 1, 3, 4]

  predicate DistinctPins(pins: ButtonPins) {
    forall j, k | 0 <= j < k < 6 :: pins[j] != pins[k]
  }

  lemma KnownPinsDistinct()
    ensures DistinctPins(PinsRev1_0) && DistinctPins(PinsRev2_0)
  {
  }

  /**
    `setup_hardware` of src/hardware.h, the earlier selection by a number:
    20 and up is revision 2.0, 10 to 19 revision 1.0, anything lower keeps `HW`.
   */
  function SetupHardware(hw: Hw, hwVersion: nat): (r: Hw)
    ensures hwVersion >= 20 ==> r == Some(Rev2_0)
    ensures 10 <= hwVersion < 20 ==> r == Some(Rev1_0)
    ensures hwVersion < 10 ==> r == hw
  {
    if hwVersion >= 20 then Some(Rev2_0) else if hwVersion >= 10 then Some(Rev1_0) else hw
  }

  /**
    The two selections agree on the revisions both know: the number written
    as major * 10 + minor picks what `init_hardware` picks for "1.0", "2.0" and "2.1".
   */
  lemma SelectionsAgree(hw: Hw)
    ensures SetupHardware(hw, 10) == InitHardware(hw, "1.0")
    ensures SetupHardware(hw, 20) == InitHardware(hw, "2.0")
    ensures SetupHardware(hw, 21) == InitHardware(hw, "2.1")
  {
  }
}
