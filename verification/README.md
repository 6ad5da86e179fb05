# Home Buttons in Dafny

A model of Home Buttons: an ESP32 wall panel with six buttons, an e-paper display and MQTT with
Home Assistant discovery, and its factory tools. The tools are written in Python; the firmware is
written in C++. The model covers the following, each as pure functions over immutable state:

- The factory data record. It is verified, packed into the 32-byte eFuse block, decoded and
  incremented from serial to serial. The flash tool's argument checks decide which record gets
  flashed.
- The factory test, seen from both sides. On the host, a runner tracks announced devices and
  correlates their results. On the device, it subscribes, announces, presses buttons and
  publishes a verdict.
- The firmware's text containers. The `StaticString` of both generations and the `CBuffer` under
  the newer one are modelled byte for byte, including their truncation and `size_t` arithmetic.
- The MQTT topic builders. `MQTTHelper` and the older `TopicHelper` each build the state, command
  and discovery topics.
- The settings store: `Preferences` reads and writes, saving and loading of the user and
  persisted settings, and label handling.
- Button input. This covers the click counters and multi-press detection of every firmware
  generation, the switch mode of the button UI, the touch panel's gestures, and the component and
  state-machine scaffolding.
- The LED drivers of the three generations.
- The boot path: wake-up routing, the press-length ladder, the hardware revision selection, the
  MQTT command callback and the failed-connection counter.

Clocks, pin levels, the broker, the file system and random numbers are inputs to the model. Side
effects are returned as data: publications, saves, LED steps and events.

## Model

| member | source | states |
|---|---|---|
| FactoryData.VerifyModelId | tools/factory_data.py:17-27 | a model id that passes `verify_model_id` has the 2 characters of its eFuse slot, all ASCII under the ASCII reading of `isalpha` and `isnumeric` |
| FactoryData.VerifyHwVersion | tools/factory_data.py:29-40 | a hardware version that passes `verify_hw_version` has the 3 characters of its slot, all ASCII under the ASCII reading of `isnumeric` |
| FactoryData.VerifySerial | tools/factory_data.py:42-53 | a serial that passes `verify_serial` has 8 characters, its only '-' at index 4 |
| FactoryData.VerifyRandomId | tools/factory_data.py:55-63 | a random id that passes `verify_random_id` has 6 characters, all ASCII under the ASCII reading of `isalnum` |
| FactoryData.Verify | tools/factory_data.py:65-69 | a record that passes `verify()` has every length `encode` asserts |
| FactoryData.SerialShape | tools/factory_data.py:41-52 | `verify_serial` holds exactly for an 8-character text whose only '-' is at index 4; the characters themselves are never checked |
| FactoryData.VerifiedLengths | tools/factory_data.py:65-69 | a record that passes `verify()` has the field lengths `encode` asserts; with the character classes read as ASCII (see "Left out"), only non-ASCII serial text can make `encode` fail |
| FactoryData.AsciiBytes | tools/factory_data.py:98-101 | `str.encode("utf-8")` on ASCII text: one byte per character, with the same code |
| FactoryData.DecodeAscii | tools/factory_data.py:80-83 | `bytes.decode("utf-8")` restricted to ASCII: the model accepts exactly the bytes below 0x80 (see "Left out"), and accepted bytes re-encode to themselves |
| FactoryData.Slice | tools/factory_data.py:80-83 | Python slicing `b[lo:hi]` clamps both bounds to the length, and is the plain subsequence when `hi` fits |
| FactoryData.Overwrite | tools/factory_data.py:98-101 | slice assignment `b[lo:lo+n] = x` puts `x` at `lo` and leaves every other byte as it was |
| FactoryData.Decode | tools/factory_data.py:78-84 | `decode` reads the fields from slots 0-8, 8-14, 14-16 and 16-19; with the ASCII-only decoding, it succeeds exactly when the 19 bytes of the head are ASCII, and each field then re-encodes to its slot |
| FactoryData.Encode | tools/factory_data.py:86-105 | `encode` fails with the first length assertion that fails, in source order; on success the block is 32 bytes with each field's bytes in its slot and zeros elsewhere |
| FactoryData.DecodeEncode | tools/factory_data.py:103-104 | the closing `assert self.decode(b) == self` holds for every record the length assertions accept |
| FactoryData.DecodeIgnoresPadding | tools/factory_data.py:78-84 | two blocks that agree on bytes 0-18 decode alike: the padding up to 32 bytes is never read |
| EfuseTable.ReadField | Firmware/HomeButtonsArduino/src/esp_efuse_custom_table.c:18-32 | a byte-aligned BLOCK3 field descriptor reads `bit_count / 8` bytes |
| EfuseTable.EncodedBlockMatchesTable | Firmware/HomeButtonsArduino/src/esp_efuse_custom_table.c:18-32 | the firmware's four BLOCK3 descriptors (bits 0+64, 64+48, 112+16, 128+24) read back exactly the serial, random id, model id and hardware version the Python encoder wrote; the fields do not overlap and fit in the 256-bit block |
| FlashTool.EncodeFactoryDataRoundTrip | tools/flash_tool.py:191-218 | the flash tool's copy of the codec completes the same round trip: `decode_factory_data(encode_factory_data(d)) == d` for an ASCII record of the right lengths |
| FlashTool.LastSerial | tools/flash_tool.py:364 | `rows[-1][2]` exists exactly when there is a last row with at least three cells |
| FlashTool.ModelData | tools/flash_tool.py:308-333 | with model_data.json present, `--model_id` or `--hw_version` is refused and an unreadable file is an error; otherwise the file's model id and hardware version are used. Without the file, both arguments are required, and they are used only when they have 2 and 3 characters |
| FlashTool.SerialFor | tools/flash_tool.py:356-380 | outside series mode the serial is `--serial`, possibly missing. In series mode an unreadable inventory is an error, and a missing inventory requires `--serial` and uses it. With an inventory, `--serial` is refused and the serial is the successor of the last row's serial, which must pass `verify_serial` |
| FlashTool.Resolve | tools/flash_tool.py:294-388 | the record `__main__` flashes always passes `verify()`. Its random id is `--random_id` if given, else a generated one, and a random id in series mode is refused. A series run with an inventory refuses `--serial` and flashes the successor of the last row's valid serial; without an inventory it requires `--serial`. Outside series mode the serial is `--serial`. Model id and hardware version come from model_data.json when it exists, and from the arguments otherwise |
| FlashTool.InvalidLastSerialReported | tools/flash_tool.py:360-370 | a last inventory serial that fails `verify_serial` exits with "Invalid last serial number": `parser.error` raises `SystemExit`, which the `except Exception` around it does not catch |
| Helpers.NextSuffix | tools/helpers.py:9 | for the value `v` that `int()` read, `str(v + 1).zfill(3)` is a digit string of at least three characters whose decimal value is `v + 1` |
| Text.Split | tools/helpers.py:8 | `s.split(sep)` gives one more piece than there are separators, and no piece contains the separator |
| Text.Join | tools/helpers.py:10 | `sep.join(parts)` is at least as long as the first piece plus one separator between each pair of pieces |
| Text.ZFill | tools/helpers.py:9 | `zfill(width)` pads on the left with '0' to at least `width` characters and keeps the text as the tail |
| Text.NatToDecimal | tools/helpers.py:9 | `str(n)` is a non-empty digit string with no leading zero |
| Helpers.IncrementSerial | tools/helpers.py:6-10 | a serial without '-' fails at `serial[1]` with an IndexError; with one, `increment_serial` succeeds exactly when `int()` accepts the second piece |
| Helpers.IncrementShape | tools/helpers.py:6-10 | a successful increment keeps the number of pieces and every piece but the second. The second becomes the zero-padded text of one more than the value `int()` read from it, and `int()` reads that back as the value plus one |
| Helpers.IncrementExample | tools/helpers.py:7 | the example in the source comment: "2301-001" becomes "2301-002" |
| Helpers.IncrementFirstSuffix | tools/helpers.py:6-10 | for any prefix without '-', the suffix "001" becomes "002" |
| Helpers.IncrementKeepsFormat | tools/helpers.py:6-10 | for a serial that passes `verify_serial` and whose suffix `int()` reads as a value below 999, the increment succeeds and its result still passes `verify_serial` |
| Helpers.IncrementPastFormat | tools/helpers.py:6-10 | for a serial that passes `verify_serial` and whose suffix `int()` reads as 999, the suffix grows to four digits: no error is raised, but the result no longer passes `verify_serial` |
| Helpers.PyIntOfDigits | tools/helpers.py:9 | `int()` of a non-empty ASCII digit string is its decimal value, leading zeros included |
| Helpers.PyIntLeadingSpace | tools/helpers.py:9 | whitespace before the number is skipped by `int()` |
| Helpers.PyIntTrailingSpace | tools/helpers.py:9 | whitespace after a number that neither starts nor ends with whitespace is skipped by `int()` |
| Helpers.PyIntSigned | tools/helpers.py:9 | `int()` accepts a sign before the digits: '+' keeps the value and '-' negates it |
| Helpers.PyIntUnderscore | tools/helpers.py:9 | `int()` drops one underscore between two runs of digits, so "1_000" reads as 1000 |
| Helpers.PyIntRejects | tools/helpers.py:9 | `int()` raises ValueError for a leading underscore, a doubled underscore, a space after the sign, and text with no digits |
| Helpers.NextSuffixRoundTrip | tools/helpers.py:9 | `int()` reads the new suffix back as the old value plus one |
| Helpers.IncrementReadsOne | tools/helpers.py:6-10 | any suffix `int()` reads as 1, however it is spelled, becomes "002" with the prefix kept |
| Helpers.SpelledOne | tools/helpers.py:9 | "+01", " 01" and "0_1" are all read by `int()` as 1, so `increment_serial` accepts suffixes `verify_serial` would not |
| Labels.CheckButtonLabel | Firmware/HomeButtonsArduino/src/utils.cpp:5-11 | `check_button_label` turns an empty label into "-" and cuts any other to `BTN_LABEL_MAXLEN` (15) characters; the result is 1 to 15 characters long |
| Labels.CheckIdempotent | Firmware/HomeButtonsArduino/src/utils.cpp:5-11 | checking an already checked label changes nothing |
| Labels.CheckKeepsShortLabels | Firmware/HomeButtonsArduino/src/utils.cpp:5-11 | a non-empty label of at most 15 characters is kept as it is |
| Labels.CheckAgreesWithButtonLabel | Firmware/HomeButtonsArduino/src/utils.cpp:5-11 | for a non-empty label, the check cuts exactly as storing it in a `ButtonLabel` (`StaticString<15>`) does |
| Hardware.VersionOf | Firmware/HomeButtonsArduino/src/hardware.cpp:10-29 | every revision definition `init_hardware` can install has a version with patch 0 |
| Hardware.HwVersion | Firmware/HomeButtonsArduino/src/hardware.cpp:41 | `HW.version` has major number 0 exactly before `init_hardware` has installed a definition; every installed version has patch 0 and minor number at most 3 |
| Hardware.InitHardware | Firmware/HomeButtonsArduino/src/hardware.cpp:10-29 | "2.0" and "2.1" both select the 2.0 definition |
| Hardware.InitHardwareIsTable | Firmware/HomeButtonsArduino/src/hardware.cpp:10-29 | `init_hardware` installs the revision of the supported-strings table ("1.0", "2.0", "2.1", "2.2", "2.3"); any other string leaves `HW` as it was; a repeated call changes nothing |
| Hardware.IsDcConnected | Firmware/HomeButtonsArduino/src/hardware.cpp:115-121 | `is_dc_connected` reports true only when the DC detect pin reads high |
| Hardware.EnableCharger | Firmware/HomeButtonsArduino/src/hardware.cpp:123-127 | `enable_charger` writes nothing or exactly the requested level |
| Hardware.IsBatteryPresent | Firmware/HomeButtonsArduino/src/hardware.cpp:129-135 | `is_battery_present` reports true only when the battery voltage reaches `BATT_PRESENT_VOLT`, and false whenever it is below |
| Hardware.ChargerGate | Firmware/HomeButtonsArduino/src/hardware.cpp:115-135 | the `>= 2.2.0` gate admits exactly revisions 2.2 and 2.3. Below it the probes read false and nothing is written; at or above it the DC pin level and the charger level pass through, and the battery probe is the voltage comparison |
| Hardware.DigitalReadAny | Firmware/HomeButtonsArduino/src/hardware.cpp:68-72 | `digitalReadAny` is high whenever any one of the six button pins reads high |
| Hardware.ChargerFromVersionString | Firmware/HomeButtonsArduino/src/hardware.cpp:10-29 | for a supported version string, the charger functions are live exactly for "2.2" and "2.3" |
| Hardware.DigitalReadAnyIsExists | Firmware/HomeButtonsArduino/src/hardware.cpp:69-73 | `digitalReadAny` is high exactly when one of the six button pins reads high |
| Hardware.KnownPinsDistinct | Firmware/HomeButtonsArduino/src/hardware.h:57-117 | the button pins of revisions 1.0 and 2.0 are six different pins each |
| Hardware.SetupHardware | Firmware/HomeButtonsArduino/src/hardware.h:166-172 | the earlier numeric selection: 20 and up selects revision 2.0, 10 to 19 selects 1.0, and lower numbers keep `HW` |
| Hardware.SelectionsAgree | Firmware/HomeButtonsArduino/src/hardware.h:166-172 | the numeric selection and `init_hardware` pick the same revision for 10/"1.0", 20/"2.0" and 21/"2.1" |
| App.DigitPrefix | Firmware/HomeButtonsArduino/src/app.cpp:869 | the run of digits `atoi` reads is a digit-only prefix of the payload that stops at the first non-digit |
| App.Atoi | Firmware/HomeButtonsArduino/src/app.cpp:869 | `atoi` gives a negative number only for a payload containing '-', and 0 for a payload that starts with a letter |
| App.Minutes | Firmware/HomeButtonsArduino/src/app.cpp:869 | `uint16_t mins = atoi(payload)` is below 65536. It equals `atoi`'s value when that fits, and is that value plus 2^16 for values from -65536 to -1 |
| App.AtoiOfDecimal | Firmware/HomeButtonsArduino/src/app.cpp:869 | `atoi` reads the decimal text of any number back as that number |
| App.ToUInt16 | Firmware/HomeButtonsArduino/src/app.cpp:869 | storing the `int` from `atoi` in `uint16_t mins` keeps it below 65536, keeps values that fit, and otherwise shifts by 2^16 in the range next to it |
| App.IntervalCommand | Firmware/HomeButtonsArduino/src/app.cpp:868-882 | the interval branch changes no topic preference, persisted variable or flag, and always ends by publishing an empty retained message on the command topic |
| App.LabelCommand | Firmware/HomeButtonsArduino/src/app.cpp:884-895 | the label branch keeps the user settings well-formed and publishes the stored label on the label state topic, then clears the command topic |
| App.AwakeCommand | Firmware/HomeButtonsArduino/src/app.cpp:897-913 | the awake branch keeps the user settings and the redraw flag, and ends by clearing the command topic |
| App.FirstLabelMatch | Firmware/HomeButtonsArduino/src/app.cpp:884-895 | the `for` loop's `strcmp` search finds the first button index whose label command topic equals the topic, and finds none exactly when no index matches |
| App.CommandAlwaysCleared | Firmware/HomeButtonsArduino/src/app.cpp:867-914 | a handled command always ends with an empty retained publish on its own topic; any other topic changes nothing and publishes nothing |
| App.Callback | Firmware/HomeButtonsArduino/src/app.cpp:867-914 | `_mqtt_callback` keeps the user settings well-formed and never changes a topic preference. A topic that is none of the three command topics changes nothing and publishes nothing |
| App.IntervalCallback | Firmware/HomeButtonsArduino/src/app.cpp:868-882 | the interval becomes `(uint16_t)atoi(payload)` exactly when that lies in 1..30 (`SEN_INTERVAL_MIN`..`SEN_INTERVAL_MAX`). It is then saved and published back in decimal, and nothing else changes. Any other value only clears the command |
| App.DecimalIntervalAccepted | Firmware/HomeButtonsArduino/src/app.cpp:868-882 | a payload holding 1 to 30 in decimal sets the interval to that number |
| App.LabelCallback | Firmware/HomeButtonsArduino/src/app.cpp:884-895 | when no earlier topic shadows it, label `i` becomes the payload cut to 15 characters and the other labels and settings stay. The redraw flag is set, the label is published, the command is cleared, and nothing is saved |
| App.AwakeCallback | Firmware/HomeButtonsArduino/src/app.cpp:897-913 | "ON" sets both the user awake mode and the awake flag; "OFF" clears only the user awake mode; anything else only clears the command |
| App.CommandSuffixes | Firmware/HomeButtonsArduino/src/mqtt_helper.cpp:309-352 | the command topics end in "cmd/sensor_interval", "cmd/awake_mode" and "cmd/btn_N_label" |
| App.CommandTopicsDistinct | Firmware/HomeButtonsArduino/src/app.cpp:867-914 | while the common prefix leaves room for the suffixes, the interval, awake and six label command topics are pairwise different, so each command reaches its own branch |
| App.LongPrefixShadowsCommands | Firmware/HomeButtonsArduino/src/app.cpp:867-914 | once the common prefix fills the 256-character topic buffer, every command topic is cut to the same text, and the callback handles an awake or label command as an interval command |
| App.IdOfPin | Firmware/HomeButtonsArduino/src/app.cpp:105-112 | each button pin gets an id from 1 to 6 through `button_map` |
| App.ButtonMapIsBijection | Firmware/HomeButtonsArduino/src/app.cpp:105-112 | `button_map` pairs the six pins with the ids 1..6 one to one |
| App.NetConnect | Firmware/HomeButtonsArduino/src/app.cpp:530-558 | a connection resets the failure count. Without one, only a timeout after a timer wake-up changes anything. `check_connection` is never lowered here, and it is raised only by such a timeout, with the count reset |
| App.TimeoutsCount | Firmware/HomeButtonsArduino/src/app.cpp:541-555 | starting below 5, `k` timed-out timer wake-ups leave the count at the total modulo 5 (`MAX_FAILED_CONNECTIONS`) and raise the warning once the total reaches 5 |
| Boot.Route | Firmware/HomeButtonsArduino/src/main.cpp:255-311 | the routing keeps the persisted flags, except that a reset into setup clears `reset_to_setup` |
| Boot.RouteByFlow | Firmware/HomeButtonsArduino/src/main.cpp:255-311 | for every control flow, exactly which boot reasons and flags lead to it: factory reset only on an ultra long press. Wi-Fi setup on an extra long press, or a short press before Wi-Fi is done. The update flow on a reset with a changed `last_sw_ver`, and so on for each flow |
| Boot.SetupAfterResetIsOneShot | Firmware/HomeButtonsArduino/src/main.cpp:260-270 | a reset with `reset_to_setup` goes to setup and clears the flag, so the next reset does not |
| Boot.LadderStep | Firmware/HomeButtonsArduino/src/main.cpp:198-248 | one pass of `switch (ctrl)` stays, climbs one rung or decides. A release decides at the rung it happens on and never as ultra long. Ultra long needs the top rung, still pressed, past the ultra long time |
| Boot.Ladder | Firmware/HomeButtonsArduino/src/main.cpp:198-248 | the ladder uses at most the readings it is given |
| Boot.PressLadder | Firmware/HomeButtonsArduino/src/main.cpp:198-248 | the `while` loop computes the ladder's reason; a decision consumes at least one reading |
| Boot.LadderOnlyClimbs | Firmware/HomeButtonsArduino/src/main.cpp:198-248 | the decided press is never shorter than the rung the ladder started on |
| Boot.ReleaseDecides | Firmware/HomeButtonsArduino/src/main.cpp:198-248 | a release among the readings always decides the press, no later than that reading |
| Boot.ShortPressExactly | Firmware/HomeButtonsArduino/src/main.cpp:198-248 | a press is a plain `BTN` exactly when no reading before the release was past the medium press time |
| Boot.UltraLongNeedsHold | Firmware/HomeButtonsArduino/src/main.cpp:198-248 | an ultra long press has a reading, still pressed, past the ultra long time |
| Boot.SetTopics | Firmware/HomeButtonsArduino/src/main.cpp:65-89 | `set_topics` fills six press, six label state and six label command topics |
| Boot.SetTopicsAgreesWithHelper | Firmware/HomeButtonsArduino/src/main.cpp:65-89 | the earlier firmware's topics equal those `MQTTHelper` builds from the same base topic and device name, whenever these leave room for the suffixes |
| Boot.WakeupButton | Firmware/HomeButtonsArduino/src/main.cpp:478-496 | the wake-up pin maps to a button number 0..6, 0 meaning no button |
| Boot.WakeupAgreesWithButtonMap | Firmware/HomeButtonsArduino/src/main.cpp:478-496 | on distinct pins, each button pin's wake-up gives the same id as the newer firmware's `button_map`, and any other pin gives no button |
| Boot.BtnPressFlags | Firmware/HomeButtonsArduino/src/main.cpp:460-477 | the press goes on to publish exactly when no info screen, charge screen or connection warning is showing, and then the flags are untouched |
| Boot.CountFailure | Firmware/HomeButtonsArduino/src/main.cpp:620-636 | a failure increments the `uint8_t` count; the warning is up afterwards exactly when it was already up or the count has reached 5; no other field changes |
| Boot.TimerCountsFailures | Firmware/HomeButtonsArduino/src/main.cpp:603-637 | a timer wake-up counts a failure exactly when no info screen or warning is up and Wi-Fi or MQTT fails. A raised warning comes with the count at 5, and the count stays at most 5 across timer wake-ups and presses |
| Boot.PressRestartsCount | Firmware/HomeButtonsArduino/src/main.cpp:460-477 | a press on the connection warning clears it and zeroes the count, so one more failed timer wake-up does not raise it again |
| Preferences.GetString | Firmware/HomeButtonsArduino/src/state.cpp:57-65 | `getString` gives either the caller's default or the text stored under the key |
| Preferences.GetUInt | Firmware/HomeButtonsArduino/src/state.cpp:58-59 | `getUInt` gives either the default or the stored number taken as a `uint32_t`; with a default below 2^32 the result is below 2^32 |
| Preferences.GetBool | Firmware/HomeButtonsArduino/src/state.cpp:110-129 | `getBool` gives either the default or the flag stored under the key |
| Preferences.GetAfterPut | Firmware/HomeButtonsArduino/src/state.cpp:33-83 | a get reads back what a put of the same type stored under the key (a number modulo 2^32) |
| Preferences.GetOtherAfterPut | Firmware/HomeButtonsArduino/src/state.cpp:33-83 | a put under one key changes no reading under another |
| Preferences.GetWrongType | Firmware/HomeButtonsArduino/src/state.cpp:52-83 | a `getString` of a key holding a number gives the default |
| Preferences.UInt | Firmware/HomeButtonsArduino/src/state.cpp:36 | `putUInt` stores a `uint32_t`: values below 2^32 are kept |
| UserStore.UserKeysDistinct | Firmware/HomeButtonsArduino/src/state.cpp:33-50 | the fourteen keys `save_user` writes are different strings, so no setting overwrites another |
| UserStore.SaveUser | Firmware/HomeButtonsArduino/src/state.cpp:33-50 | after `save_user`, every user key holds its setting |
| UserStore.LoadLabel | Firmware/HomeButtonsArduino/src/state.cpp:67-78 | a loaded label is at most 15 characters, the `ButtonLabel` capacity |
| UserStore.DefaultDeviceName | Firmware/HomeButtonsArduino/src/state.cpp:54-56 | the default device name fits a `DeviceName` (20 characters) and, for a random id of at most 7 characters, is "Home Buttons " followed by the id |
| UserStore.LoadUser | Firmware/HomeButtonsArduino/src/state.cpp:52-83 | `load_user` always gives well-formed settings: the device name cut to 20 characters, the labels to 15, the interval kept as a `uint16_t` |
| UserStore.LongDeviceNameCut | Firmware/HomeButtonsArduino/src/state.cpp:54-56 | a stored device name longer than 20 characters loads as its first 20 |
| UserStore.LoadInvertsSettings | Firmware/HomeButtonsArduino/src/state.cpp:52-83 | `load_user` reads back any well-formed settings (device name within 20 characters, labels within 15) from a namespace holding them under their keys |
| UserStore.LoadLabelInverts | Firmware/HomeButtonsArduino/src/state.cpp:67-78 | a stored label of at most 15 characters loads unchanged |
| UserStore.LoadInvertsLabels | Firmware/HomeButtonsArduino/src/state.cpp:67-78 | the six labels load back in order |
| UserStore.UserRoundTrip | Firmware/HomeButtonsArduino/src/state.cpp:33-83 | `load_user` after `save_user` gives back the settings saved |
| UserStore.UserDefaults | Firmware/HomeButtonsArduino/src/state.cpp:52-83 | an empty namespace loads the defaults: "Home Buttons " plus the random id, cut to 20 characters, port 1883, "homebuttons", "homeassistant", labels "B1".."B6", interval 10 |
| PersistedStore.PersistedKeysDistinct | Firmware/HomeButtonsArduino/src/state.cpp:91-108 | the persisted keys are different strings |
| PersistedStore.SavePersisted | Firmware/HomeButtonsArduino/src/state.cpp:91-108 | after `save_persisted`, every persisted key holds its field |
| PersistedStore.LoadPersisted | Firmware/HomeButtonsArduino/src/state.cpp:110-129 | `load_persisted` gives a failure count below 256: the stored `uint32_t` narrowed to the `uint8_t` field |
| PersistedStore.LoadInvertsFields | Firmware/HomeButtonsArduino/src/state.cpp:110-129 | `load_persisted` reads back any well-formed persisted variables from a namespace holding them |
| PersistedStore.LoadInvertsFlags | Firmware/HomeButtonsArduino/src/state.cpp:110-129 | the boolean flags load back as stored |
| PersistedStore.LoadInvertsFailures | Firmware/HomeButtonsArduino/src/state.cpp:110-129 | a failure count below 256 loads back as stored |
| PersistedStore.LoadInvertsRestartFlags | Firmware/HomeButtonsArduino/src/state.cpp:110-129 | the restart flags and the remaining fields load back as stored |
| PersistedStore.PersistedRoundTrip | Firmware/HomeButtonsArduino/src/state.cpp:91-129 | `load_persisted` after `save_persisted` gives back the variables saved |
| PersistedStore.PersistedDefaults | Firmware/HomeButtonsArduino/src/state.cpp:110-129 | an empty namespace loads every flag false, the count 0 and an empty version |
| DeviceState.SaveAll | Firmware/HomeButtonsArduino/src/state.cpp:149-153 | `save_all` saves the user and persisted namespaces and leaves the factory namespace alone |
| DeviceState.ClearAll | Firmware/HomeButtonsArduino/src/state.cpp:162-166 | `clear_all` empties the user and persisted namespaces and keeps the factory data |
| DeviceState.ClearPersistedFlags | Firmware/HomeButtonsArduino/src/state.cpp:137-147 | `clear_persisted_flags` resets the eight transient flags, keeps the other six persisted fields and the user settings, and saves everything |
| DeviceState.ClearFlagsThenReload | Firmware/HomeButtonsArduino/src/state.cpp:137-147 | after `clear_persisted_flags`, a reload sees the eight transient flags reset and the other six fields and the user settings as they were |
| DeviceState.GetBtnLabel | Firmware/HomeButtonsArduino/src/state.cpp:168-175 | `get_btn_label` gives label `i`, or the empty label for an index past the buttons |
| DeviceState.SetBtnLabel | Firmware/HomeButtonsArduino/src/state.cpp:177-181 | `set_btn_label` keeps six labels |
| DeviceState.SetThenGetLabel | Firmware/HomeButtonsArduino/src/state.cpp:168-181 | a label set at `i` reads back cut to 15 characters; other labels and settings are untouched; an index past the buttons changes nothing |
| DeviceState.SetLabelSurvivesReload | Firmware/HomeButtonsArduino/src/state.cpp:33-83 | a label set, saved and loaded again reads back as set, cut to 15 characters |
| UserSettings.GetBtnLabel | Firmware/HomeButtonsArduino/include/prefs.h:42-59 | `get_btn_label` gives label `i` of the six in order, and "" for an index past 5 |
| UserSettings.SetBtnLabel | Firmware/HomeButtonsArduino/include/prefs.h:60-80 | `set_btn_label` stores the text untruncated at an index below 6 and ignores any other index |
| UserSettings.Labels | Firmware/HomeButtonsArduino/include/prefs.h:42-59 | the six labels are what `get_btn_label` returns for 0..5 |
| UserSettings.SetThenGet | Firmware/HomeButtonsArduino/include/prefs.h:42-80 | a label set at `i < 6` reads back unchanged, other indices are untouched, and an index past 5 is ignored by `set` and reads "" from `get` |
| UserSettings.SetIsSequenceUpdate | Firmware/HomeButtonsArduino/include/prefs.h:60-80 | the `switch` in `set_btn_label` updates exactly one element of the six labels |
| Clock.Since | Firmware/HomeButtonsArduino/src/button_ui/leds.cpp:34 | `millis() - t` on `uint32_t` readings is the true elapsed time, also across one wrap of the counter |
| CBuffer.Zeroed | Firmware/HomeButtonsArduino/src/static_string.h:74 | `char m_data[MAX_SIZE] = {'\0'}` is all NUL, and so a valid buffer holding "" |
| CBuffer.CStrAt | Firmware/HomeButtonsArduino/src/static_string.h:32-35 | the C string at `m_data + i` is the NUL-free run up to the next terminator, which lies inside the array |
| CBuffer.CStrAtIs | Firmware/HomeButtonsArduino/src/static_string.h:32-35 | a NUL-free stretch followed by a NUL is exactly the C string read there |
| CBuffer.Snprintf | Firmware/HomeButtonsArduino/src/static_string.h:67-71 | `snprintf(buf, n, "%s", text)` writes the first `n - 1` characters and a NUL, leaves the bytes after the terminator alone, and writes nothing when `n` is 0 |
| CBuffer.Format | Firmware/HomeButtonsArduino/src/static_string.h:16-19 | formatting into a fresh array keeps the text cut to `size - 1` characters |
| CBuffer.CPrefix | Firmware/HomeButtonsArduino/src/factory.cpp:48 | what a C reader sees of a string is its prefix before the first NUL, and the whole string when it has none |
| StaticStrings.Value | Firmware/HomeButtonsArduino/src/static_string.h:32 | `c_str()` is a C string of at most N characters |
| StaticStrings.Cut | Firmware/HomeButtonsArduino/src/static_string.h:16-19 | keeping at most N characters gives the first `min(len, N)` characters of the text |
| StaticStrings.Default | Firmware/HomeButtonsArduino/src/static_string.h:15 | a default-constructed string is empty |
| StaticStrings.FromCStr | Firmware/HomeButtonsArduino/src/static_string.h:16-25 | `StaticString(str)` holds `str` cut to N characters |
| StaticStrings.Set | Firmware/HomeButtonsArduino/src/static_string.h:27-30 | `set(str)` holds `str` cut to N characters, at the same capacity |
| StaticStrings.Assign | Firmware/HomeButtonsArduino/src/static_string.h:67-71 | `operator=` holds `str` cut to N characters and leaves the array past the new terminator untouched |
| StaticStrings.SetAssignSameValue | Firmware/HomeButtonsArduino/src/static_string.h:27-30 | `set` and `operator=` give the same string whatever the old contents |
| StaticStrings.Plus | Firmware/HomeButtonsArduino/src/static_string.h:46-51 | `a + b` is the concatenation cut to N; its length is `min(len a + len b, N)` |
| StaticStrings.PlusStr | Firmware/HomeButtonsArduino/src/static_string.h:53-58 | `a + str` is the concatenation cut to N |
| StaticStrings.PlusNum | Firmware/HomeButtonsArduino/src/static_string.h:60-65 | `a + i` appends the `%lu` decimal text of `i`, cut to N |
| StaticStrings.SizeT | Firmware/HomeButtonsArduino/src/static_string.h:39 | `j - i + 1` in `size_t` is the true difference when it is non-negative, and wraps by 2^32 when it is negative |
| StaticStrings.Substring | Firmware/HomeButtonsArduino/src/static_string.h:36-44 | `substring(i, j)` is empty when `i` is past the array or the `size_t` size is 0; otherwise it is the C string at `i`, cut to `min(N, size - 1)` |
| StaticStrings.TailAt | Firmware/HomeButtonsArduino/src/static_string.h:36-44 | inside the contents, the C string at `i` is the contents from `i` on |
| StaticStrings.SubstringInside | Firmware/HomeButtonsArduino/src/static_string.h:36-44 | for `i <= j` inside the contents, `substring(i, j)` is the characters `i` up to `min(j, length)` |
| StaticStrings.SubstringEmptyRange | Firmware/HomeButtonsArduino/src/static_string.h:36-44 | `substring(i, i - 1)` is empty |
| StaticStrings.SubstringWrapsAround | Firmware/HomeButtonsArduino/src/static_string.h:36-44 | for `j + 1 < i` the size wraps around, and the whole tail from `i` is returned instead of nothing |
| StaticStrings.SubstringReadsStaleBytes | Firmware/HomeButtonsArduino/src/static_string.h:36-44 | "a" assigned over "abcd" reads "a", yet `substring(2, 4)` gives "cd", left behind in the array |
| LegacyStaticStrings.New | Firmware/HomeButtonsArduino/src/StaticString.h:12 | the older default string has a `MAX_SIZE`-byte array and is empty |
| LegacyStaticStrings.Make | Firmware/HomeButtonsArduino/src/StaticString.h:13-20 | the older `StaticString(str)` holds at most `MAX_SIZE - 1` characters: `str` cut to that |
| LegacyStaticStrings.Concat | Firmware/HomeButtonsArduino/src/StaticString.h:40-45 | the older `a + str` is the concatenation cut to `MAX_SIZE - 1` |
| LegacyStaticStrings.ConcatStrings | Firmware/HomeButtonsArduino/src/StaticString.h:33-45 | both `operator+` overloads agree, and equal the newer class's `+` at capacity `MAX_SIZE - 1` |
| LegacyStaticStrings.Sub | Firmware/HomeButtonsArduino/src/StaticString.h:25-31 | the older `substring` stays within the array and is empty for `i >= MAX_SIZE` |
| LegacyStaticStrings.SubInside | Firmware/HomeButtonsArduino/src/StaticString.h:25-31 | inside the contents, the older `substring(i, j)` is the characters `i` up to `min(j, length)` |
| MqttTopics.Topic | Firmware/HomeButtonsArduino/src/mqtt_helper.h:10-11 | a `TopicType` holds at most 256 characters (`MAX_TOPIC_LENGTH`) |
| MqttTopics.Append | Firmware/HomeButtonsArduino/src/mqtt_helper.cpp:309 | `t + x` on a topic is at most 256 characters, and is the plain concatenation when that fits |
| MqttTopics.AppendIsPlus | Firmware/HomeButtonsArduino/src/static_string.h:53-58 | topic append is `StaticString<256>::operator+` |
| MqttTopics.CutCut | Firmware/HomeButtonsArduino/src/mqtt_helper.cpp:304-352 | cutting after every `+` of a chain is the same as cutting once at the end |
| MqttTopics.CutPrefix | Firmware/HomeButtonsArduino/src/mqtt_helper.cpp:304-352 | a cut topic is a prefix of the same cut of any extension |
| MqttTopics.Common | Firmware/HomeButtonsArduino/src/mqtt_helper.cpp:304-307 | `t_common()` is "base/device/" cut to 256 characters |
| MqttTopics.Cmd | Firmware/HomeButtonsArduino/src/mqtt_helper.cpp:309 | `t_cmd()` is "base/device/cmd/" cut to 256 characters |
| MqttTopics.Build | Firmware/HomeButtonsArduino/src/mqtt_helper.cpp:309-352 | each `t_*` builder gives `t_common()`'s text plus its suffix, cut to 256 characters; an indexed builder given 6 or more gives "" |
| MqttTopics.CmdTopicsStartWithCmd | Firmware/HomeButtonsArduino/src/mqtt_helper.cpp:329-349 | every command topic starts with `t_cmd()`, whatever the preferences |
| MqttTopics.StateTopicsOutsideCmd | Firmware/HomeButtonsArduino/src/mqtt_helper.cpp:309-352 | every state topic starts with `t_common()`, and while that fits, none starts with `t_cmd()` |
| MqttTopics.OutOfRangeIndexEmpty | Firmware/HomeButtonsArduino/src/mqtt_helper.cpp:315-335 | the indexed builders return an empty topic for index 6 or more |
| MqttTopics.AvailabilityTopic | Firmware/HomeButtonsArduino/src/mqtt_helper.cpp:350-352 | `t_awake_mode_avlb()` is the awake-mode state topic plus "/available" when that fits |
| MqttTopics.Availability | Firmware/HomeButtonsArduino/src/mqtt_helper.cpp:350-352 | `t_awake_mode_avlb()` is "base/device/awake_mode/available" cut to 256 characters: cutting the state topic and then the appended text gives the same as one cut of the whole |
| MqttTopics.GetButtonTopic | Firmware/HomeButtonsArduino/src/mqtt_helper.cpp:278-302 | `get_button_topic` is non-empty exactly for ids 1..6 and the single, double, triple and quad actions. It is then "button_" + id + "", "_double", "_triple" or "_quad" after `t_common()` |
| MqttTopics.SinglePressMatchesTrigger | Firmware/HomeButtonsArduino/src/mqtt_helper.cpp:66-82 | a single press of button `id` is published on the topic the discovery trigger of index `id - 1` announces |
| MqttTopics.ExpireAfter | Firmware/HomeButtonsArduino/src/mqtt_helper.cpp:130 | `expire_after` is a `uint16_t`, exact whenever `interval * 60 + 60` fits |
| MqttTopics.ExpireAfterInRange | Firmware/HomeButtonsArduino/src/mqtt_helper.cpp:130 | for the accepted intervals 1..30 it is one minute after the next reading is due: 120 to 1860 seconds |
| Topics.GetButtonTopic | Firmware/HomeButtonsArduino/src/topics.cpp:3-20 | `TopicHelper::get_button_topic` is non-empty exactly for ids 1..6 and the click and switch events, and is `t_common()` plus the event's name |
| Topics.SwitchEventsShareTopic | Firmware/HomeButtonsArduino/src/topics.cpp:14-17 | switching on and switching off are reported on the same topic |
| Topics.ClicksAgreeWithMqttHelper | Firmware/HomeButtonsArduino/src/topics.cpp:3-13 | a click of the same count goes to the same topic in both firmware generations |
| Topics.Build | Firmware/HomeButtonsArduino/src/topics.cpp:22-110 | each `TopicHelper` builder is `t_common()` plus its suffix, cut to 256; an indexed builder given more than 6 gives "" |
| Topics.CmdTopicsStartWithCmd | Firmware/HomeButtonsArduino/src/topics.cpp:29-103 | every `TopicHelper` command topic starts with `t_cmd()` |
| Topics.StateTopicsOutsideCmd | Firmware/HomeButtonsArduino/src/topics.cpp:22-110 | every state topic starts with `t_common()`, and while that fits, none starts with `t_cmd()` |
| Topics.IndexShiftedAgainstMqttHelper | Firmware/HomeButtonsArduino/src/topics.cpp:47-66 | `TopicHelper` embeds the index as given, so its index `i` is `MQTTHelper`'s index `i - 1` |
| Topics.OutOfRangeIndexEmpty | Firmware/HomeButtonsArduino/src/topics.cpp:22-66 | above 6 every indexed builder returns an empty topic |
| Topics.ConfigTopic | Firmware/HomeButtonsArduino/src/topics.cpp:112-215 | each discovery config topic is prefix, component, unique id, object and "config" joined by '/', cut to 256 |
| Topics.NamesHaveNoSlash | Firmware/HomeButtonsArduino/src/topics.cpp:112-215 | no component or object name of a config topic contains '/' |
| Topics.ConfigTopicShape | Firmware/HomeButtonsArduino/src/topics.cpp:112-215 | with a slash-free prefix and unique id, a config topic that fits splits at '/' into exactly its five parts |
| Topics.SplitFits | Firmware/HomeButtonsArduino/src/topics.cpp:112-215 | slash-free parts joined by '/' split back into the same parts when the result fits |
| Display.IndexOf | Firmware/HomeButtonsArduino/src/display/display.cpp:47 | `index_of(c)` is -1 exactly when `c` does not occur, and otherwise the position of its first occurrence |
| Display.LabelTypeOf | Firmware/HomeButtonsArduino/src/display/display.cpp:45-55 | a label without '%' is an icon when it starts with "mdi:" and has no space, mixed when it starts with "mdi:" and has one, and text otherwise |
| Display.MdiName | Firmware/HomeButtonsArduino/src/display/display.cpp:57-65 | for a label without '%', the icon name taken from it never contains a space |
| Display.TextOf | Firmware/HomeButtonsArduino/src/display/display.cpp:67-75 | for a label without '%', the text part is the whole of a text label, what follows the first space of a mixed label, and empty for an icon |
| Display.LabelRebuilt | Firmware/HomeButtonsArduino/src/display/display.cpp:45-75 | every label without '%' is rebuilt from its parts: "mdi:" + name + " " + text for a mixed label, "mdi:" + name for an icon, the text alone otherwise |
| Display.ComposedLabelParsed | Firmware/HomeButtonsArduino/src/display/display.cpp:45-75 | a '%'-free label composed from a space-free icon name and any text parses back into that name and that text |
| Display.TrimStep | Firmware/HomeButtonsArduino/src/display/display.cpp:80 | one pass of the loop drops the last two characters and appends '.'; a label shorter than two characters becomes "." through the `size_t` wrap of `length() - 2` |
| Display.TrimSubstring | Firmware/HomeButtonsArduino/src/display/display.cpp:80 | `label.substring(0, label.length() - 2)` keeps all but the last two characters, and nothing of a label of 0 or 1 characters |
| Display.TrimText | Firmware/HomeButtonsArduino/src/display/display.cpp:77-84 | `trim_text` returns a label no wider than the limit, returns a label that already fits unchanged, and never lengthens it beyond a lone "." |
| Display.Begin | Firmware/HomeButtonsArduino/src/display/display.cpp:86-100 | `begin` acts only in IDLE; it clears the UI states, becomes ACTIVE and keeps a pending-command flag |
| Display.End | Firmware/HomeButtonsArduino/src/display/display.cpp:102-106 | `end` acts only in ACTIVE and moves to CMD_END |
| Display.SetCmd | Firmware/HomeButtonsArduino/src/display/display.cpp:285-288 | the newest command replaces any pending one, and nothing else changes |
| Display.MessageCmd | Firmware/HomeButtonsArduino/src/display/display.cpp:202-227 | a message or error disappears exactly when a duration is given, after that duration |
| Display.MainCmd | Firmware/HomeButtonsArduino/src/display/display.cpp:229-238 | `disp_main` shows the main page once setup and Wi-Fi are done, and the welcome page before |
| Display.TestCmd | Firmware/HomeButtonsArduino/src/display/display.cpp:269-277 | `disp_test` asks for a test page that does not disappear, with the given text, icon name and icon size |
| Display.Draw | Firmware/HomeButtonsArduino/src/display/display.cpp:189-199 | a drawn state becomes the current one, stamped with the time, and an ENDING display hibernates |
| Display.Expired | Firmware/HomeButtonsArduino/src/display/display.cpp:121-123 | a disappearing message has expired once `millis() - appear_time` reaches the timeout, with the subtraction taken modulo 2^32 when `millis()` has wrapped; a timeout of 0 expires at once |
| Display.Update | Firmware/HomeButtonsArduino/src/display/display.cpp:108-199 | `update` does nothing in IDLE; it hibernates exactly when it returns to IDLE; when it draws nothing and does not hibernate, the state is unchanged |
| Display.PendingDrawnOnce | Firmware/HomeButtonsArduino/src/display/display.cpp:135-141 | a pending command on a display without a transient message is drawn at once, and not again by the next update |
| Display.DisappearingMessage | Firmware/HomeButtonsArduino/src/display/display.cpp:121-141 | a disappearing message saves the screen it covers, and that screen is drawn again exactly when the timeout has passed |
| Display.NewerCommandWins | Firmware/HomeButtonsArduino/src/display/display.cpp:121-127 | a newer command pending when a message expires is drawn instead of the covered screen |
| Display.EndingOrder | Firmware/HomeButtonsArduino/src/display/display.cpp:110-120 | in CMD_END a pending command is drawn first; with nothing pending the display sleeps, after redrawing the covered screen if a message is up |
| Display.EndReachesIdle | Firmware/HomeButtonsArduino/src/display/display.cpp:102-199 | after `end`, at most three updates bring an active display back to IDLE when no command arrives |
| LegacyDisplay.Update | Firmware/HomeButtonsArduino/src/display.cpp:57-143 | the older `update` does nothing in IDLE, always finishes in CMD_END, and hibernates exactly when it returns to IDLE |
| LegacyDisplay.MainCmd | Firmware/HomeButtonsArduino/src/display.cpp:174-177 | the older `disp_main` always shows the main page |
| LegacyDisplay.TestCmd | Firmware/HomeButtonsArduino/src/display.cpp:199-206 | `disp_test(invert)` shows the inverted test page exactly when asked, with nothing else set |
| LegacyDisplay.AgreesWithNewerAwayFromEnd | Firmware/HomeButtonsArduino/src/display.cpp:57-143 | away from CMD_END the two generations' `update` agree |
| LegacyDisplay.PendingCommandAtEnd | Firmware/HomeButtonsArduino/src/display.cpp:59-68 | a command pending at CMD_END is never drawn by the older display, and its flag stays set; the newer one draws it |
| LegacyDisplay.StaleFlagDrawsBlank | Firmware/HomeButtonsArduino/src/display.cpp:35-49 | because `begin` clears the command but not the flag, the first update after the next `begin` draws a blank page |
| Buttons.Ladder | Firmware/HomeButtonsArduino/src/buttons.cpp:81-91 | the hold ladder: below `LONG_1_TIME` the action is kept, and each band 2 s, 10 s, 20 s, 30 s gives LONG_1 to LONG_4 |
| Buttons.NewButton | Firmware/HomeButtonsArduino/src/buttons.h:41-56 | a button as declared is not begun, idle and not finished, and `update` leaves it unchanged whatever the time and pin level |
| Buttons.Isr | Firmware/HomeButtonsArduino/src/buttons.cpp:206-212 | `_isr` sets the rising flag on a high pin and the falling flag on a low one, never clears either, and touches nothing else |
| Buttons.LadderMonotone | Firmware/HomeButtonsArduino/src/buttons.cpp:81-91 | holding longer never moves down the ladder |
| Buttons.MultiCount | Firmware/HomeButtonsArduino/src/buttons.cpp:185-204 | `get_action_multi_count` is 1..4 exactly for SINGLE..QUAD and 0 otherwise |
| Buttons.EscalateCounts | Firmware/HomeButtonsArduino/src/buttons.cpp:112-124 | each further press adds one to the multi-press count, and QUAD stays at 4 |
| Buttons.Reset | Firmware/HomeButtonsArduino/src/buttons.cpp:222-228 | `_reset` clears the state, action, flags and finished mark, and keeps the times |
| Buttons.Begin | Firmware/HomeButtonsArduino/src/buttons.cpp:5-18 | `begin` is a no-op on a begun button and otherwise begins it |
| Buttons.End | Firmware/HomeButtonsArduino/src/buttons.cpp:26-32 | `end` is a no-op on a button not begun and otherwise resets it and un-begins it |
| Buttons.InitPress | Firmware/HomeButtonsArduino/src/buttons.cpp:20-24 | `init_press` starts a SINGLE press in state 2 at the current time |
| Buttons.Update | Firmware/HomeButtonsArduino/src/buttons.cpp:34-150 | `update` does nothing on a button not begun or already finished, and never changes whether it is begun |
| Buttons.NewButtonInv | Firmware/HomeButtonsArduino/src/buttons.cpp:34-150 | a declared button is in a state 0..8 and idle |
| Buttons.OperationsKeepInv | Firmware/HomeButtonsArduino/src/buttons.cpp:5-150 | every operation keeps the state within 0..8 and an IDLE action confined to states 0 and 1 |
| Buttons.HeldFollowsLadder | Firmware/HomeButtonsArduino/src/buttons.cpp:60-92 | while held in state 2, the action follows the hold ladder |
| Buttons.ReleaseOutcome | Firmware/HomeButtonsArduino/src/buttons.cpp:60-80 | a release during a long action finishes the press at once; a release during SINGLE waits for further presses in state 3 |
| Buttons.FurtherPressEscalates | Firmware/HomeButtonsArduino/src/buttons.cpp:109-125 | a debounced further press moves the action one step up the multi-press count |
| Buttons.MultiPressTimeout | Firmware/HomeButtonsArduino/src/buttons.cpp:98-108 | waiting for a further press finishes the sequence exactly when `PRESS_TIMEOUT` has passed since the last press began, with the action kept |
| Clicks.Band | Firmware/HomeButtonsArduino/src/pro/touch.h:19-22 | the band of a duration: 0 below 2 s, then 1 to 4 for 2-5 s, 5-10 s, 10-20 s and 20 s or more |
| Clicks.ButtonClick | Firmware/HomeButtonsArduino/src/button_ui/buttons.cpp:112-154 | `TriggerClick`: with 0 or 1 clicks a hold of 2 s or more reports the band's hold event; 1 short click reports a single click; 2 to 4 clicks report double, triple and quad; 0 short clicks and 5 or more report nothing |
| Clicks.HoldMonotone | Firmware/HomeButtonsArduino/src/button_ui/buttons.cpp:117-141 | holding longer never reports a shorter hold |
| Clicks.OnlyClickEvents | Firmware/HomeButtonsArduino/src/button_ui/buttons.cpp:112-154 | the classifier reports only click and hold events |
| Clicks.Report | Firmware/HomeButtonsArduino/src/button_ui/buttons.cpp:112-154 | a report is at most one event, present exactly when the classifier gives one, stamped with the button id, the final flag and point (0, 0) |
| ClickButton.Isr | Firmware/HomeButtonsArduino/src/button_ui/buttons.cpp:156-162 | the interrupt raises the rising flag on a pressed pin and the falling flag otherwise |
| ClickButton.InitPress | Firmware/HomeButtonsArduino/src/button_ui/buttons.cpp:5-11 | `InitPress` enters state 2 with all three times set to now, keeping the count and flags |
| ClickButton.Restart | Firmware/HomeButtonsArduino/src/button_ui/buttons.cpp:105-110 | `InternalRestart` returns to idle with no flags and no clicks |
| ClickButton.Loop | Firmware/HomeButtonsArduino/src/button_ui/buttons.cpp:26-103 | a loop pass counts a click exactly on a release in state 2 or 6 and clears the count in state 8. It stays within states 0..8 and reports only this button's events. A final event comes only from state 4 timing out, into state 8, and states other than 2, 4 and 6 report nothing |
| ClickButton.Held | Firmware/HomeButtonsArduino/src/button_ui/buttons.cpp:47-60 | while held, a release moves to state 3 and counts one more click; otherwise the state stays 2. At most two events are raised, both for this button and neither final, and only on a release or once the trigger interval has passed |
| ClickButton.Run | Firmware/HomeButtonsArduino/src/button_ui/buttons.cpp:26-103 | a run of loop calls keeps the state among the nine states, raises events only for this button, and raises none when every input is only an edge flag |
| ClickButton.FailedDebounceIsSilent | Firmware/HomeButtonsArduino/src/button_ui/buttons.cpp:38-45 | an edge whose pin reads low after the debounce reports nothing and is back in idle with no clicks two passes later |
| ClickButton.RepeatsRespectInterval | Firmware/HomeButtonsArduino/src/button_ui/buttons.cpp:47-60 | while the first press is held, a repeated report happens only once `kTriggerInterval` has passed since the previous one, and restarts the interval |
| ClickButton.FinalReport | Firmware/HomeButtonsArduino/src/button_ui/buttons.cpp:66-75 | state 4 timing out reports the count with `final` set: one event for 1 to 4 clicks, none for 5 or more |
| ClickButton.FinalsPerSequence | Firmware/HomeButtonsArduino/src/button_ui/buttons.cpp:26-103 | over any run of interrupts and loop passes, final events never outnumber the press sequences started |
| BtnSwLed.NewBsl | Firmware/HomeButtonsArduino/src/button_ui/btn_sw_led.h:106-114 | a new button keeps its id, kill-switch and LED setup, starts idle in click mode with the switch off, and has not yet run the first entry |
| BtnSwLed.LedCall | Firmware/HomeButtonsArduino/src/button_ui/btn_sw_led.h:172-201 | an LED command reaches the LED exactly when the button has one, and otherwise nothing happens |
| BtnSwLed.Cleared | Firmware/HomeButtonsArduino/src/button_ui/btn_sw_led.cpp:4-149 | every state's entry clears both edge flags |
| BtnSwLed.EnterPlain | Firmware/HomeButtonsArduino/src/button_ui/btn_sw_led.cpp:23-149 | entering SwOn sets the switch on and lights the LED at the default brightness; entering SwOff sets it off and turns the LED off; the other states change neither the switch nor the LED and restart their own timer |
| BtnSwLed.EnterIdle | Firmware/HomeButtonsArduino/src/button_ui/btn_sw_led.cpp:4-15 | entering Idle clears the clicks; a kill switch in switch mode goes straight on to SwOn or SwOff by the pin, any other button stays idle with no effect |
| BtnSwLed.Enter | Firmware/HomeButtonsArduino/src/button_ui/btn_sw_led.cpp:4-155 | a transition never changes the setup, the mode or the saved copies, clears both flags, and has no effect on a button without an LED |
| BtnSwLed.Isr | Firmware/HomeButtonsArduino/src/button_ui/btn_sw_led.cpp:231-237 | an interrupt with the pin high raises only the rising flag; with the pin low, only the falling flag |
| BtnSwLed.InitPress | Firmware/HomeButtonsArduino/src/button_ui/btn_sw_led.cpp:157-161 | the wake-up press puts the machine in Pressed with the press and trigger times set to now, keeps the switch and the click count, and reports nothing |
| BtnSwLed.EnterAgrees | Firmware/HomeButtonsArduino/src/button_ui/btn_sw_led.cpp:125-155 | entering any state leaves SwOn only with the switch on and SwOff only with it off |
| BtnSwLed.StateLoopAgrees | Firmware/HomeButtonsArduino/src/button_ui/btn_sw_led.cpp:17-155 | one state's loop keeps the switch state in agreement with SwOn and SwOff |
| BtnSwLed.StateLoop | Firmware/HomeButtonsArduino/src/button_ui/btn_sw_led.cpp:17-155 | a state's `loop()` never changes the configuration or the switch mode, every event it emits carries the button's id, and Idle or SwOff without a rising edge does nothing |
| BtnSwLed.LoopKeepsAgreement | Firmware/HomeButtonsArduino/src/button_ui/btn_sw_led.h:210-215 | a loop pass, first entry included, keeps the switch state in agreement with SwOn and SwOff |
| BtnSwLed.CommandsKeepAgreement | Firmware/HomeButtonsArduino/src/button_ui/btn_sw_led.h:125-165 | the interrupt, the wake-up press, restart, set/pause/resume switch mode and set switch on/off all keep that agreement |
| BtnSwLed.PressCommandsKeepAgreement | Firmware/HomeButtonsArduino/src/button_ui/btn_sw_led.cpp:157-237 | the interrupt, the wake-up press and restart keep that agreement |
| BtnSwLed.ModeCommandsKeepAgreement | Firmware/HomeButtonsArduino/src/button_ui/btn_sw_led.h:125-165 | set/pause/resume switch mode and set switch on/off keep that agreement |
| BtnSwLed.ToggleOnRelease | Firmware/HomeButtonsArduino/src/button_ui/btn_sw_led.cpp:59-73 | in switch mode, a release in Pressed flips the switch and first reports the final SwitchOn or SwitchOff that matches the new state |
| BtnSwLed.KillSwitchFollowsPin | Firmware/HomeButtonsArduino/src/button_ui/btn_sw_led.cpp:30-142 | a kill switch goes on with a SwitchOn after a debounced press, goes off with a SwitchOff after a debounced release, and a release in SwOn starts the release debounce |
| BtnSwLed.ClickModeCounts | Firmware/HomeButtonsArduino/src/button_ui/btn_sw_led.cpp:59-123 | in click mode a release adds one click on an 8-bit counter and reports it as not final; a timed-out Released reports the count as final and returns to Idle with no clicks |
| BtnSwLed.ClickCounted | Firmware/HomeButtonsArduino/src/button_ui/btn_sw_led.cpp:74-79 | a release in click mode moves to the release debounce with one more click and reports exactly that click, not final |
| BtnSwLed.ClickFinal | Firmware/HomeButtonsArduino/src/button_ui/btn_sw_led.cpp:114-123 | a timed-out Released with no new press reports the count as final and is idle with no clicks |
| BtnSwLed.FailedDebounce | Firmware/HomeButtonsArduino/src/button_ui/btn_sw_led.cpp:30-51 | a press that reads low after the debounce returns to the state of the switch in switch mode and to Idle otherwise, with the switch unchanged and no event |
| BtnSwLed.PauseResumeRoundTrip | Firmware/HomeButtonsArduino/src/button_ui/btn_sw_led.h:131-155 | pausing leaves an idle click button with the switch off; resuming afterwards restores mode and switch state and the state that matches them |
| BtnSwLed.Pause | Firmware/HomeButtonsArduino/src/button_ui/btn_sw_led.h:131-139 | `PauseSwitchMode` saves the mode and switch state, then clears both and enters Idle with no effects |
| BtnSwLed.Resume | Firmware/HomeButtonsArduino/src/button_ui/btn_sw_led.h:141-155 | `ResumeSwitchMode` restores the saved mode and switch state and enters SwOn, SwOff or Idle to match them |
| BtnSwLed.SetSwitchModeRestarts | Firmware/HomeButtonsArduino/src/button_ui/btn_sw_led.h:125-129 | setting the mode restarts: switch off and Idle, except a kill switch put in switch mode, which follows the pin at once |
| BtnSwLed.SetSwitchMode | Firmware/HomeButtonsArduino/src/button_ui/btn_sw_led.h:125-129 | `SetSwitchMode(on)` sets the mode and restarts with no clicks counted. Unless it turns a kill switch's mode on, the button is then idle and switched off. The LED restart is the first effect when the button has an LED, and there are no effects otherwise |
| BtnSwLed.NoLedNoCommands | Firmware/HomeButtonsArduino/src/button_ui/btn_sw_led.h:172-222 | a button without an LED only ever reports events: no loop pass and no restart sends an LED command |
| BtnSwLed.StateLoopNoLed | Firmware/HomeButtonsArduino/src/button_ui/btn_sw_led.cpp:17-155 | without an LED, a state loop only reports events |
| BtnSwLed.IdFromPin | Firmware/HomeButtonsArduino/src/button_ui/btn_sw_led.h:267-274 | the id of the first button whose pin matches, whatever its position; 0 when no button is on the pin, and a nonzero result is the id of a button on the pin |
| BtnSwLed.Find | Firmware/HomeButtonsArduino/src/button_ui/btn_sw_led.h:276-284 | the first button with that id, and nothing exactly when no button has it |
| BtnSwLed.Dispatch | Firmware/HomeButtonsArduino/src/button_ui/btn_sw_led.h:290-347 | a per-id command changes only the first button with that id, and nothing at all for an unknown id |
| BtnSwLed.Broadcast | Firmware/HomeButtonsArduino/src/button_ui/btn_sw_led.h:304-395 | a broadcast command applies to every button, in order, and keeps the count |
| BtnSwLed.DispatchTouchesOnlyTarget | Firmware/HomeButtonsArduino/src/button_ui/btn_sw_led.h:290-347 | a per-id command leaves every button with another id unchanged |
| BtnSwLed.SwitchStateAsWritten | Firmware/HomeButtonsArduino/src/button_ui/btn_sw_led.h:349-354 | the switch state of a known id; nothing (the missing return) exactly when no button has the id |
| BtnSwLed.SwitchState | Firmware/HomeButtonsArduino/src/button_ui/btn_sw_led.h:349-354 | with the return supplied, an unknown id reads as off, and a known id reads as its switch state |
| BtnSwLed.UnknownIdHasNoSwitchState | Firmware/HomeButtonsArduino/src/button_ui/btn_sw_led.h:349-354 | a one-button array asked for another id reaches the missing return |
| Touch.Touch2BtnNum | Firmware/HomeButtonsArduino/src/pro/touch.cpp:270-297 | the cell number is 1 to 9, three per row and counted row by row from the top left |
| Touch.CellsPartitionPanel | Firmware/HomeButtonsArduino/src/pro/touch.cpp:270-297 | two points get the same cell number exactly when they lie in the same column and the same row |
| Touch.TouchClick | Firmware/HomeButtonsArduino/src/pro/touch.cpp:178-232 | a single click held two seconds or more is reported as the `ClickLong*` event of its band |
| Touch.TouchClickAgainstButtons | Firmware/HomeButtonsArduino/src/pro/touch.cpp:178-232 | the panel's click table equals the button UI's except for a single click held two seconds or more, where the panel reports `ClickLong*` and the buttons `HoldLong*` of the same band |
| Touch.ClickIsr | Firmware/HomeButtonsArduino/src/pro/touch.cpp:154-157 | after the click-pin interrupt the rising flag is the pin level and the falling flag its negation |
| Touch.ClickReport | Firmware/HomeButtonsArduino/src/pro/touch.cpp:178-232 | `_trigger_click` raises at most one event, and one exactly when the click table has an event for that duration and count. The event is placed at the last touch point, in that point's cell |
| Touch.BtnUpdate | Firmware/HomeButtonsArduino/src/pro/touch.cpp:31-115 | a step counts a click, on an 8-bit counter, exactly on a release in state 2 or 6 and clears the count in state 8; an edge in idle starts a click, state 8 ends it, and no other state touches that flag |
| Touch.StepsLikeButtonUi | Firmware/HomeButtonsArduino/src/pro/touch.cpp:31-115 | below the 8-bit wrap, the click counter steps exactly like the button UI's nine-state loop with the same timing |
| Touch.ResetClears | Firmware/HomeButtonsArduino/src/pro/touch.cpp:110-113 | the reset state returns to idle with no clicks, no click under way, and no event |
| Touch.Swipe | Firmware/HomeButtonsArduino/src/pro/touch.cpp:245-262 | a swipe needs a started touch that ends within the swipe timeout; it is right or left exactly when x moved at least the swipe distance in that direction, and up or down only when x moved less and y at least that far |
| Touch.Handle | Firmware/HomeButtonsArduino/src/pro/touch.cpp:117-152 | every controller event records the point; a touch end always reports TouchEnd last and ends the touch; a tap is reported exactly when no click is under way; moves and drags report nothing; every event carries the point and its cell |
| Touch.QuickDragRightIsSwipe | Firmware/HomeButtonsArduino/src/pro/touch.cpp:117-134 | a touch that ends within the timeout at least the swipe distance to the right reports SwipeRight then TouchEnd |
| Touch.StillTouchIsNoSwipe | Firmware/HomeButtonsArduino/src/pro/touch.cpp:245-263 | a touch that ends where it started reports only TouchEnd |
| Component.Init | Firmware/HomeButtonsArduino/src/component_base.h:33-47 | an uninitialized component becomes Initialized exactly when its init hook succeeds, and the call returns the hook's result; any other state is kept and reported as success |
| Component.Start | Firmware/HomeButtonsArduino/src/component_base.h:49-67 | from Stopped or Initialized the component runs exactly when its start hook succeeds; a running component reports success; an uninitialized or stopping one is refused and unchanged |
| Component.Stop | Firmware/HomeButtonsArduino/src/component_base.h:69-91 | a running component whose stop hook succeeds is Stopped if the hook stopped it, else stopping (CmdStop); a refusing hook keeps it running; a stopped one reports success; any other state is refused and unchanged |
| Component.Apply | Firmware/HomeButtonsArduino/src/component_base.h:33-113 | no call returns a component to Uninitialized. It becomes Stopped only through a call that stops it, and Running only through `Start`; `Restart` keeps the state |
| Component.Run | Firmware/HomeButtonsArduino/src/component_base.h:33-123 | a run of calls keeps an initialised component initialised, and without a stopping call a component that is not stopped does not end stopped |
| Component.NeverUninitializedAgain | Firmware/HomeButtonsArduino/src/component_base.h:33-123 | no sequence of lifecycle calls takes an initialized component back to Uninitialized |
| Component.StoppedOnlyViaSetStopped | Firmware/HomeButtonsArduino/src/component_base.h:69-113 | a component ends Stopped only if some call stopped it: a stop hook that stops at once, or a loop that calls `SetStopped` |
| Component.RestartAndLoop | Firmware/HomeButtonsArduino/src/component_base.h:93-103 | a restart keeps the lifecycle state, and a loop can stop the component only while it is running or stopping |
| StateMachine.New | Firmware/HomeButtonsArduino/src/state_machine.h:41-47 | a new machine is in the first state of its list with the first entry still pending |
| StateMachine.TransitionTo | Firmware/HomeButtonsArduino/src/state_machine.h:49-59 | a transition runs the current state's exit and then the target's entry, and leaves the first-run flag alone |
| StateMachine.Loop | Firmware/HomeButtonsArduino/src/state_machine.h:61-67 | the first loop enters the current state before looping it; later loops only loop; the state never changes |
| StateMachine.Step | Firmware/HomeButtonsArduino/src/state_machine.h:49-67 | a transition sets the current state and a loop keeps it. The first-run flag survives only a transition; a transition runs two actions, and so does a first loop, while a later loop runs one |
| StateMachine.Run | Firmware/HomeButtonsArduino/src/state_machine.h:49-67 | after a run of calls the first run is over exactly when it was already over or some call was a loop; every call adds at least one action to the trace |
| StateMachine.EntriesAppend | Firmware/HomeButtonsArduino/src/state_machine.h:49-67 | entries of a state in a joined trace add up |
| StateMachine.EntriesFollowTransitions | Firmware/HomeButtonsArduino/src/state_machine.h:49-67 | after the first loop, each state's entry runs exactly as often as the machine transitions to it |
| StateMachine.TransitionBeforeFirstLoop | Firmware/HomeButtonsArduino/src/state_machine.h:49-67 | a transition made before the first loop enters its target twice: in the transition and again in the first loop |
| FactoryTest.SplitTopic | tools/factory_test.py:15-16 | the last segment has no '/'; a topic without '/' splits into "" and itself; otherwise the head, '/' and the last segment make the topic back |
| FactoryTest.JoinTopic | tools/factory_test.py:19-20 | `join_topic()` of no pieces is ""; for pieces without '/', `split("/")` gives the pieces back |
| FactoryTest.LastSegmentUnique | tools/factory_test.py:15-16 | the text after the last '/' and the text before it are determined by the topic |
| FactoryTest.JoinSplitTopic | tools/factory_test.py:15-20 | joining the two halves of a split topic gives the topic back |
| FactoryTest.SplitTopicOf | tools/factory_test.py:15-16 | `prefix/last` splits into `prefix` and `last` whenever `last` has no '/' |
| FactoryTest.Capitalize | tools/factory_test.py:53 | `str.capitalize()` keeps the length and leaves no upper-case letter after the first character |
| FactoryTest.OnlyDeviceNests | tools/factory_test.py:45-56 | the nested rebuild finds a class exactly when the capitalised key is "Device": the other class names have a capital after their first letter |
| FactoryTest.FieldNesting | tools/factory_test.py:48-58 | among the three records' field names only "device" selects a nested class |
| FactoryTest.TestSpecToJson | tools/factory_test.py:27-38 | a spec serialises to an object with exactly its three field names |
| FactoryTest.TestSpecFromJson | tools/factory_test.py:41-58 | decoding succeeds exactly on an object with exactly the spec's keys, fails with AttributeError on a non-object and TypeError otherwise, and what it decodes serialises back to the input |
| FactoryTest.DeviceToJson | tools/factory_test.py:27-38 | a device serialises to an object with exactly its five field names |
| FactoryTest.DeviceFromJson | tools/factory_test.py:41-58 | decoding succeeds exactly on an object with exactly the device's keys, non-objects raise AttributeError, and the result serialises back to the input |
| FactoryTest.TestResultToJson | tools/factory_test.py:27-38 | a result serialises to an object with exactly its three field names, the device nested |
| FactoryTest.TestResultFromJson | tools/factory_test.py:41-58 | decoding succeeds exactly on an object with the result's keys whose device, if an object, has the device's keys; a device object is rebuilt as a device; the result serialises back to the input |
| FactoryTest.CodecRoundTrip | tools/factory_test.py:23-63 | `from_json(to_json(x)) == x` for a spec, a device, and a result whose device is a device or a non-object value |
| FactoryTest.NewRunner | tools/factory_test.py:94-100 | a new runner has no spec, tracks no device and has an empty report |
| FactoryTest.LoadTestSpec | tools/factory_test.py:175-176 | loading a spec sets it and changes nothing else |
| FactoryTest.StartTest | tools/factory_test.py:178-184 | with a spec, exactly one publication of the spec on `<devices topic>/<serial>/test_start`; without one, none |
| FactoryTest.StartTestTopic | tools/factory_test.py:182-183 | `split_topic` of the start topic gives the device's topic under "homebuttons-factory/devices" and the last segment "test_start" |
| FactoryTest.FirstWithSerial | tools/factory_test.py:157-169 | the first tracked device with the serial, or the list's length when none has it |
| FactoryTest.OnAnnouncement | tools/factory_test.py:124-144 | an announcement changes the runner exactly when it publishes; then it has appended one device and started its test with a spec loaded; spec and output file never change |
| FactoryTest.OnResult | tools/factory_test.py:147-173 | a result handler never publishes, changes nothing unless handled, and either removes a device or changes nothing |
| FactoryTest.OnMessage | tools/factory_test.py:119-173 | an empty payload is ignored; undecodable payloads change nothing; a publication is a single test start for an announcement under the devices topic, which tracked one more device; a topic that is neither kind is ignored |
| FactoryTest.AnnouncementAdmission | tools/factory_test.py:130-140 | with a spec, an announcement is admitted exactly when the topic's last segment is its serial, the serial is not tracked and the model id is the spec's target; admission appends that device and starts its test, anything else changes and publishes nothing |
| FactoryTest.RoutedToAnnouncement | tools/factory_test.py:124-144 | a non-empty message under the devices topic goes to the announcement branch |
| FactoryTest.RoutedToResult | tools/factory_test.py:147-173 | a non-empty message on any other `.../test_result` goes to the result branch |
| FactoryTest.BadFieldsRejected | tools/factory_test.py:125-129 | a document missing a field or with an extra one is rejected as invalid without effect |
| FactoryTest.BadDeviceRejected | tools/factory_test.py:125-129 | an announcement object without exactly the device's keys is rejected without effect |
| FactoryTest.BadResultRejected | tools/factory_test.py:148-152 | a result object without exactly the result's keys is rejected without effect |
| FactoryTest.ResultRemovesFirst | tools/factory_test.py:153-169 | a result naming the topic's serial removes the first device with that serial and appends one report entry exactly when an output file is set |
| FactoryTest.ResultCorrelated | tools/factory_test.py:147-173 | a result on `<devices topic>/<s>/test_result` for tracked device `i` removes exactly that device and appends one report entry when an output file is set, whether it passed or not |
| FactoryTest.UnknownResultIgnored | tools/factory_test.py:170-173 | a result for a serial that is not tracked changes nothing |
| FactoryTest.ResultForUntracked | tools/factory_test.py:157-173 | the result branch for an untracked serial changes nothing |
| FactoryTest.EchoIgnored | tools/factory_test.py:119-173 | the runner's own test_start publication, received back, is ignored |
| FactoryTest.RemovePreservesUnique | tools/factory_test.py:168 | removing a device keeps the tracked serials distinct |
| FactoryTest.AnnouncementKeepsSerialsUnique | tools/factory_test.py:130-135 | an announcement keeps the tracked serials distinct |
| FactoryTest.ResultKeepsSerialsUnique | tools/factory_test.py:157-169 | a result keeps the tracked serials distinct |
| FactoryTest.OnMessageKeepsSerialsUnique | tools/factory_test.py:119-173 | no message makes the runner track two devices with the same serial |
| FactoryDevice.BaseTopicsAgree | Firmware/HomeButtonsArduino/src/factory.cpp:12 | the device's base topic is the host runner's devices topic |
| FactoryDevice.InitialSpec | Firmware/HomeButtonsArduino/src/factory.cpp:64-66 | the stored spec starts not received, with zero battery values and empty texts of capacities 56 and 32 |
| FactoryDevice.MissingKey | Firmware/HomeButtonsArduino/src/factory.cpp:33-38 | the first required key the parameters lack; none exactly when all eight are present |
| FactoryDevice.AsUnsigned | Firmware/HomeButtonsArduino/src/factory.cpp:46-47 | `as<unsigned int>()` keeps an integer that fits 32 bits and is below 2^32 |
| FactoryDevice.ToInt16 | Firmware/HomeButtonsArduino/src/factory.cpp:46-47 | storing into an `int16_t` keeps the value modulo 65536 within -32768..32767, and a value below 32768 unchanged |
| FactoryDevice.TextOf | Firmware/HomeButtonsArduino/src/factory.cpp:48-49 | `as<const char*>()` of a JSON string yields a C string (no NUL inside); a non-string is read as "" (see "Left out") |
| FactoryDevice.OnSpecMessage | Firmware/HomeButtonsArduino/src/factory.cpp:19-53 | a parsed document with "parameters" holding all eight keys is copied in and marks the spec received (battery values wrapped to `int16_t`, texts cut to 56 and 32); anything else leaves the spec unchanged |
| FactoryDevice.HostSpecAccepted | Firmware/HomeButtonsArduino/src/factory.cpp:29-51 | a spec the host runner publishes marks the spec received exactly when its parameters hold all eight keys |
| FactoryDevice.Topic256 | Firmware/HomeButtonsArduino/src/factory.cpp:128-129 | a topic up to 256 characters is formatted unchanged |
| FactoryDevice.SubscribeMatchesStart | Firmware/HomeButtonsArduino/src/factory.cpp:128-130 | the topic the device subscribes to is the one the host runner publishes the start message on |
| FactoryDevice.AnnounceSplits | Firmware/HomeButtonsArduino/src/factory.cpp:143-145 | the host runner splits the announcement topic into its devices topic and the serial |
| FactoryDevice.ResultSplits | Firmware/HomeButtonsArduino/src/factory.cpp:268-270 | the host runner splits the result topic into `<devices topic>/<serial>` and "test_result" |
| FactoryDevice.AnnounceDoc | Firmware/HomeButtonsArduino/src/factory.cpp:133-138 | the announcement as written carries the hardware version under "app_.hw__version" and no "hw_version" |
| FactoryDevice.DeviceDoc | Firmware/HomeButtonsArduino/src/factory.cpp:133-138 | the device object has exactly the keys serial, random_id, model_id, fw_version and the hardware-version key; the latter holds the hardware version and, when it is none of the others, the others hold the serial, random id, model id and firmware version |
| FactoryDevice.AnnounceDocIntended | Firmware/HomeButtonsArduino/src/factory.cpp:133-138 | the corrected announcement has exactly the keys of the runner's `Device` |
| FactoryDevice.AnnouncementRejected | Firmware/HomeButtonsArduino/src/factory.cpp:133-145 | as written, the runner cannot decode the announcement, rejects it, tracks nothing and publishes nothing |
| FactoryDevice.AnnouncementAdmittedIntended | Firmware/HomeButtonsArduino/src/factory.cpp:128-145 | the corrected announcement decodes to the device's identity; a runner targeting the model that does not track the serial admits it and publishes the start on the topic the device subscribed to |
| FactoryDevice.MeasuredParams | Firmware/HomeButtonsArduino/src/factory.cpp:255-264 | a parameters object exists exactly when the build has a sensor or a battery, with the temperature exactly on sensor builds and the battery exactly on battery builds |
| FactoryDevice.ResultDoc | Firmware/HomeButtonsArduino/src/factory.cpp:245-264 | the result as written has a device object, and "parameters" exactly on builds with a sensor or battery |
| FactoryDevice.ResultDocIntended | Firmware/HomeButtonsArduino/src/factory.cpp:245-264 | the corrected result has exactly the runner's result keys and the corrected device object |
| FactoryDevice.ResultRejected | Firmware/HomeButtonsArduino/src/factory.cpp:245-270 | as written, the runner cannot decode the result, rejects it and keeps tracking the device |
| FactoryDevice.ResultDocUndecodable | Firmware/HomeButtonsArduino/src/factory.cpp:247-252 | the result as written fails to decode with TypeError because of its device key |
| FactoryDevice.ResultCorrelatedIntended | Firmware/HomeButtonsArduino/src/factory.cpp:245-270 | with the corrected result, the runner removes the device it admitted and records the result when it has an output file |
| FactoryDevice.IntendedDeviceDecodes | Firmware/HomeButtonsArduino/src/factory.cpp:133-138 | the corrected announcement decodes to the device's identity |
| FactoryDevice.IntendedResultDecodes | Firmware/HomeButtonsArduino/src/factory.cpp:245-253 | the corrected result decodes and names the device's identity |
| FactoryDevice.AllPressed | Firmware/HomeButtonsArduino/src/factory.cpp:198-204 | the scan is true exactly when every button has been seen pressed |
| FactoryDevice.ButtonTest | Firmware/HomeButtonsArduino/src/factory.cpp:182-209 | the test stops at the first poll that times out or has seen all six buttons, and passes exactly when that poll did not time out; with no such poll it is still waiting |
| FactoryDevice.SeenIff | Firmware/HomeButtonsArduino/src/factory.cpp:192-204 | after a poll, the scan is true exactly when every button has been seen by then |
| FactoryDevice.BatteryWindow | Firmware/HomeButtonsArduino/src/factory.cpp:233-239 | the battery passes exactly when the reading lies strictly inside reference ± tolerance; a tolerance of zero or less fails every reading |
| FactoryDevice.LargeReferenceShifts | Firmware/HomeButtonsArduino/src/factory.cpp:46-47 | a reference of 32768 mV or more wraps to a negative `int16_t` and moves the window 65536 mV down |
| FactoryDevice.PassedIffEnabledPass | Firmware/HomeButtonsArduino/src/factory.cpp:68-241 | the test passes exactly when every built sub-test passes; the battery counts only on builds that also have the sensor |
| FactoryDevice.Passed | Firmware/HomeButtonsArduino/src/factory.cpp:68-241 | a passing test has passed the display sub-tests when the display is built and the button sub-test when the button UI is built; a build with none of the tested features passes |
| FactoryDevice.FinishTest | Firmware/HomeButtonsArduino/src/factory.cpp:272-281 | the verdict is returned, and the "fac_test" namespace is cleared exactly when the test passed |
| FactoryDevice.IsTestRequired | Firmware/HomeButtonsArduino/src/factory.cpp:55-62 | the test is required exactly when "do_test" is stored as true |
| FactoryDevice.PassedTestNotRequiredAgain | Firmware/HomeButtonsArduino/src/factory.cpp:55-62 | after a pass the test is not required again; after a failure the requirement is unchanged |
| FactoryMode.Payload | Firmware/HomeButtonsArduino/include/factory.h:90 | `substring(2)`: the text after the command letter and one separator, empty for lines of two characters or fewer |
| FactoryMode.StepLine | Firmware/HomeButtonsArduino/include/factory.h:84-183 | one line: `E` saves exactly when all five fields are set, and then the unique id is "HBTNS-" + serial + "-" + random id; `T` runs the test exactly when a hardware version is set and answers its verdict; only an OK changes the settings; empty lines and other letters change nothing; the field lengths stay valid |
| FactoryMode.SetterAcceptance | Firmware/HomeButtonsArduino/include/factory.h:108-152 | `S`, `I`, `D` and `V` accept exactly payloads of 8, 6, 2 and 3 characters and `M` 1 to 20, answering OK or FAIL, and only an accepted payload is stored |
| FactoryMode.RunKeepsInv | Firmware/HomeButtonsArduino/include/factory.h:76-183 | a run of lines either is still waiting with valid field lengths, or has saved complete settings with the unique id built from serial and random id; every test ran with a three-character hardware version |
| FactoryMode.UniqueIdLength | Firmware/HomeButtonsArduino/include/factory.h:159-160 | a saved unique id has 21 characters |
| FactoryMode.UniqueId | Firmware/HomeButtonsArduino/include/factory.h:159-160 | the unique id is "HBTNS-", the serial, '-' and the random id, in that order |
| FactoryMode.UniqueIdDetermines | Firmware/HomeButtonsArduino/include/factory.h:159-160 | for serials of one length, the unique id determines the serial and the random id |
| FactoryMode.FactoryModeRun | Firmware/HomeButtonsArduino/include/factory.h:76-183 | a saved run has every setting, a unique id of 21 characters built from its serial and random id; a run still waiting keeps the settings invariant |
| FactoryMode.IgnoredLines | Firmware/HomeButtonsArduino/include/factory.h:88-181 | lines that are empty or start with an unknown letter get no reply and change nothing |
| FactoryMode.EarlyConfirmFails | Firmware/HomeButtonsArduino/include/factory.h:153-180 | `E` before all five fields are set answers FAIL and changes nothing |
| UiLed.NewLed | Firmware/HomeButtonsArduino/src/button_ui/leds.h:95-97 | a new LED is idle with its first entry pending and no command pending or playing |
| UiLed.BlinkCmd | Firmware/HomeButtonsArduino/src/button_ui/leds.cpp:100-144 | a blink command with its count; a zero on or off time takes the count's default (400/400, 100/300, 67/200, else 50/150 ms); it replaces any pending command and changes nothing else |
| UiLed.OnCmd | Firmware/HomeButtonsArduino/src/button_ui/leds.cpp:146-149 | `On` makes a constant command of that brightness pending, replacing any other |
| UiLed.OffCmd | Firmware/HomeButtonsArduino/src/button_ui/leds.cpp:151-154 | `Off` makes an off command pending, replacing any other |
| UiLed.PulseCmd | Firmware/HomeButtonsArduino/src/button_ui/leds.cpp:156-160 | `Pulse` makes a pulse command of that brightness and cycle pending, replacing any other |
| UiLed.Enter | Firmware/HomeButtonsArduino/src/button_ui/leds.cpp:3-92 | entering Idle, BlinkOff or Transition sets the output to the ambient brightness; entering BlinkOn or ConstOn sets it to the playing command's brightness; commands and lifecycle state are untouched |
| UiLed.Loop | Firmware/HomeButtonsArduino/src/button_ui/leds.cpp:164 | after a loop call the first entry has run |
| UiLed.StateLoop | Firmware/HomeButtonsArduino/src/button_ui/leds.cpp:3-92 | a state's `loop()` enters at most one state and keeps the ambient brightness. Outside Idle the pending and current commands are kept; Idle with a pending command consumes it and enters its first state. The component state changes only from CmdStop to Stopped, in Idle, ConstOn or Pulsing |
| UiLed.Run | Firmware/HomeButtonsArduino/src/button_ui/leds.cpp:164 | a run of `loop()` calls enters at most two states per call, keeps the ambient brightness, and leaves the machine entered once it has run |
| UiLed.Restart | Firmware/HomeButtonsArduino/src/button_ui/leds.cpp:166-171 | a restart drops both commands and the count and is idle at the ambient brightness, leaving the lifecycle state alone |
| UiLed.OperationsKeepWf | Firmware/HomeButtonsArduino/src/button_ui/leds.cpp:3-171 | loops, restarts and new commands keep every playing state holding a command of its kind, and a blink's counter below its count |
| UiLed.IdleConsumesCommand | Firmware/HomeButtonsArduino/src/button_ui/leds.cpp:7-22 | idle takes the pending command once, clears it, restarts the counter and goes to the state that plays it |
| UiLed.StopOnlyWhenSettled | Firmware/HomeButtonsArduino/src/button_ui/leds.cpp:23-86 | a loop changes the lifecycle state only from CmdStop to Stopped, and only in Idle with nothing pending, ConstOn or Pulsing |
| UiLed.OnEntriesAppend | Firmware/HomeButtonsArduino/src/button_ui/leds.cpp:28-58 | BlinkOn entries of a joined run add up |
| UiLed.LoopPaysOwed | Firmware/HomeButtonsArduino/src/button_ui/leds.cpp:28-58 | each loop call enters BlinkOn at most once and, if so, pays one of the on phases still owed |
| UiLed.BlinkCount | Firmware/HomeButtonsArduino/src/button_ui/leds.cpp:7-58 | without new commands, the on phases a run enters plus those still owed at its end equal those owed at its start |
| UiLed.PendingBlinkLightsCount | Firmware/HomeButtonsArduino/src/button_ui/leds.cpp:7-58 | a pending blink of n blinks, played to the end, lights the LED max(n, 1) times |
| UiLed.LatestCommandWins | Firmware/HomeButtonsArduino/src/button_ui/leds.cpp:140-158 | a newer command replaces an older one that is still pending |
| MiniLed.NewLed | Firmware/HomeButtonsArduino/src/original_mini/leds.h:65-89 | a new LED keeps its id, is uninitialized and idle with no command pending |
| MiniLed.Command | Firmware/HomeButtonsArduino/src/original_mini/leds.cpp:47-86 | the stored command keeps count, brightness and hold; a zero on or off time takes the count's default, the same table as the button-UI LEDs |
| MiniLed.BlinkAsWritten | Firmware/HomeButtonsArduino/src/original_mini/leds.cpp:47-91 | as written, a blink with the default off time stores its command, and one with an explicit off time changes nothing |
| MiniLed.Blink | Firmware/HomeButtonsArduino/src/original_mini/leds.cpp:47-91 | as evidently intended, every blink stores its command and changes nothing else |
| MiniLed.ExplicitOffTimeDropped | Firmware/HomeButtonsArduino/src/original_mini/leds.cpp:68-90 | three blinks with an off time of 250 ms are dropped as written and stored (with the 67 ms default on time) as intended |
| MiniLed.AgreeOnDefaultOffTime | Firmware/HomeButtonsArduino/src/original_mini/leds.cpp:68-90 | both versions agree whenever the off time is left at 0 |
| MiniLed.Enter | Firmware/HomeButtonsArduino/src/original_mini/leds.cpp:3-45 | entering On sets the output to the command's brightness and Off sets it to 0; Idle has no entry, so the output keeps its level |
| MiniLed.Loop | Firmware/HomeButtonsArduino/src/original_mini/leds.cpp:95 | after a loop call the first entry has run and the id is unchanged |
| MiniLed.StateLoop | Firmware/HomeButtonsArduino/src/original_mini/leds.cpp:3-45 | a state's `loop()` enters at most one state and keeps the id. Outside Idle the commands and component state are kept; Idle with a pending blink starts it in On. The component state changes only from CmdStop to Stopped, in Idle, and entering Off turns the LED dark |
| MiniLed.LastBlinkLevel | Firmware/HomeButtonsArduino/src/original_mini/leds.cpp:20-28 | after the last on phase, a held blink is idle at the blink's brightness and an unheld one goes to Off with the LED dark |
| MiniLed.UnheldBlinkEndsDark | Firmware/HomeButtonsArduino/src/original_mini/leds.cpp:36-45 | once Off has waited its time on the last blink, the LED is idle and dark |
| MiniLed.StopOnlyInIdle | Firmware/HomeButtonsArduino/src/original_mini/leds.cpp:3-13 | a loop changes the lifecycle state only from CmdStop to Stopped, only in Idle with nothing pending |
| MiniLed.IdByte | Firmware/HomeButtonsArduino/src/original_mini/leds.h:65-68 | `id()` returns the `uint16_t` id narrowed to a `uint8_t`: below 256, and unchanged when it already fits |
| MiniLed.FirstWithId | Firmware/HomeButtonsArduino/src/original_mini/leds.h:97-105 | the first LED whose byte-narrowed id equals the byte-narrowed `led_id`, and none exactly when no LED's id agrees modulo 256 |
| MiniLed.WideIdAnswers | Firmware/HomeButtonsArduino/src/original_mini/leds.h:65-105 | an LED whose id is 256 above the one asked for answers a `Blink` for it |
| MiniLed.UpdateFirst | Firmware/HomeButtonsArduino/src/original_mini/leds.h:97-105 | only the first LED with the id (compared as bytes) is handed the call; every other LED and the aggregate's state are unchanged |
| MiniLed.LedsBlink | Firmware/HomeButtonsArduino/src/original_mini/leds.h:97-105 | as written (through `LED::Blink` as written): the first LED with the id (compared as bytes) stores the command only when the off time is the default 0; no other LED and no other field changes |
| MiniLed.LedsBlinkIntended | Firmware/HomeButtonsArduino/src/original_mini/leds.h:97-105 | with the intended `LED::Blink`, the first LED with the id (compared as bytes) always stores the command, and nothing else changes |
| MiniLed.LedsBlinkAgreeOnDefaultOffTime | Firmware/HomeButtonsArduino/src/original_mini/leds.h:97-105 | the aggregate's two versions agree on every call that leaves the off time at its default |
| MiniLed.ChildCall | Firmware/HomeButtonsArduino/src/original_mini/leds.h:108-125 | an LED's init, start and stop follow the component lifecycle with hooks that succeed; a stop takes effect only in a later loop; the machine, command and output are untouched |
| MiniLed.MapCall | Firmware/HomeButtonsArduino/src/original_mini/leds.h:108-150 | a lifecycle call reaches every LED in order |
| MiniLed.LedsCall | Firmware/HomeButtonsArduino/src/original_mini/leds.h:107-150 | the aggregate's init, start and stop follow the component lifecycle with hooks that succeed; a restart keeps its state; the number of LEDs is kept |
| MiniLed.ChildLoop | Firmware/HomeButtonsArduino/src/original_mini/leds.h:126-129 | an LED loops only while running or stopping |
| MiniLed.LoopAll | Firmware/HomeButtonsArduino/src/original_mini/leds.h:127-129 | every LED gets its loop call |
| MiniLed.LedsLoop | Firmware/HomeButtonsArduino/src/original_mini/leds.h:126-144 | a loop runs every LED while the aggregate runs or stops; the aggregate's state changes exactly when it was stopping and every LED has stopped, and then it is Stopped |
| MiniLed.StopDrainsQuietLeds | Firmware/HomeButtonsArduino/src/original_mini/leds.h:120-144 | stopping a running aggregate of idle, quiet LEDs completes at the next loop, with every LED stopped |
| MiniLed.BlinkingLedDelaysStop | Firmware/HomeButtonsArduino/src/original_mini/leds.h:130-143 | an LED still in a blink holds back the aggregate's stop |
| LegacyLeds.NewLeds | Firmware/HomeButtonsArduino/src/leds.h:29-33 | the driver starts idle with no end requested and no blink queued |
| LegacyLeds.Begin | Firmware/HomeButtonsArduino/src/leds.cpp:5-8 | `begin` makes the driver active and changes nothing else |
| LegacyLeds.End | Firmware/HomeButtonsArduino/src/leds.cpp:10-13 | `end` only requests the end; the driver stays in its state with its queue |
| LegacyLeds.Clamp | Firmware/HomeButtonsArduino/src/leds.cpp:17-20 | the stored blink count lies in 1..5: a count in range is kept, 0 becomes 1 and anything above 5 becomes 5 |
| LegacyLeds.QueueBlink | Firmware/HomeButtonsArduino/src/leds.cpp:15-29 | `blink` queues the LED, clamped count, brightness and hold, replacing any blink not yet played, and leaves the state and the end request alone |
| LegacyLeds.Times | Firmware/HomeButtonsArduino/src/leds.cpp:42-64 | the on/off times: 400/400 ms for one blink, 100/300 for two, 67/200 for three, 50/150 otherwise |
| LegacyLeds.Update | Firmware/HomeButtonsArduino/src/leds.cpp:33-80 | an inactive driver does nothing; an active one plays a queued blink (each blink lit for the on time, then dark for the off time unless it is the held last one) and empties the queue; it goes idle exactly when an end was requested, and clears the request |
| LegacyLeds.CountsAppend | Firmware/HomeButtonsArduino/src/leds.cpp:65-72 | lit steps and waiting time of joined step sequences add up |
| LegacyLeds.PatternCounts | Firmware/HomeButtonsArduino/src/leds.cpp:65-72 | a bright blink of n lights the LED n times and waits n on times plus an off time for every blink except a held last one |
| LegacyLeds.FinalLevelAppend | Firmware/HomeButtonsArduino/src/leds.cpp:65-72 | the level a sequence leaves is that of its last part, when that part sets a level |
| LegacyLeds.HoldLeavesLedLit | Firmware/HomeButtonsArduino/src/leds.cpp:65-72 | a played blink leaves the LED at its brightness exactly when it was held, and dark otherwise |
| LegacyLeds.LastPulseIsTail | Firmware/HomeButtonsArduino/src/leds.cpp:65-72 | the pattern of a blink ends with its last pulse |
| LegacyLeds.QueuedBlinkPlaysClamped | Firmware/HomeButtonsArduino/src/leds.cpp:15-72 | a queued bright blink lights the LED between one and five times: exactly its clamped count |

## Left out

- Wi-Fi, the MQTT client, the serial port, the file system, SPIFFS, the e-paper drawing and deep sleep are I/O. A step returns what it would publish, save, draw or write; the I/O itself is not modelled.
- `find_espidf`, `unzip_file`, `load_partition_table`, `generate_nvs`, `burn_efuses` and `flash_firmware` of tools/flash_tool.py run external tools and touch files. Only the argument checks and the record they decide on are modelled.
- `generate_random_id` draws random characters, so its result is an input of `FlashTool.Resolve`.
- Firmware text is modelled as `seq<char>` with one Dafny `char` standing for one C `char` byte. Lengths, capacities and cuts therefore count bytes, as the firmware does; a label or topic holding multi-byte UTF-8 is taken to be given byte by byte, and the decoding of such bytes into characters is not modelled.
- FlashTool.ModelData: model_data.json is taken to hold either two strings or something `HWModelData.from_json` refuses. `from_json` checks no types, so a JSON number as `model_id` passes it and then makes `len()` in `verify_model_id` raise a TypeError that only `except AssertionError` surrounds, ending the script with a traceback; such files are not modelled.
- `Preferences` is a map from keys to typed values. Flash wear, namespace limits and storage failures are not modelled.
- `millis()` and pin levels are inputs of every step that reads them. Interrupts are steps of their own; they never run in the middle of another step.
- The timing constants of src/button_ui/buttons.h and the press times of src/main.cpp (`MEDIUM_PRESS_TIME` and the rest) are defined in headers that are not part of this model. They are parameters: `ClickButton.Timing` and `Boot.PressTimes`.
- Clicks.Band: the long-press bands `kLong2sTime` .. `kLong20sTime` (2, 5, 10 and 20 s) are taken from src/pro/touch.h, the only header at hand that defines them; the button-UI code is assumed to see the same values, while its other timing constants stay parameters.
- `SW_VERSION` is the constant "v2.0.3-beta" of src/config.h. Nothing depends on its value.
- The revision definitions `hw_rev_2_2` and `hw_rev_2_3` are not in src/hardware.h as given. Their versions 2.2.0 and 2.3.0 are taken from their names; only the version field and the button pins of revisions 1.0 and 2.0 are modelled.
- The wake-up pin is computed with `log()` of the wake-up bit mask. `Boot.WakeupButton` takes the pin number itself as its input.
- The brightness curve of the pulsing LED uses `cos` on floats. `UiLed` keeps the output level unchanged while pulsing.
- The factory test's temperature and humidity checks compare floats. They enter the verdict as the booleans `tempOk` and `humidityOk`, and their values stay opaque JSON numbers.
- The battery reading `read_battery_voltage() * 1000.` is a float truncated to `uint16_t`. `FactoryDevice` takes the millivolts as a number.
- Hardware.IsBatteryPresent: the voltage from `read_battery_voltage` and `BATT_PRESENT_VOLT` are whole millivolts here; the ADC conversion and the float comparison are not modelled, and `BATT_PRESENT_VOLT` is a parameter because its definition is not part of this model.
- Helpers.IncrementSerial: `int()` is modelled for ASCII digits and ASCII whitespace; the non-ASCII decimal digits and whitespace Python also accepts are not modelled, so such a suffix is reported as a ValueError.
- Python text handling is ASCII only: `isalpha`, `isnumeric`, `capitalize` and `int()` on digit strings are modelled for ASCII characters, and non-ASCII input is rejected or handled as the ASCII case.
- Events of the touch panel carry no `final` flag in src/user_input.h. `Touch` sets it to false.
- Touch.BtnUpdate: the click counter's static variables are fields of `Clicker`; the touch controller's gesture detection (tap, drag) is an input.
- App.Atoi: `atoi` is unbounded here; C's behaviour on values outside `int` is undefined and is not modelled.
- App.LabelCallback: a label received over MQTT is stored in the user settings and published; writing those settings to flash is left to a later save, which is not part of the callback.
- Display.TrimText: requires a lone "." to fit the width. Otherwise the source's loop never ends, and a non-terminating loop is not modelled.
- StaticStrings.Substring: requires the text from `i` on to contain no '%'. The source passes that text to `snprintf` as the format, and the expansion of format directives is not modelled.
- LegacyStaticStrings.Sub: the same '%' restriction, for the same reason.
- Display.TrimStep: the same '%' restriction, because it calls `substring`.
- Boot.Ladder: the firmware polls the button until it is released. The model reads a finite list of samples and reports no reason if they run out.
- FactoryDevice.ButtonTest: the same for the button test's polling loop, which yields no verdict if the polls run out.
- FactoryMode.StepLine: `run_tests()` behind `T` waits for button presses and drives the display. Its verdict is an input of the line.
- FactoryDevice.OnSpecMessage: ArduinoJson's 512-byte document limit is not modelled; a document either parses or does not.
- FactoryTest.OnMessage: printing is left out, and an exception that escapes `on_message` is reported as the outcome `Crashed`, without modelling paho's handling of it.
- LegacyLeds.QueueBlink: the count is the caller's `uint8_t`; values of 256 and more cannot occur there and are clamped to 5 here.
- UserStore.LoadUser: src/state.h declares `device_name` as a `String`, while src/state.cpp loads it into a 20-character `DeviceName`; the model follows src/state.cpp and cuts it to 20. The default name appends the `RandomID` to a `DeviceName`, an overload src/static_string.h does not declare; it is taken to append the id's text, cut to 20 like the other `+` overloads.
- FactoryData.Decode: `bytes.decode("utf-8")` is modelled on ASCII only. Python also decodes valid multi-byte UTF-8 sequences; such a head is refused here instead of decoded.
- FactoryData.DecodeAscii: the same ASCII-only decoding, for the same reason.
- FactoryData.VerifyModelId: `isalpha` and `isnumeric` are read on ASCII letters and digits; the non-ASCII letters and numerals Python also accepts are refused here.
- FactoryData.VerifyHwVersion: `isnumeric` is read on ASCII digits; the non-ASCII numerals Python also accepts are refused here.
- FactoryData.VerifyRandomId: `isalnum` is read on ASCII letters and digits; the non-ASCII letters and digits Python also accepts are refused here.
- FactoryData.VerifiedLengths: `isalnum`, `isalpha` and `isnumeric` are read on ASCII. Python also accepts non-ASCII letters and digits, so a random id such as "ÄÄÄÄÄÄ" passes `verify()` there and then fails `encode`'s 6-byte length assertion; the model does not show that failure.
- FactoryDevice.TextOf: ArduinoJson's `as<const char*>()` of a non-string is a null pointer, and `snprintf("%s", nullptr)` is undefined behaviour in C (newlib writes "(null)"). The model reads it as "".
- Display.LabelTypeOf: `substring` passes the label text to `snprintf` as the format, so a '%' in a label would be expanded as a directive. Labels are taken to hold no '%'; the expansion is not modelled.
- Display.MdiName: the same '%' restriction. The one-argument `substring(4)` is not declared in src/static_string.h; it is taken as the tail of the label from index 4.
- Display.TextOf: the same '%' restriction, and the one-argument `substring` is taken as the tail from the index past the first space.
- Display.TestCmd: `UIState::MessageType` and `MDIName` are declared in a header that is not part of this model, so their capacities are not known; the text and the icon name are kept whole.
- Display.LabelRebuilt: holds for '%'-free labels only, for the reason given under `Display.LabelTypeOf`.
- Display.ComposedLabelParsed: the same, for '%'-free labels only.
- JsonTree: JSON numbers are integers. The floats of the test spec and the readings are JSON values that are only copied, never compared.

## Findings

| source | as written | input that shows it | evidently intended | confidence | as-written member | corrected member |
|---|---|---|---|---|---|---|
| Firmware/HomeButtonsArduino/src/factory.cpp:138 | the announcement stores the hardware version under the key "app_.hw__version" | any device announcing itself to a host runner with a spec for its model | the key "hw_version" of the runner's `Device` record, so that the runner admits the device and starts its test | high, not executed | FactoryDevice.AnnouncementRejected | FactoryDevice.AnnouncementAdmittedIntended |
| Firmware/HomeButtonsArduino/src/factory.cpp:249-257 | the result's device object stores the hardware version under "app_.hw_version", and builds without sensors leave out "parameters" | any result document sent to the host runner | the runner's `TestResult` keys, so that the runner records the result and stops tracking the device | high, not executed | FactoryDevice.ResultRejected | FactoryDevice.ResultCorrelatedIntended |
| Firmware/HomeButtonsArduino/src/original_mini/leds.cpp:68-90 | the command is stored only inside `if (off_ms == 0)` | `Blink(3, 255, 0, 250)`: three blinks with an off time of 250 ms | store the command for every call, as the button-UI LED does | high, not executed | MiniLed.ExplicitOffTimeDropped | MiniLed.Blink |
| Firmware/HomeButtonsArduino/src/button_ui/btn_sw_led.h:349-354 | `SwitchState` falls off its end without a `return` for an unknown id | an id that no button has | return false for an unknown id | medium, not executed | BtnSwLed.UnknownIdHasNoSwitchState | BtnSwLed.SwitchState |
