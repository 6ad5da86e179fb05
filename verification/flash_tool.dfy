/**
  tools/flash_tool.py: the block codec it carries (a verbatim copy of the
  one in tools/factory_data.py, so the model shares one definition), and the
  command-line validation of its `__main__` that assembles the factory record
  to be flashed. File-system facts (does the firmware directory exist, what
  do model_data.json, test_setup.json and inventory.csv hold) and the freshly
  generated random id are inputs.
 */
module FlashTool {
  import opened Wrappers
  import opened Text
  import opened FactoryData
  import Helpers

  /** `encode_factory_data` and `decode_factory_data` complete a round trip. */
  lemma EncodeFactoryDataRoundTrip(d: FactoryRecord)
    requires LengthsOk(d) && AsciiFields(d)
    ensures Encode(d).Success? && |Encode(d).value| == BlockSize
    ensures Decode(Encode(d).value) == Success(d)
  {
    DecodeEncode(d);
  }

  // ---------------------------------------------------------------------
  // Command-line validation
  // ---------------------------------------------------------------------

  datatype Args = Args(
    auto: bool, jigSerial: Option<string>, series: bool,
    modelId: Option<string>, hwVersion: Option<string>,
    serial: Option<string>, randomId: Option<string>)

  /** Python truthiness of an optional string argument: given and non-empty. */
  predicate Given(a: Option<string>) {
    a.Some? && |a.value| > 0
  }

  datatype ModelFile = NoModelFile | BadModelFile | ModelFile(modelId: string, hwVersion: string)
  datatype SetupFile = NoSetupFile | BadSetupFile | GoodSetupFile
  /** inventory.csv: absent, unreadable, or its rows of cells. */
  datatype Inventory = NoInventory | BadInventory | Rows(rows: seq<seq<string>>)

  datatype Env = Env(
    fwDirIsDir: bool, modelFile: ModelFile, firmwareFound: bool,
    setupFile: SetupFile, inventory: Inventory, generatedRandomId: string)

  /**
    The `parser.error` exits, in the order the script can raise them, and the
    AttributeError raised when `verify_serial` is handed a missing serial.
   */
  datatype FlashError =
    | JigSerialRequired | RandomIdInSeries | InvalidFwDir
    | ModelArgsNotAllowed | InvalidModelData | MissingModelData | BothModelArgsRequired
    | InvalidModelId | InvalidHwVersion
    | MissingFirmware | InvalidTestSetup | MissingTestSetup
    | InvalidLastSerial | InvalidInventory | SerialNotAllowed | SerialRequired
    | InvalidFactoryData | MissingSerialCrash

  /** `rows[-1][2]`, or the IndexError it raises. */
  function LastSerial(rows: seq<seq<string>>): (r: Option<string>)
    ensures r.Some? <==> |rows| > 0 && |rows[|rows| - 1]| > 2
  {
    if |rows| > 0 && |rows[|rows| - 1]| > 2 then Some(rows[|rows| - 1][2]) else None
  }

  /** Model id and hardware version, from model_data.json or from the arguments. */
  function ModelData(args: Args, env: Env): (r: Result<(string, string), FlashError>)
    ensures !env.modelFile.NoModelFile? && (Given(args.modelId) || Given(args.hwVersion)) ==>
      r == Failure(ModelArgsNotAllowed)
    ensures env.modelFile.ModelFile? && !Given(args.modelId) && !Given(args.hwVersion) ==>
      r == Success((env.modelFile.modelId, env.modelFile.hwVersion))
    ensures env.modelFile.BadModelFile? ==> r.Failure?
    ensures env.modelFile.NoModelFile? && r.Success? ==>
      args.modelId == Some(r.value.0) && args.hwVersion == Some(r.value.1)
      && |r.value.0| == 2 && |r.value.1| == 3
    ensures env.modelFile.NoModelFile? && (!Given(args.modelId) || !Given(args.hwVersion)) ==> r.Failure?
  {
    match env.modelFile
    case ModelFile(m, h) =>
      if Given(args.modelId) || Given(args.hwVersion) then Failure(ModelArgsNotAllowed)
      else Success((m, h))
    case BadModelFile =>
      if Given(args.modelId) || Given(args.hwVersion) then Failure(ModelArgsNotAllowed)
      else Failure(InvalidModelData)
    case NoModelFile =>
      if !Given(args.modelId) && !Given(args.hwVersion) then Failure(MissingModelData)
      else if !Given(args.modelId) || !Given(args.hwVersion) then Failure(BothModelArgsRequired)
      else if |args.modelId.value| != 2 then Failure(InvalidModelId)
      else if |args.hwVersion.value| != 3 then Failure(InvalidHwVersion)
      else Success((args.modelId.value, args.hwVersion.value))
  }

  /**
    The serial to flash. In series mode with an inventory it is the last
    row's serial incremented, after that serial passed `verify_serial`; the
    `None` of the result is a missing `--serial` outside series mode.
   */
  function SerialFor(args: Args, env: Env): (r: Result<Option<string>, FlashError>)
    ensures !args.series ==> r == Success(args.serial)
    ensures args.series && r.Success? ==> r.value.Some?
    ensures args.series && env.inventory.BadInventory? ==> r == Failure(InvalidInventory)
    ensures args.series && env.inventory.NoInventory? ==>
      r == (if Given(args.serial) then Success(args.serial) else Failure(SerialRequired))
    ensures args.series && env.inventory.Rows? && r.Success? ==>
      var last := LastSerial(env.inventory.rows);
      !Given(args.serial) && last.Some? && VerifySerial(last.value)
      && Helpers.IncrementSerial(last.value) == Success(r.value.value)
  {
    if args.series then
      match env.inventory
      case Rows(rows) =>
        var last := LastSerial(rows);
        if last.None? then Failure(InvalidInventory)
        else if !VerifySerial(last.value) then Failure(InvalidLastSerial)
        else
          var next := Helpers.IncrementSerial(last.value);
          if next.Failure? then Failure(InvalidInventory)
          else if Given(args.serial) then Failure(SerialNotAllowed)
          else Success(Some(next.value))
      case BadInventory => Failure(InvalidInventory)
      case NoInventory =>
        if !Given(args.serial) then Failure(SerialRequired) else Success(args.serial)
    else Success(args.serial)
  }

  /** `verify()` on a record whose serial may be missing: it raises only if evaluation reaches the serial. */
  function VerifyAssembled(modelId: string, hwVersion: string, serial: Option<string>, randomId: string)
    : Result<FactoryRecord, FlashError>
  {
    if !(VerifyModelId(modelId) && VerifyHwVersion(hwVersion)) then Failure(InvalidFactoryData)
    else if serial.None? then Failure(MissingSerialCrash)
    else
      var d := FactoryRecord(modelId, hwVersion, serial.value, randomId);
      if Verify(d) then Success(d) else Failure(InvalidFactoryData)
  }

  /** The record `__main__` goes on to flash, or the reason it stops. */
  function Resolve(args: Args, env: Env): (r: Result<FactoryRecord, FlashError>)
    ensures r.Success? ==> Verify(r.value)
    ensures args.series && Given(args.randomId) ==> r.Failure?
    ensures r.Success? ==>
      r.value.randomId == (if Given(args.randomId) then args.randomId.value else env.generatedRandomId)
    ensures r.Success? && !args.series ==> args.serial == Some(r.value.serial)
    ensures r.Success? && env.modelFile.ModelFile? ==>
      r.value.modelId == env.modelFile.modelId && r.value.hwVersion == env.modelFile.hwVersion
    ensures r.Success? && env.modelFile.NoModelFile? ==>
      args.modelId == Some(r.value.modelId) && args.hwVersion == Some(r.value.hwVersion)
    ensures args.series && env.inventory.Rows? && Given(args.serial) ==> r.Failure?
    ensures args.series && env.inventory.NoInventory? && !Given(args.serial) ==> r.Failure?
    ensures args.series && env.inventory.Rows? && r.Success? ==>
      var last := LastSerial(env.inventory.rows);
      last.Some? && VerifySerial(last.value)
      && Helpers.IncrementSerial(last.value) == Success(r.value.serial)
  {
    if args.auto && args.jigSerial.None? then Failure(JigSerialRequired)
    else if args.series && Given(args.randomId) then Failure(RandomIdInSeries)
    else if !env.fwDirIsDir then Failure(InvalidFwDir)
    else
      var model :- ModelData(args, env);
      if !env.firmwareFound then Failure(MissingFirmware)
      else if env.setupFile.NoSetupFile? then Failure(MissingTestSetup)
      else if env.setupFile.BadSetupFile? then Failure(InvalidTestSetup)
      else
        var serial :- SerialFor(args, env);
        var randomId := if Given(args.randomId) then args.randomId.value else env.generatedRandomId;
        VerifyAssembled(model.0, model.1, serial, randomId)
  }

  /**
    A last inventory serial that fails `verify_serial` is reported as such:
    the exit it raises is not an `Exception`, so the surrounding handler does
    not turn it into "Invalid inventory file".
   */
  lemma InvalidLastSerialReported(args: Args, env: Env, rows: seq<seq<string>>)
    requires args.series && !args.auto && !Given(args.randomId) && env.fwDirIsDir
    requires env.modelFile.ModelFile? && !Given(args.modelId) && !Given(args.hwVersion)
    requires env.firmwareFound && env.setupFile.GoodSetupFile?
    requires env.inventory == Rows(rows) && LastSerial(rows).Some?
    requires !VerifySerial(LastSerial(rows).value)
    ensures Resolve(args, env) == Failure(InvalidLastSerial)
  {
  }
}
