/**
  The factory identity record of tools/factory_data.py: four text fields,
  their format predicates, and the 32-byte eFuse block they are packed into.

  Text is encoded as UTF-8 in the source. The model covers ASCII text exactly;
  a field holding a non-ASCII character makes `encode` fail its own self-check
  (the UTF-8 bytes outgrow the field's slot), which the model reports as
  `CheckFailed`, and a non-ASCII byte makes `decode` fail.
 */
module FactoryData {
  import opened Text
  import opened Wrappers

  newtype byte = x: int | 0 <= x < 256

  datatype FactoryRecord = FactoryRecord(modelId: string, hwVersion: string, serial: string, randomId: string)

  /** Byte slots of the block, as [start, end) offsets. */
  const SerialStart := 0
  const SerialEnd := 8
  const RandomIdStart := 8
  const RandomIdEnd := 14
  const ModelIdStart := 14
  const ModelIdEnd := 16
  const HwVersionStart := 16
  const HwVersionEnd := 19
  const BlockSize := 32

  // ---------------------------------------------------------------------
  // Format predicates
  // ---------------------------------------------------------------------

  /** A letter followed by a digit, e.g. "A1". */
  function VerifyModelId(modelId: string): (ok: bool)
    ensures ok ==> |modelId| == ModelIdEnd - ModelIdStart && AllAscii(modelId)
  {
    |modelId| == 2 && IsLetter(modelId[0]) && IsDigit(modelId[1])
  }

  /** Digit, '.', digit, e.g. "1.1". */
  function VerifyHwVersion(hwVersion: string): (ok: bool)
    ensures ok ==> |hwVersion| == HwVersionEnd - HwVersionStart && AllAscii(hwVersion)
  {
    |hwVersion| == 3 && IsDigit(hwVersion[0]) && hwVersion[1] == '.' && IsDigit(hwVersion[2])
  }

  /** Splitting on '-' gives exactly two pieces, of lengths 4 and 3 ("2301-001"). */
  function VerifySerial(serial: string): (ok: bool)
    ensures ok ==> |serial| == SerialEnd - SerialStart && serial[4] == '-' && Count(serial, '-') == 1
  {
    var parts := Split(serial, '-');
    JoinSplit(serial, '-');
    assert |parts| == 2 ==> Join(parts, '-') == parts[0] + ['-'] + parts[1];
    |parts| == 2 && |parts[0]| == 4 && |parts[1]| == 3
  }

  /** Six alphanumeric characters. */
  function VerifyRandomId(randomId: string): (ok: bool)
    ensures ok ==> |randomId| == RandomIdEnd - RandomIdStart && AllAscii(randomId)
  {
    |randomId| == 6 && PyIsAlnum(randomId)
  }

  function Verify(d: FactoryRecord): (ok: bool)
    ensures ok ==> LengthsOk(d)
  {
    VerifyModelId(d.modelId) && VerifyHwVersion(d.hwVersion)
    && VerifySerial(d.serial) && VerifyRandomId(d.randomId)
  }

  /**
    A serial passes `verify_serial` exactly when it is eight characters with
    its only '-' at index 4; the characters themselves are not checked.
   */
  lemma SerialShape(serial: string)
    ensures VerifySerial(serial) <==> |serial| == 8 && serial[4] == '-' && Count(serial, '-') == 1
  {
    var parts := Split(serial, '-');
    JoinSplit(serial, '-');
    if VerifySerial(serial) {
      assert serial == parts[0] + ['-'] + parts[1];
      assert serial[4] == '-';
      assert Count(serial, '-') == 1;
    }
    if |serial| == 8 && serial[4] == '-' && Count(serial, '-') == 1 {
      assert |parts| == 2;
      assert '-' !in serial[..4] by {
        CountSplitAt(serial, 4, '-');
      }
      SplitFirst(serial, '-', 4);
      assert serial == parts[0] + ['-'] + parts[1];
    }
  }

  lemma {:induction false} CountSplitAt(s: string, k: nat, c: char)
    requires k <= |s|
    ensures Count(s, c) == Count(s[..k], c) + Count(s[k..], c)
  {
    if k > 0 {
      assert s[..k][1..] == s[1..][..k - 1];
      assert s[k..] == s[1..][k - 1..];
      CountSplitAt(s[1..], k - 1, c);
    }
  }

  /**
    Every record that passes `verify()` has the field lengths that `encode`
    asserts, so `encode` can only fail on a verified record through non-ASCII
    serial text (the one field whose characters are not classified).
   */
  lemma VerifiedLengths(d: FactoryRecord)
    requires Verify(d)
    ensures LengthsOk(d)
    ensures AllAscii(d.modelId) && AllAscii(d.hwVersion) && AllAscii(d.randomId)
    ensures AllAscii(d.serial) ==> Encode(d).Success?
  {
    SerialShape(d.serial);
  }

  // ---------------------------------------------------------------------
  // The eFuse block
  // ---------------------------------------------------------------------

  function AsciiBytes(s: string): (b: seq<byte>)
    requires AllAscii(s)
    ensures |b| == |s| && forall i :: 0 <= i < |s| ==> b[i] as int == s[i] as int
  {
    seq(|s|, i requires 0 <= i < |s| => s[i] as int as byte)
  }

  /** `bytes.decode("utf-8")` on ASCII bytes; any byte >= 0x80 is refused. */
  function DecodeAscii(b: seq<byte>): (r: Option<string>)
    ensures r.Some? <==> forall i :: 0 <= i < |b| ==> b[i] < 128
    ensures r.Some? ==> AllAscii(r.value) && AsciiBytes(r.value) == b
  {
    if forall i :: 0 <= i < |b| ==> b[i] < 128
    then Some(seq(|b|, i requires 0 <= i < |b| => b[i] as char))
    else None
  }

  /** Python slicing `b[lo:hi]`, which clamps both bounds to the length. */
  function Slice(b: seq<byte>, lo: nat, hi: nat): (r: seq<byte>)
    requires lo <= hi
    ensures hi <= |b| ==> r == b[lo..hi]
  {
    var h := if hi <= |b| then hi else |b|;
    var l := if lo <= h then lo else h;
    b[l..h]
  }

  /** `b[lo:lo+|x|] = x` on a bytearray long enough to hold it. */
  function Overwrite(b: seq<byte>, lo: nat, x: seq<byte>): (r: seq<byte>)
    requires lo + |x| <= |b|
    ensures |r| == |b| && r[lo..lo + |x|] == x
    ensures forall i :: 0 <= i < |b| && !(lo <= i < lo + |x|) ==> r[i] == b[i]
  {
    b[..lo] + x + b[lo + |x|..]
  }

  datatype DecodeError = NotUtf8

  /** The bytes that `decode` reads are all ASCII. */
  predicate AsciiHead(b: seq<byte>) {
    forall i :: 0 <= i < |b| && i < HwVersionEnd ==> b[i] < 128
  }

  /** One field of the block, `b[lo:hi].decode("utf-8")`, on an ASCII head. */
  function FieldText(b: seq<byte>, lo: nat, hi: nat): (s: string)
    requires lo <= hi <= HwVersionEnd && AsciiHead(b)
    ensures AllAscii(s) && AsciiBytes(s) == Slice(b, lo, hi)
  {
    var x := Slice(b, lo, hi);
    assert forall k :: 0 <= k < |x| ==> x[k] < 128 by {
      var h := if hi <= |b| then hi else |b|;
      var l := if lo <= h then lo else h;
      assert forall k :: 0 <= k < |x| ==> x[k] == b[l + k];
    }
    DecodeAscii(x).value
  }

  function Decode(b: seq<byte>): (r: Result<FactoryRecord, DecodeError>)
    ensures r.Success? <==> AsciiHead(b)
    ensures r.Success? ==> AsciiFields(r.value)
    ensures r.Success? && |b| >= HwVersionEnd ==>
      AsciiBytes(r.value.serial) == b[SerialStart..SerialEnd]
      && AsciiBytes(r.value.randomId) == b[RandomIdStart..RandomIdEnd]
      && AsciiBytes(r.value.modelId) == b[ModelIdStart..ModelIdEnd]
      && AsciiBytes(r.value.hwVersion) == b[HwVersionStart..HwVersionEnd]
  {
    if !AsciiHead(b) then Failure(NotUtf8)
    else
      var serial := FieldText(b, SerialStart, SerialEnd);
      var randomId := FieldText(b, RandomIdStart, RandomIdEnd);
      var modelId := FieldText(b, ModelIdStart, ModelIdEnd);
      var hwVersion := FieldText(b, HwVersionStart, HwVersionEnd);
      Success(FactoryRecord(modelId, hwVersion, serial, randomId))
  }

  predicate LengthsOk(d: FactoryRecord) {
    |d.serial| == SerialEnd - SerialStart && |d.randomId| == RandomIdEnd - RandomIdStart
    && |d.modelId| == ModelIdEnd - ModelIdStart && |d.hwVersion| == HwVersionEnd - HwVersionStart
  }

  predicate AsciiFields(d: FactoryRecord) {
    AllAscii(d.serial) && AllAscii(d.randomId) && AllAscii(d.modelId) && AllAscii(d.hwVersion)
  }

  /** The assertion failures of `encode`, in the order the source checks them. */
  datatype EncodeError = SerialLength | RandomIdLength | ModelIdLength | HwVersionLength | CheckFailed

  /**
    Pack a record into the 32-byte block: length assertions first, then the
    four fields written at their offsets into a zeroed block.
   */
  function Encode(d: FactoryRecord): (r: Result<seq<byte>, EncodeError>)
    ensures r.Success? <==> LengthsOk(d) && AsciiFields(d)
    ensures |d.serial| != 8 ==> r == Failure(SerialLength)
    ensures |d.serial| == 8 && |d.randomId| != 6 ==> r == Failure(RandomIdLength)
    ensures |d.serial| == 8 && |d.randomId| == 6 && |d.modelId| != 2 ==> r == Failure(ModelIdLength)
    ensures |d.serial| == 8 && |d.randomId| == 6 && |d.modelId| == 2 && |d.hwVersion| != 3 ==>
      r == Failure(HwVersionLength)
    ensures r.Success? ==>
      |r.value| == BlockSize
      && r.value[SerialStart..SerialEnd] == AsciiBytes(d.serial)
      && r.value[RandomIdStart..RandomIdEnd] == AsciiBytes(d.randomId)
      && r.value[ModelIdStart..ModelIdEnd] == AsciiBytes(d.modelId)
      && r.value[HwVersionStart..HwVersionEnd] == AsciiBytes(d.hwVersion)
      && forall i :: HwVersionEnd <= i < BlockSize ==> r.value[i] == 0
  {
    if |d.serial| != 8 then Failure(SerialLength)
    else if |d.randomId| != 6 then Failure(RandomIdLength)
    else if |d.modelId| != 2 then Failure(ModelIdLength)
    else if |d.hwVersion| != 3 then Failure(HwVersionLength)
    else if !AsciiFields(d) then Failure(CheckFailed)
    else
      var b0 := seq(BlockSize, _ => 0 as byte);
      var b1 := Overwrite(b0, SerialStart, AsciiBytes(d.serial));
      var b2 := Overwrite(b1, RandomIdStart, AsciiBytes(d.randomId));
      var b3 := Overwrite(b2, ModelIdStart, AsciiBytes(d.modelId));
      var b4 := Overwrite(b3, HwVersionStart, AsciiBytes(d.hwVersion));
      assert b4[SerialStart..SerialEnd] == b1[SerialStart..SerialEnd];
      assert b4[RandomIdStart..RandomIdEnd] == b2[RandomIdStart..RandomIdEnd];
      assert b4[ModelIdStart..ModelIdEnd] == b3[ModelIdStart..ModelIdEnd];
      Success(b4)
  }

  /** `decode(encode(d)) == d` for every record `encode` accepts. */
  lemma DecodeEncode(d: FactoryRecord)
    requires Encode(d).Success?
    ensures Decode(Encode(d).value) == Success(d)
  {
    var b := Encode(d).value;
    SlotAscii(b, SerialStart, SerialEnd, d.serial);
    SlotAscii(b, RandomIdStart, RandomIdEnd, d.randomId);
    SlotAscii(b, ModelIdStart, ModelIdEnd, d.modelId);
    SlotAscii(b, HwVersionStart, HwVersionEnd, d.hwVersion);
    assert AsciiHead(b);
    var r := Decode(b).value;
    AsciiBytesInjective(r.serial, d.serial);
    AsciiBytesInjective(r.randomId, d.randomId);
    AsciiBytesInjective(r.modelId, d.modelId);
    AsciiBytesInjective(r.hwVersion, d.hwVersion);
  }

  lemma SlotAscii(b: seq<byte>, lo: nat, hi: nat, s: string)
    requires lo <= hi <= |b| && AllAscii(s) && b[lo..hi] == AsciiBytes(s)
    ensures forall i :: lo <= i < hi ==> b[i] < 128
  {
    forall i | lo <= i < hi ensures b[i] < 128 {
      assert b[i] == b[lo..hi][i - lo];
    }
  }

  lemma AsciiBytesInjective(s: string, t: string)
    requires AllAscii(s) && AllAscii(t) && AsciiBytes(s) == AsciiBytes(t)
    ensures s == t
  {
    assert forall i :: 0 <= i < |s| ==> s[i] as int == AsciiBytes(s)[i] as int;
  }

  /** `decode` reads bytes 0..18 only: the padding of the block is never looked at. */
  lemma DecodeIgnoresPadding(b: seq<byte>, b': seq<byte>)
    requires |b| >= HwVersionEnd && |b'| >= HwVersionEnd
    requires b[..HwVersionEnd] == b'[..HwVersionEnd]
    ensures Decode(b) == Decode(b')
  {
    assert forall i :: 0 <= i < HwVersionEnd ==> b[i] == b[..HwVersionEnd][i] && b'[i] == b'[..HwVersionEnd][i];
    assert b[SerialStart..SerialEnd] == b'[SerialStart..SerialEnd];
    assert b[RandomIdStart..RandomIdEnd] == b'[RandomIdStart..RandomIdEnd];
    assert b[ModelIdStart..ModelIdEnd] == b'[ModelIdStart..ModelIdEnd];
    assert b[HwVersionStart..HwVersionEnd] == b'[HwVersionStart..HwVersionEnd];
  }
}
