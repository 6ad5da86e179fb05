/**
  The firmware's view of eFuse BLOCK3 (src/esp_efuse_custom_table.c): four
  user-data fields given as bit offset and bit width inside the 256-bit block.
  The Python tools write the same block byte by byte; this module states that
  both descriptions pick out the same bytes.
 */
module EfuseTable {
  import opened FactoryData
  import opened Text

  datatype FieldDesc = FieldDesc(bitStart: nat, bitCount: nat) {
    predicate ByteAligned() {
      bitStart % 8 == 0 && bitCount % 8 == 0
    }

    function ByteStart(): nat {
      bitStart / 8
    }

    function ByteEnd(): nat {
      (bitStart + bitCount) / 8
    }
  }

  const UserDataSerialNumber := FieldDesc(0, 64)
  const UserDataRandomId := FieldDesc(64, 48)
  const UserDataModelId := FieldDesc(112, 16)
  const UserDataHwVersion := FieldDesc(128, 24)
  const BlockBits := 256

  /** What the firmware reads for a byte-aligned field of a block. */
  function ReadField(block: seq<byte>, f: FieldDesc): (r: seq<byte>)
    requires f.ByteAligned() && f.ByteEnd() <= |block|
    ensures |r| == f.bitCount / 8
  {
    block[f.ByteStart()..f.ByteEnd()]
  }

  /**
    Every block the Python encoder produces is read back field by field by
    the firmware's BLOCK3 descriptors as the record's own text, the four
    fields do not overlap, and all of them lie inside the 32-byte block.
   */
  lemma EncodedBlockMatchesTable(d: FactoryRecord)
    requires Encode(d).Success?
    ensures |Encode(d).value| * 8 == BlockBits
    ensures ReadField(Encode(d).value, UserDataSerialNumber) == AsciiBytes(d.serial)
    ensures ReadField(Encode(d).value, UserDataRandomId) == AsciiBytes(d.randomId)
    ensures ReadField(Encode(d).value, UserDataModelId) == AsciiBytes(d.modelId)
    ensures ReadField(Encode(d).value, UserDataHwVersion) == AsciiBytes(d.hwVersion)
    ensures UserDataSerialNumber.ByteEnd() <= UserDataRandomId.ByteStart()
      && UserDataRandomId.ByteEnd() <= UserDataModelId.ByteStart()
      && UserDataModelId.ByteEnd() <= UserDataHwVersion.ByteStart()
  {
  }
}
