// Decoder for the Heart Rate Measurement characteristic (0x2A37) of the
// Bluetooth Heart Rate Service, version 1.0: the Flags byte (section 3.1.1.1)
// and the Heart Rate Measurement Value field (section 3.1.1.2) that follows it.

module HeartRateParser {
  import opened Radio

  /** Bit 0 of the Flags byte: clear for a UINT8 value, set for a UINT16 value. */
  const ValueFormatBit: Byte := 0x01

  /**
   * The payloads parse can index without trapping: the flags byte and the value
   * field, one byte wide or two as the format bit says.
   */
  predicate Decodable(data: seq<Byte>)
  {
    |data| >= 2 && (UsesUInt16(data) ==> |data| >= 3)
  }

  /** The format bit of the Flags byte is set. */
  predicate UsesUInt16(data: seq<Byte>)
    requires |data| >= 1
  {
    data[0] & ValueFormatBit != 0
  }

  /** The beats per minute carried by a measurement payload. */
  function Parse(data: seq<Byte>): (bpm: nat)
    requires Decodable(data)
    ensures data[0] & 0x01 == 0 ==> bpm == data[1] as nat && bpm < 0x100
    ensures data[0] & 0x01 != 0 ==> bpm == data[1] as nat + 0x100 * data[2] as nat && bpm < 0x1_0000
  {
    var flag := data[0];
    if flag & ValueFormatBit == 0 then
      data[1] as nat
    else
      ((data[1] as bv16) | ((data[2] as bv16) << 8)) as nat
  }

  /**
   * Only the format bit and the value field matter: two payloads that agree on
   * those decode alike, whatever their other flag bits and trailing bytes.
   */
  lemma ParseReadsOnlyFormatAndValue(a: seq<Byte>, b: seq<Byte>)
    requires Decodable(a) && Decodable(b)
    requires a[0] & ValueFormatBit == b[0] & ValueFormatBit
    requires a[1] == b[1]
    requires a[0] & ValueFormatBit != 0 ==> a[2] == b[2]
    ensures Parse(a) == Parse(b)
  {
  }

  /** Bytes after the value field never change the result. */
  lemma ParseIgnoresTrailingBytes(data: seq<Byte>, rest: seq<Byte>)
    requires Decodable(data)
    ensures Decodable(data + rest) && Parse(data + rest) == Parse(data)
  {
  }

  /**
   * The canonical payload of format wide carrying the 16-bit value v: the UINT8
   * format [0x00, v] when not wide (v below 256), the UINT16 format
   * [0x01, v % 256, v / 256] when wide.
   */
  function Encode(v: bv16, wide: bool): (data: seq<Byte>)
    requires !wide ==> v < 0x100
    ensures Decodable(data) && Parse(data) == v as nat
    ensures |data| == if wide then 3 else 2
  {
    if wide then
      var data := [0x01, (v % 0x100) as Byte, (v / 0x100) as Byte];
      assert data[0] & ValueFormatBit != 0;
      assert (data[1] as bv16) | ((data[2] as bv16) << 8) == v;
      data
    else
      var data := [0x00, v as Byte];
      assert data[0] & ValueFormatBit == 0;
      assert data[1] as bv16 == v;
      data
  }

  /**
   * Encode inverts Parse: a payload with flags 0x00 or 0x01 and no trailing
   * bytes is the encoding of the value it decodes to.
   */
  lemma EncodeParse(data: seq<Byte>)
    requires Decodable(data)
    requires data[0] == 0x00 || data[0] == 0x01
    requires |data| == if data[0] == 0x01 then 3 else 2
    ensures exists v: bv16 ::
      (UsesUInt16(data) || v < 0x100) && Encode(v, UsesUInt16(data)) == data && Parse(data) == v as nat
  {
    var v: bv16 := if data[0] == 0x01 then (data[1] as bv16) | ((data[2] as bv16) << 8) else data[1] as bv16;
    assert UsesUInt16(data) == (data[0] == 0x01);
    assert data[0] == 0x00 ==> v < 0x100;
    assert Encode(v, UsesUInt16(data)) == data;
  }

  /** The parser's test vectors. */
  lemma TestVectors()
    ensures Parse([0x00, 0x00]) == 0
    ensures Parse([0x00, 0x05]) == 5
    ensures Parse([0x00, 0xFF]) == 255
    ensures Parse([0x01, 0x00, 0x01]) == 256
    ensures Parse([0x01, 0xFF, 0x03]) == 1023
  {
  }
}
