/**
 * bytesToCpmValue: the device's reply read as a big-endian unsigned integer.
 * A 4-byte reply is a 32-bit value, a 2-byte reply a 16-bit value widened to
 * 32 bits; any other length yields 0 together with an error.
 */
module CpmDecoder {
  import opened Wrappers

  type byte = x: int | 0 <= x < 0x100
  type uint16 = x: int | 0 <= x < 0x1_0000
  type uint32 = x: int | 0 <= x < 0x1_0000_0000

  const InvalidByteLength: string := "invalid byte length"

  /** Go's (uint32, error) pair: the error is None on success. */
  datatype Decoded = Decoded(value: uint32, err: Option<string>)

  function Pow256(k: nat): (p: nat)
    ensures p >= 1
  {
    if k == 0 then 1 else 256 * Pow256(k - 1)
  }

  /** Reference reading of a byte string as a base-256 number, most significant byte first. */
  function BigEndianValue(s: seq<byte>): (v: nat)
    ensures v < Pow256(|s|)
  {
    if s == [] then 0 else BigEndianValue(s[..|s| - 1]) * 256 + s[|s| - 1]
  }

  /** binary.BigEndian.Uint32 */
  function Uint32(b: seq<byte>): (v: uint32)
    requires |b| == 4
    ensures v == BigEndianValue(b)
  {
    assert b[..3][..2][..1] == b[..1] && b[..3][..2] == b[..2] && b[..2][..1] == b[..1];
    assert b[..1][..0] == [];
    assert BigEndianValue(b[..1]) == b[0];
    assert BigEndianValue(b[..2]) == b[0] as int * 256 + b[1];
    assert BigEndianValue(b[..3]) == (b[0] as int * 256 + b[1]) * 256 + b[2];
    assert b[..4][..3] == b[..3] && b[..4] == b;
    b[0] as int * 0x100_0000 + b[1] as int * 0x1_0000 + b[2] as int * 0x100 + b[3]
  }

  /** binary.BigEndian.Uint16 */
  function Uint16(b: seq<byte>): (v: uint16)
    requires |b| == 2
    ensures v == BigEndianValue(b)
  {
    assert b[..1][..0] == [];
    b[0] as int * 0x100 + b[1]
  }

  /** binary.BigEndian.PutUint32: the four bytes of v, most significant first. */
  function PutUint32(v: uint32): (b: seq<byte>)
    ensures |b| == 4
  {
    [v / 0x100_0000, v / 0x1_0000 % 0x100, v / 0x100 % 0x100, v % 0x100]
  }

  /** binary.BigEndian.PutUint16 */
  function PutUint16(v: uint16): (b: seq<byte>)
    ensures |b| == 2
  {
    [v / 0x100, v % 0x100]
  }

  function BytesToCpmValue(buff: seq<byte>): (r: Decoded)
    ensures r.err == None <==> |buff| == 2 || |buff| == 4
    ensures r.err != None ==> r == Decoded(0, Some(InvalidByteLength))
    ensures |buff| == 2 ==> r.value < 0x1_0000
  {
    if |buff| == 4 then Decoded(Uint32(buff), None)
    else if |buff| == 2 then Decoded(Uint16(buff), None)
    else Decoded(0, Some(InvalidByteLength))
  }

  /** A 4-byte reply decodes, without error, to b0*2^24 + b1*2^16 + b2*2^8 + b3. */
  lemma DecodeFourBytes(b0: byte, b1: byte, b2: byte, b3: byte)
    ensures BytesToCpmValue([b0, b1, b2, b3])
         == Decoded(b0 as int * 0x100_0000 + b1 as int * 0x1_0000 + b2 as int * 0x100 + b3, None)
  {
  }

  /** A 2-byte reply decodes, without error, to b0*256 + b1, which is below 65536. */
  lemma DecodeTwoBytes(b0: byte, b1: byte)
    ensures BytesToCpmValue([b0, b1]) == Decoded(b0 as int * 0x100 + b1, None)
    ensures BytesToCpmValue([b0, b1]).value < 0x1_0000
  {
  }

  /** Any other length: value 0 and the "invalid byte length" error. */
  lemma DecodeOtherLength(buff: seq<byte>)
    requires |buff| != 2 && |buff| != 4
    ensures BytesToCpmValue(buff) == Decoded(0, Some("invalid byte length"))
  {
  }

  /** For both accepted widths the decoder agrees with the big-endian reference reading. */
  lemma DecodeIsBigEndian(buff: seq<byte>)
    requires |buff| == 2 || |buff| == 4
    ensures BytesToCpmValue(buff).value == BigEndianValue(buff)
  {
  }

  /** Decoding the encoding of a 32-bit value gives the value back. */
  lemma DecodePutUint32(v: uint32)
    ensures BytesToCpmValue(PutUint32(v)) == Decoded(v, None)
  {
    DivTwice(v);
    var q1, q2, q3 := v / 0x100, v / 0x1_0000, v / 0x100_0000;
    assert v == q1 * 0x100 + v % 0x100;
    assert q1 == q2 * 0x100 + q1 % 0x100;
    assert q2 == q3 * 0x100 + q2 % 0x100;
    assert Uint32(PutUint32(v)) == q3 * 0x100_0000 + q2 % 0x100 * 0x1_0000 + q1 % 0x100 * 0x100 + v % 0x100;
  }

  /** Encoding the value of a 4-byte reply gives the reply back. */
  lemma PutUint32OfDecode(buff: seq<byte>)
    requires |buff| == 4
    ensures PutUint32(BytesToCpmValue(buff).value) == buff
  {
    var hi := buff[0] as int * 0x100 + buff[1];
    var mid := hi * 0x100 + buff[2];
    var v := BytesToCpmValue(buff).value;
    assert v == mid * 0x100 + buff[3];
    DivModByte(mid, buff[3]);
    DivModByte(hi, buff[2]);
    DivModByte(buff[0], buff[1]);
    assert v / 0x100 == mid;
    DivTwice(v);
  }

  lemma DivTwice(n: nat)
    ensures n / 0x1_0000 == n / 0x100 / 0x100
    ensures n / 0x100_0000 == n / 0x1_0000 / 0x100
  {
  }

  lemma DivModByte(a: nat, c: byte)
    ensures (a * 0x100 + c) / 0x100 == a && (a * 0x100 + c) % 0x100 == c
  {
  }

  /** Decoding the encoding of a 16-bit value gives the value back. */
  lemma DecodePutUint16(v: uint16)
    ensures BytesToCpmValue(PutUint16(v)) == Decoded(v, None)
  {
  }

  /** Encoding the value of a 2-byte reply gives the reply back. */
  lemma PutUint16OfDecode(buff: seq<byte>)
    requires |buff| == 2
    ensures PutUint16(BytesToCpmValue(buff).value) == buff
  {
  }

  lemma DecodeExamples()
    ensures BytesToCpmValue([0xDE, 0xAD, 0xBE, 0xEF]) == Decoded(0xDEADBEEF, None)
    ensures BytesToCpmValue([0x01, 0x02]) == Decoded(258, None)
  {
  }
}
