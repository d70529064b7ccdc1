/**
 Little-endian integers of one, two and four bytes (scratch/mso-dumper/src/globals.py).
 */
module Bytes {

  type byte = b: int | 0 <= b < 256

  type int32 = v: int | -0x8000_0000 <= v < 0x8000_0000

  /** A value, or the exception a reader of binary files raises. */
  datatype Read<+T> =
    | Ok(value: T)
    | ByteConvertError
    | NoRootStorage
    | AttributeError

  function Unsigned(bytes: seq<byte>): (v: nat)
  {
    if bytes == [] then 0 else bytes[0] + 256 * Unsigned(bytes[1..])
  }

  function GetUnsignedInt(bytes: seq<byte>): Read<nat> {
    if |bytes| == 0 then Ok(0)
    else if |bytes| == 1 || |bytes| == 2 || |bytes| == 4 then Ok(Unsigned(bytes))
    else ByteConvertError
  }

  function GetSignedInt(bytes: seq<byte>): Read<int> {
    if |bytes| == 0 then Ok(0)
    else if |bytes| == 1 then Ok(Signed(bytes, 0x100))
    else if |bytes| == 2 then Ok(Signed(bytes, 0x1_0000))
    else if |bytes| == 4 then Ok(Signed(bytes, 0x1_0000_0000))
    else ByteConvertError
  }

  /** Two's complement over the given modulus. */
  function Signed(bytes: seq<byte>, modulus: nat): int {
    var u := Unsigned(bytes);
    if 2 * u >= modulus then u - modulus else u
  }

  // ------------------------------------------------------------------ the encoding

  /** The n bytes of v, least significant first. */
  function Encode(v: nat, n: nat): (bytes: seq<byte>)
    ensures |bytes| == n
  {
    if n == 0 then [] else [v % 256] + Encode(v / 256, n - 1)
  }

  function Power256(n: nat): nat { if n == 0 then 1 else 256 * Power256(n - 1) }

  lemma {:induction false} DecodeEncode(v: nat, n: nat)
    requires v < Power256(n)
    ensures Unsigned(Encode(v, n)) == v
  {
    if n > 0 { DecodeEncode(v / 256, n - 1); }
  }

  lemma Digit(b: byte, u: nat, p: nat)
    requires u < p
    ensures (b + 256 * u) % 256 == b && (b + 256 * u) / 256 == u && b + 256 * u < 256 * p
  {}

  lemma {:induction false} EncodeDecode(bytes: seq<byte>)
    ensures Unsigned(bytes) < Power256(|bytes|) && Encode(Unsigned(bytes), |bytes|) == bytes
  {
    if bytes != [] {
      EncodeDecode(bytes[1..]);
      Digit(bytes[0], Unsigned(bytes[1..]), Power256(|bytes| - 1));
      assert bytes == [bytes[0]] + bytes[1..];
    }
  }

  function Int32Bytes(v: int32): seq<byte> {
    Encode(if v < 0 then v + 0x1_0000_0000 else v, 4)
  }

  lemma Powers()
    ensures Power256(1) == 0x100 && Power256(2) == 0x1_0000 && Power256(4) == 0x1_0000_0000
  {
    assert Power256(3) == 0x100_0000;
  }

  /** The least significant byte comes first. */
  lemma LittleEndian(a: byte, b: byte, c: byte, d: byte)
    ensures Unsigned([a]) == a && Unsigned([a, b]) == a + 0x100 * b
    ensures Unsigned([a, b, c, d]) == a + 0x100 * b + 0x1_0000 * c + 0x100_0000 * d
  {
    assert [a][1..] == [] && [a, b][1..] == [b] && [b][1..] == [];
    assert [d][1..] == [] && Unsigned([d]) == d;
    assert [c, d][1..] == [d] && Unsigned([c, d]) == c + 256 * d;
    assert [b, c, d][1..] == [c, d] && Unsigned([b, c, d]) == b + 256 * (c + 256 * d);
    assert [a, b, c, d][1..] == [b, c, d];
  }

  /** Two's complement: the sign is the highest bit of one, two or four bytes. */
  lemma SignedIs(bytes: seq<byte>)
    requires |bytes| in {1, 2, 4}
    ensures var v := GetSignedInt(bytes); var high := bytes[|bytes| - 1] >= 128;
      && v.Ok? && (high <==> v.value < 0)
      && v.value == Unsigned(bytes) - if high then Power256(|bytes|) else 0
  {
    Powers();
    HighBit(bytes);
  }

  lemma HighStep(b: byte, u: nat, half: nat)
    requires u < 2 * half
    ensures b + 256 * u < 256 * (2 * half)
    ensures u >= half <==> 2 * (b + 256 * u) >= 256 * (2 * half)
  {}

  lemma {:induction false} HighBit(bytes: seq<byte>)
    requires bytes != []
    ensures Unsigned(bytes) < Power256(|bytes|)
    ensures bytes[|bytes| - 1] >= 128 <==> 2 * Unsigned(bytes) >= Power256(|bytes|)
    decreases |bytes|
  {
    if |bytes| > 1 {
      var n := |bytes| - 1;
      HighBit(bytes[1..]);
      HighStep(bytes[0], Unsigned(bytes[1..]), 128 * Power256(n - 1));
      assert Power256(n) == 256 * Power256(n - 1);
    } else {
      assert bytes[1..] == [];
    }
  }

  /** Every 32-bit integer is read back from its bytes. */
  lemma SignedRoundTrip(v: int32)
    ensures GetSignedInt(Int32Bytes(v)) == Ok(v)
  {
    Powers();
    DecodeEncode(if v < 0 then v + 0x1_0000_0000 else v, 4);
  }

  /** Unsigned values of one, two and four bytes are read back, signed as well below half range. */
  lemma UnsignedRoundTrip(v: nat, n: nat)
    requires (n == 1 || n == 2 || n == 4) && v < Power256(n)
    ensures GetUnsignedInt(Encode(v, n)) == Ok(v)
    ensures 2 * v < Power256(n) ==> GetSignedInt(Encode(v, n)) == Ok(v)
  {
    Powers();
    DecodeEncode(v, n);
  }
}
