/**
 * Bytes and the fixed-width encodings shared by NanoBufReader and NanoBufWriter:
 * unsigned little-endian integers of any width, the signed (two's complement)
 * views of widths 1 and 4, the in-place patch of a byte range, and the
 * offset of a record's field-size slot.
 */
module Wire {

  type Byte = b: int | 0 <= b < 0x100
  type Uint32 = n: int | 0 <= n < 0x1_0000_0000
  type Int32 = n: int | -0x8000_0000 <= n < 0x8000_0000
  type Int8 = n: int | -0x80 <= n < 0x80

  /** 256 to the power `width`: the number of values `width` bytes can hold. */
  function Pow256(width: nat): (p: nat)
    ensures p >= 1
  {
    if width == 0 then 1 else 256 * Pow256(width - 1)
  }

  lemma Pow256Widths()
    ensures Pow256(1) == 0x100
    ensures Pow256(4) == 0x1_0000_0000
  {
    assert Pow256(2) == 0x1_0000;
    assert Pow256(3) == 0x100_0000;
  }

  // ---------------------------------------------------------------------------
  // Unsigned little-endian integers

  /** The unsigned value of `b`, least significant byte first. */
  function DecodeLE(b: seq<Byte>): (n: nat)
    ensures n < Pow256(|b|)
  {
    if b == [] then 0 else b[0] + 256 * DecodeLE(b[1..])
  }

  /** The `width` bytes of `n`, least significant byte first. */
  function EncodeLE(n: nat, width: nat): (b: seq<Byte>)
    requires n < Pow256(width)
    ensures |b| == width
  {
    if width == 0 then [] else [n % 256] + EncodeLE(n / 256, width - 1)
  }

  lemma {:induction false} DecodeEncodeLE(n: nat, width: nat)
    requires n < Pow256(width)
    ensures DecodeLE(EncodeLE(n, width)) == n
  {
    if width > 0 {
      DecodeEncodeLE(n / 256, width - 1);
      assert EncodeLE(n, width)[1..] == EncodeLE(n / 256, width - 1);
    }
  }

  lemma {:induction false} EncodeDecodeLE(b: seq<Byte>)
    ensures EncodeLE(DecodeLE(b), |b|) == b
  {
    if b != [] {
      EncodeDecodeLE(b[1..]);
      var n := DecodeLE(b);
      assert n % 256 == b[0] && n / 256 == DecodeLE(b[1..]);
      assert b == [b[0]] + b[1..];
    }
  }

  // ---------------------------------------------------------------------------
  // The widths the codec uses

  function EncodeUint8(n: Byte): (b: seq<Byte>)
    ensures b == [n]
  {
    Pow256Widths();
    EncodeLE(n, 1)
  }

  function EncodeUint32(n: Uint32): (b: seq<Byte>)
    ensures |b| == 4
  {
    Pow256Widths();
    EncodeLE(n, 4)
  }

  function DecodeUint32(b: seq<Byte>): (n: Uint32)
    requires |b| == 4
    ensures EncodeUint32(n) == b
  {
    Pow256Widths();
    EncodeDecodeLE(b);
    DecodeLE(b)
  }

  /** Two's complement: the unsigned 32-bit pattern that stores `v`. */
  function Int32Bits(v: Int32): (u: Uint32)
    ensures v == (if u < 0x8000_0000 then u else u - 0x1_0000_0000)
  {
    if v < 0 then v + 0x1_0000_0000 else v
  }

  function EncodeInt32(v: Int32): (b: seq<Byte>)
    ensures |b| == 4
  {
    EncodeUint32(Int32Bits(v))
  }

  function DecodeInt32(b: seq<Byte>): (v: Int32)
    requires |b| == 4
    ensures EncodeInt32(v) == b
  {
    var u: int := DecodeUint32(b);
    if u < 0x8000_0000 then u else u - 0x1_0000_0000
  }

  function Int8Bits(v: Int8): (u: Byte)
    ensures v == (if u < 0x80 then u else u - 0x100)
  {
    if v < 0 then v + 0x100 else v
  }

  function EncodeInt8(v: Int8): (b: seq<Byte>)
    ensures |b| == 1
  {
    [Int8Bits(v)]
  }

  function DecodeInt8(b: seq<Byte>): (v: Int8)
    requires |b| == 1
    ensures EncodeInt8(v) == b
  {
    var u: int := b[0];
    if u < 0x80 then u else u - 0x100
  }

  /** Each 32-bit value has one encoding and reads back as itself. */
  lemma Uint32RoundTrip(n: Uint32)
    ensures DecodeUint32(EncodeUint32(n)) == n
  {
    Pow256Widths();
    DecodeEncodeLE(n, 4);
  }

  /** The four bytes `writeUint32LE` stores: least significant first. */
  lemma EncodeUint32Bytes(n: Uint32)
    ensures EncodeUint32(n) == [n % 0x100, (n / 0x100) % 0x100, (n / 0x1_0000) % 0x100, n / 0x100_0000]
  {
    Pow256Widths();
    var n1, n2, n3 := n / 256, (n / 256) / 256, ((n / 256) / 256) / 256;
    assert EncodeLE(n3, 1) == [n3];
    assert EncodeLE(n2, 2) == [n2 % 256, n3];
    assert EncodeLE(n1, 3) == [n1 % 256, n2 % 256, n3];
    assert EncodeUint32(n) == [n % 256, n1 % 256, n2 % 256, n3];
    DividedTwice(n);
  }

  /** Dividing by 256 two and three times is dividing by 2^16 and 2^24. */
  lemma DividedTwice(n: nat)
    ensures (n / 256) / 256 == n / 0x1_0000
    ensures ((n / 256) / 256) / 256 == n / 0x100_0000
  {
    var n1, n2, n3 := n / 256, (n / 256) / 256, ((n / 256) / 256) / 256;
    assert n == 256 * n1 + n % 256;
    assert n1 == 256 * n2 + n1 % 256;
    assert n2 == 256 * n3 + n2 % 256;
    assert n == 0x1_0000 * n2 + 256 * (n1 % 256) + n % 256;
    assert n == 0x100_0000 * n3 + 0x1_0000 * (n2 % 256) + 256 * (n1 % 256) + n % 256;
  }

  /** The top bit of an int32's last stored byte is its sign. */
  lemma Int32SignByte(v: Int32)
    ensures EncodeInt32(v)[3] >= 0x80 <==> v < 0
  {
    EncodeUint32Bytes(Int32Bits(v));
  }

  lemma Int32RoundTrip(v: Int32)
    ensures DecodeInt32(EncodeInt32(v)) == v
  {
    Uint32RoundTrip(Int32Bits(v));
  }

  lemma Int8RoundTrip(v: Int8)
    ensures DecodeInt8(EncodeInt8(v)) == v
  {
  }

  // ---------------------------------------------------------------------------
  // Patching and record layout

  /** `s` with the bytes from `offset` on replaced by `w`: a random-access write. */
  function Patch(s: seq<Byte>, offset: nat, w: seq<Byte>): (r: seq<Byte>)
    requires offset + |w| <= |s|
    ensures |r| == |s|
    ensures r[offset..offset + |w|] == w
    ensures forall i :: 0 <= i < |s| && !(offset <= i < offset + |w|) ==> r[i] == s[i]
  {
    s[..offset] + w + s[offset + |w|..]
  }

  /** Byte offset of the field-size slot of field `fieldNumber`; slot -1 is the type id. */
  function FieldSizeOffset(fieldNumber: int): int
  {
    4 * (fieldNumber + 1)
  }

  /** Distinct field numbers have disjoint 4-byte slots, and no field's slot overlaps the type id. */
  lemma FieldSlotsDisjoint(i: int, j: int)
    requires i != j
    ensures FieldSizeOffset(i) + 4 <= FieldSizeOffset(j) || FieldSizeOffset(j) + 4 <= FieldSizeOffset(i)
    ensures i >= 0 ==> 4 <= FieldSizeOffset(i)
  {
  }
}
