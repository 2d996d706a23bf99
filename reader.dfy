/**
 * NanoBufReader: random-access decoding of fixed-width values at absolute
 * byte offsets. The reader copies its input once (`Buffer.from(data)`) and
 * never changes it, so it is a value: a datatype over the copied bytes.
 *
 * Every numeric read of Node's Buffer checks its range and throws a
 * RangeError when `offset + width` passes the end or `offset` is negative;
 * here that error is `None`. `readString` never throws: Node's `toString`
 * clamps its range to the buffer.
 *
 * `readUint8` and `readUint32` are called by the RPC layer but not defined
 * in src/reader.ts; they are added by analogy with `readInt8`/`readInt32`:
 * unsigned, little-endian, widths 1 and 4.
 */
module Reader {
  import opened Wrappers
  import opened Wire
  import Utf8

  datatype NanoBufReader = NanoBufReader(buffer: seq<Byte>) {

    predicate InBounds(offset: int, width: nat)
    {
      0 <= offset && offset + width <= |buffer|
    }

    /** The `width` bytes at `offset`, or None where Node throws a RangeError. */
    function Slot(offset: int, width: nat): (r: Option<seq<Byte>>)
      ensures r.Some? <==> InBounds(offset, width)
      ensures r.Some? ==> |r.value| == width
    {
      if InBounds(offset, width) then Some(buffer[offset..offset + width]) else None
    }

    function ReadTypeId(): (r: Option<Int32>)
      ensures r.Some? <==> |buffer| >= 4
      ensures r.Some? ==> EncodeInt32(r.value) == buffer[..4]
    {
      ReadInt32(0)
    }

    function ReadFieldSize(fieldNumber: int): (r: Option<Int32>)
      ensures r.Some? <==> InBounds(FieldSizeOffset(fieldNumber), 4)
      ensures r.Some? ==> var o := FieldSizeOffset(fieldNumber); EncodeInt32(r.value) == buffer[o..o + 4]
    {
      ReadInt32(FieldSizeOffset(fieldNumber))
    }

    /** Exact match: only the byte 1 reads as true (`readInt8(offset) === 1`). */
    function ReadBoolean(offset: int): (r: Option<bool>)
      ensures r.Some? <==> InBounds(offset, 1)
      ensures r.Some? ==> (r.value <==> buffer[offset] == 1)
    {
      match ReadInt8(offset)
      case None => None
      case Some(v) => Some(v == 1)
    }

    function ReadInt8(offset: int): (r: Option<Int8>)
      ensures r.Some? <==> InBounds(offset, 1)
      ensures r.Some? ==> EncodeInt8(r.value) == [buffer[offset]]
    {
      match Slot(offset, 1)
      case None => None
      case Some(b) => Some(DecodeInt8(b))
    }

    function ReadUint8(offset: int): (r: Option<Byte>)
      ensures r.Some? <==> InBounds(offset, 1)
      ensures r.Some? ==> r.value == buffer[offset]
    {
      match Slot(offset, 1)
      case None => None
      case Some(b) => Some(b[0])
    }

    function ReadInt32(offset: int): (r: Option<Int32>)
      ensures r.Some? <==> InBounds(offset, 4)
      ensures r.Some? ==> EncodeInt32(r.value) == buffer[offset..offset + 4]
    {
      match Slot(offset, 4)
      case None => None
      case Some(b) => Some(DecodeInt32(b))
    }

    function ReadUint32(offset: int): (r: Option<Uint32>)
      ensures r.Some? <==> InBounds(offset, 4)
      ensures r.Some? ==> EncodeUint32(r.value) == buffer[offset..offset + 4]
    {
      match Slot(offset, 4)
      case None => None
      case Some(b) => Some(DecodeUint32(b))
    }

    /** The byte range `toString` decodes once Node has clamped it to the buffer. */
    function StringRange(offset: int, size: int): (r: (nat, nat))
      ensures r.0 <= r.1 <= |buffer|
      ensures size >= 0 && InBounds(offset, size) ==> buffer[r.0..r.1] == buffer[offset..offset + size]
      ensures offset >= |buffer| || size <= 0 ==> r.0 == r.1
    {
      var start := if offset <= 0 then 0 else offset;
      if start >= |buffer| then (0, 0)
      else
        var end := if offset + size > |buffer| then |buffer| else offset + size;
        if end <= start then (0, 0) else (start, end)
    }

    /** UTF-8 text of bytes [offset, offset + size), clamped to the buffer as Node's `toString` does. */
    function ReadString(offset: int, size: int): (s: string)
      ensures size >= 0 && InBounds(offset, size) ==> s == Utf8.Decode(buffer[offset..offset + size])
      ensures offset >= |buffer| || size <= 0 ==> s == ""
    {
      var (start, end) := StringRange(offset, size);
      Utf8.Decode(buffer[start..end])
    }
  }

  /** `new NanoBufReader(data)`: the reader keeps its own copy of `data`. */
  function FromBytes(data: seq<Byte>): (r: NanoBufReader)
    ensures r.buffer == data
  {
    NanoBufReader(data)
  }

  // ---------------------------------------------------------------------------
  // Reading back what an encoder wrote

  lemma ReadUint8At(p: seq<Byte>, v: Byte, q: seq<Byte>)
    ensures NanoBufReader(p + [v] + q).ReadUint8(|p|) == Some(v)
  {
    assert (p + [v] + q)[|p|] == v;
  }

  lemma ReadInt8At(p: seq<Byte>, v: Int8, q: seq<Byte>)
    ensures NanoBufReader(p + EncodeInt8(v) + q).ReadInt8(|p|) == Some(v)
  {
    var b := p + EncodeInt8(v) + q;
    assert b[|p|..|p| + 1] == EncodeInt8(v);
    Int8RoundTrip(v);
  }

  /** appendBoolean writes 1 or 0, and readBoolean gives the same boolean back. */
  lemma ReadBooleanAt(p: seq<Byte>, v: bool, q: seq<Byte>)
    ensures NanoBufReader(p + EncodeInt8(if v then 1 else 0) + q).ReadBoolean(|p|) == Some(v)
  {
    ReadInt8At(p, if v then 1 else 0, q);
  }

  lemma ReadInt32At(p: seq<Byte>, v: Int32, q: seq<Byte>)
    ensures NanoBufReader(p + EncodeInt32(v) + q).ReadInt32(|p|) == Some(v)
  {
    var b := p + EncodeInt32(v) + q;
    assert b[|p|..|p| + 4] == EncodeInt32(v);
    Int32RoundTrip(v);
  }

  lemma ReadUint32At(p: seq<Byte>, v: Uint32, q: seq<Byte>)
    ensures NanoBufReader(p + EncodeUint32(v) + q).ReadUint32(|p|) == Some(v)
  {
    var b := p + EncodeUint32(v) + q;
    assert b[|p|..|p| + 4] == EncodeUint32(v);
    Uint32RoundTrip(v);
  }

  /** Four bytes holding the encoding of `v` read back as `v`, wherever they sit. */
  lemma ReadInt32OfSlice(r: NanoBufReader, offset: nat, v: Int32)
    requires offset + 4 <= |r.buffer| && r.buffer[offset..offset + 4] == EncodeInt32(v)
    ensures r.ReadInt32(offset) == Some(v)
  {
    Int32RoundTrip(v);
  }

  /** A string's UTF-8 bytes, read with their own length, give the string back. */
  lemma ReadStringAt(p: seq<Byte>, s: string, q: seq<Byte>)
    ensures NanoBufReader(p + Utf8.Encode(s) + q).ReadString(|p|, |Utf8.Encode(s)|) == s
  {
    var e := Utf8.Encode(s);
    var b := p + e + q;
    assert b[|p|..|p| + |e|] == e;
    Utf8.DecodeEncode(s);
  }

  /** Writing a type id then reading it gives it back. */
  lemma TypeIdPatched(b: seq<Byte>, typeId: Int32)
    requires 4 <= |b|
    ensures NanoBufReader(Patch(b, 0, EncodeInt32(typeId))).ReadTypeId() == Some(typeId)
  {
    var r := Patch(b, 0, EncodeInt32(typeId));
    assert r[..4] == r[0..4];
    Int32RoundTrip(typeId);
  }

  /**
   * Writing field size `size` into slot `i` then reading slot `i` gives `size`;
   * every other slot, and the type id, read as before.
   */
  lemma FieldSizePatched(b: seq<Byte>, i: int, size: Int32, j: int)
    requires 0 <= FieldSizeOffset(i) && FieldSizeOffset(i) + 4 <= |b|
    requires j != i
    ensures NanoBufReader(Patch(b, FieldSizeOffset(i), EncodeInt32(size))).ReadFieldSize(i) == Some(size)
    ensures NanoBufReader(Patch(b, FieldSizeOffset(i), EncodeInt32(size))).ReadFieldSize(j)
         == NanoBufReader(b).ReadFieldSize(j)
  {
    var o := FieldSizeOffset(i);
    var r := Patch(b, o, EncodeInt32(size));
    Int32RoundTrip(size);
    var oj := FieldSizeOffset(j);
    FieldSlotsDisjoint(i, j);
    if 0 <= oj && oj + 4 <= |b| {
      assert r[oj..oj + 4] == b[oj..oj + 4];
    }
  }

  // ---------------------------------------------------------------------------
  // The byte encodings exercised by the reader's tests

  lemma TypeIdExample()
    ensures NanoBufReader([1, 0, 0, 0, 2, 3, 9, 6]).ReadTypeId() == Some(1)
  {
    assert EncodeInt32(1) == [1, 0, 0, 0];
    var b: seq<Byte> := [1, 0, 0, 0, 2, 3, 9, 6];
    assert b == [] + EncodeInt32(1) + [2, 3, 9, 6];
    ReadInt32At([], 1, [2, 3, 9, 6]);
  }

  lemma FieldSizeExample()
    ensures NanoBufReader([1, 0, 0, 0, 2, 3, 0, 0, 9, 0, 0, 0]).ReadFieldSize(0) == Some(770)
    ensures NanoBufReader([1, 0, 0, 0, 2, 3, 0, 0, 9, 0, 0, 0]).ReadFieldSize(1) == Some(9)
  {
    assert EncodeInt32(770) == [2, 3, 0, 0];
    assert EncodeInt32(9) == [9, 0, 0, 0];
    var b: seq<Byte> := [1, 0, 0, 0, 2, 3, 0, 0, 9, 0, 0, 0];
    assert b == [1, 0, 0, 0] + EncodeInt32(770) + [9, 0, 0, 0];
    assert b == [1, 0, 0, 0, 2, 3, 0, 0] + EncodeInt32(9) + [];
    ReadInt32At([1, 0, 0, 0], 770, [9, 0, 0, 0]);
    ReadInt32At([1, 0, 0, 0, 2, 3, 0, 0], 9, []);
  }

  lemma BooleanExample()
    ensures NanoBufReader([0, 0, 0, 0, 1, 0]).ReadBoolean(4) == Some(true)
    ensures NanoBufReader([0, 0, 0, 0, 1, 0]).ReadBoolean(3) == Some(false)
  {
  }

  lemma Int8Example()
    ensures NanoBufReader([0, 245, 96]).ReadInt8(1) == Some(-11)
    ensures NanoBufReader([0, 245, 96]).ReadInt8(2) == Some(96)
  {
  }

  lemma Int32Example()
    ensures NanoBufReader([0, 1, 0, 0, 128, 4, 5, 0, 0]).ReadInt32(5) == Some(1284)
    ensures NanoBufReader([0, 1, 0, 0, 128, 4, 5, 0, 0]).ReadInt32(1) == Some(-2147483647)
  {
    assert EncodeInt32(-2147483647) == [1, 0, 0, 128];
    assert EncodeInt32(1284) == [4, 5, 0, 0];
    var b: seq<Byte> := [0, 1, 0, 0, 128, 4, 5, 0, 0];
    assert b == [0] + EncodeInt32(-2147483647) + [4, 5, 0, 0];
    assert b == [0, 1, 0, 0, 128] + EncodeInt32(1284) + [];
    ReadInt32At([0], -2147483647, [4, 5, 0, 0]);
    ReadInt32At([0, 1, 0, 0, 128], 1284, []);
  }

  /** A string field reads as the decoding of the bytes it covers. */
  lemma ReadStringOfSlice(r: NanoBufReader, offset: nat, bytes: seq<Byte>)
    requires offset + |bytes| <= |r.buffer| && r.buffer[offset..offset + |bytes|] == bytes
    ensures r.ReadString(offset, |bytes|) == Utf8.Decode(bytes)
  {
  }

  lemma DecodeExample()
    ensures Utf8.Decode([0x62, 0x72, 0x65, 0x61, 0x64, 0x20, 0xf0, 0x9f, 0x91, 0x8d]) == "bread " + [0x1F44D as char]
  {
    var ascii: seq<Byte> := [0x62, 0x72, 0x65, 0x61, 0x64, 0x20];
    var thumbsUp: seq<Byte> := [0xf0, 0x9f, 0x91, 0x8d];
    assert Utf8.DecodeStep(thumbsUp) == Utf8.Step(0x1F44D as char, 4);
    assert Utf8.Decode(thumbsUp) == [0x1F44D as char];
    Utf8.DecodeAscii(ascii, thumbsUp);
    assert Utf8.AsciiText(ascii) == "bread ";
    assert ascii + thumbsUp == [0x62, 0x72, 0x65, 0x61, 0x64, 0x20, 0xf0, 0x9f, 0x91, 0x8d];
  }

  lemma StringExample(r: NanoBufReader)
    requires r.buffer == [67, 89, 0x62, 0x72, 0x65, 0x61, 0x64, 0x20, 0xf0, 0x9f, 0x91, 0x8d]
    ensures r.ReadString(2, 10) == "bread " + [0x1F44D as char]
  {
    var text: seq<Byte> := [0x62, 0x72, 0x65, 0x61, 0x64, 0x20, 0xf0, 0x9f, 0x91, 0x8d];
    assert r.buffer[2..12] == text;
    DecodeExample();
    ReadStringOfSlice(r, 2, text);
  }
}
