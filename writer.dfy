/**
 * NanoBufWriter: a growable byte buffer with an append cursor `endPtr`.
 * Header slots (type id, field sizes) are patched in place without moving
 * the cursor; appends write at the cursor and advance it, first replacing
 * the buffer with a larger copy when the new end reaches the capacity.
 *
 * Storage comes from `Buffer.allocUnsafe`, whose contents are arbitrary:
 * no contract here says anything about a byte nobody wrote.
 *
 * `new NanoBufWriter(n, false)`, `appendUint8` and `appendUint32` are used by
 * the RPC layer but not defined in src/writer.ts. They are added by analogy:
 * the two-argument form with `false` starts the cursor at 0 (constructor
 * `Empty`), and the appends are unsigned little-endian of widths 1 and 4.
 */
module Writer {
  import opened Wire
  import Utf8

  /** `after` is `before`, possibly extended, with `w` written at `at` and every other byte of `before` in place. */
  ghost predicate Written(before: seq<Byte>, after: seq<Byte>, at: nat, w: seq<Byte>)
  {
    && |before| <= |after|
    && at + |w| <= |after|
    && after[at..at + |w|] == w
    && forall i :: 0 <= i < |before| && !(at <= i < at + |w|) ==> after[i] == before[i]
  }

  /** Two adjacent writes are one write of their concatenation. */
  lemma WrittenTwice(before: seq<Byte>, middle: seq<Byte>, after: seq<Byte>, at: nat, u: seq<Byte>, v: seq<Byte>)
    requires Written(before, middle, at, u) && Written(middle, after, at + |u|, v)
    ensures Written(before, after, at, u + v)
  {
    assert after[at..at + |u|] == middle[at..at + |u|];
    assert after[at..at + |u + v|] == after[at..at + |u|] + after[at + |u|..at + |u| + |v|];
  }

  /** A write survives the buffer's growth: the old bytes are kept as a prefix. */
  lemma WrittenKept(before: seq<Byte>, middle: seq<Byte>, after: seq<Byte>, at: nat, w: seq<Byte>)
    requires Written(before, middle, at, w)
    requires |middle| <= |after| && after[..|middle|] == middle
    ensures Written(before, after, at, w)
  {
    assert after[at..at + |w|] == middle[at..at + |w|];
    assert forall i :: 0 <= i < |middle| ==> after[i] == middle[i];
  }

  class NanoBufWriter {
    /** The backing storage; its length is the capacity. */
    var buffer: array<Byte>
    /** The index at which the next byte is stored. */
    var endPtr: nat

    ghost predicate Valid()
      reads this
    {
      endPtr <= buffer.Length
    }

    /** `bytes`: exactly the written prefix [0, endPtr), never the whole capacity. */
    function Bytes(): (b: seq<Byte>)
      reads this, buffer
      requires Valid()
      ensures |b| == endPtr
      ensures forall i :: 0 <= i < endPtr ==> b[i] == buffer[i]
    {
      buffer[..endPtr]
    }

    /**
     * The buffer holds `before` with `w` written at `at`: bytes of `before`
     * outside [at, at + |w|) are where they were, even after a resize.
     */
    ghost predicate WroteAt(before: seq<Byte>, at: nat, w: seq<Byte>)
      reads this, buffer
    {
      Written(before, buffer[..], at, w)
    }

    /** `new NanoBufWriter(initialSizeInBytes)`: the first `initialSizeInBytes` bytes are reserved. */
    constructor(initialSizeInBytes: nat)
      ensures Valid() && fresh(buffer)
      ensures buffer.Length == initialSizeInBytes && endPtr == initialSizeInBytes
    {
      endPtr := initialSizeInBytes;
      buffer := new Byte[initialSizeInBytes];
    }

    /** `new NanoBufWriter(initialSizeInBytes, false)`: same capacity, nothing reserved. */
    constructor Empty(initialSizeInBytes: nat)
      ensures Valid() && fresh(buffer)
      ensures buffer.Length == initialSizeInBytes && endPtr == 0
      ensures Bytes() == []
    {
      endPtr := 0;
      buffer := new Byte[initialSizeInBytes];
    }

    // -------------------------------------------------------------------------
    // Random-access header patches

    /** Stores `w` at `offset`, as Node's fixed-width writes do once their range check has passed. */
    method Put(offset: nat, w: seq<Byte>)
      requires offset + |w| <= buffer.Length
      modifies buffer
      ensures buffer[..] == Patch(old(buffer[..]), offset, w)
    {
      for k := 0 to |w|
        invariant forall i :: 0 <= i < buffer.Length ==>
                    buffer[i] == if offset <= i < offset + k then w[i - offset] else old(buffer[i])
      {
        buffer[offset + k] := w[k];
      }
      ghost var patched := Patch(old(buffer[..]), offset, w);
      assert forall i :: 0 <= i < buffer.Length ==> buffer[..][i] == patched[i];
    }

    /**
     * `writeInt32LE(value, offset)` on the buffer: fails (Node's RangeError) unless the
     * 4 bytes lie inside the current capacity; never moves the cursor.
     */
    method WriteInt32Slot(offset: int, value: Int32) returns (ok: bool)
      requires Valid()
      modifies buffer
      ensures Valid()
      ensures ok <==> 0 <= offset && offset + 4 <= buffer.Length
      ensures ok ==> buffer[..] == Patch(old(buffer[..]), offset, EncodeInt32(value))
      ensures ok ==> Bytes() == Patch(old(buffer[..]), offset, EncodeInt32(value))[..endPtr]
      ensures !ok ==> buffer[..] == old(buffer[..])
    {
      ok := 0 <= offset && offset + 4 <= buffer.Length;
      if ok {
        Put(offset, EncodeInt32(value));
      }
    }

    method WriteTypeId(typeId: Int32) returns (ok: bool)
      requires Valid()
      modifies buffer
      ensures Valid()
      ensures ok <==> 4 <= buffer.Length
      ensures ok ==> buffer[..] == Patch(old(buffer[..]), 0, EncodeInt32(typeId))
      ensures ok ==> Bytes() == Patch(old(buffer[..]), 0, EncodeInt32(typeId))[..endPtr]
      ensures !ok ==> buffer[..] == old(buffer[..])
    {
      ok := WriteInt32Slot(0, typeId);
    }

    method WriteFieldSize(fieldNumber: int, size: Int32) returns (ok: bool)
      requires Valid()
      modifies buffer
      ensures Valid()
      ensures ok <==> 0 <= FieldSizeOffset(fieldNumber) && FieldSizeOffset(fieldNumber) + 4 <= buffer.Length
      ensures ok ==> buffer[..] == Patch(old(buffer[..]), FieldSizeOffset(fieldNumber), EncodeInt32(size))
      ensures ok ==> Bytes() == Patch(old(buffer[..]), FieldSizeOffset(fieldNumber), EncodeInt32(size))[..endPtr]
      ensures !ok ==> buffer[..] == old(buffer[..])
    {
      ok := WriteInt32Slot(FieldSizeOffset(fieldNumber), size);
    }

    // -------------------------------------------------------------------------
    // Growth

    /**
     * Sets the cursor to `newEnd`. When `newEnd` reaches the capacity, the buffer is first
     * replaced by one of capacity `2 * cap + (newEnd - cap)` holding the old bytes at the
     * same offsets (`this.buffer.copy(newBuf)`).
     */
    method MoveEndPtrAndResizeIfNecessary(newEnd: nat)
      requires Valid() && endPtr <= newEnd
      modifies this
      ensures Valid() && endPtr == newEnd
      ensures buffer.Length == if newEnd >= old(buffer.Length)
                               then 2 * old(buffer.Length) + (newEnd - old(buffer.Length))
                               else old(buffer.Length)
      ensures old(buffer.Length) <= buffer.Length
      ensures buffer[..old(buffer.Length)] == old(buffer[..])
      ensures buffer == old(buffer) || fresh(buffer)
    {
      var currentLength := buffer.Length;
      if newEnd >= currentLength {
        var difference := newEnd - currentLength;
        var newBuf := new Byte[currentLength * 2 + difference];
        var oldBuf := buffer;
        for i := 0 to currentLength
          modifies newBuf
          invariant newBuf[..i] == oldBuf[..i]
        {
          newBuf[i] := oldBuf[i];
        }
        buffer := newBuf;
      }
      endPtr := newEnd;
    }

    // -------------------------------------------------------------------------
    // Appends

    /** What every append does: remember the cursor, move it past `w`, write `w` at the remembered offset. */
    method AppendEncoding(w: seq<Byte>)
      requires Valid()
      modifies this, buffer
      ensures Valid() && (buffer == old(buffer) || fresh(buffer))
      ensures endPtr == old(endPtr) + |w|
      ensures Bytes() == old(Bytes()) + w
      ensures WroteAt(old(buffer[..]), old(endPtr), w)
    {
      ghost var before := buffer[..];
      ghost var written := Bytes();
      var offset := endPtr;
      MoveEndPtrAndResizeIfNecessary(offset + |w|);
      ghost var moved := buffer[..];
      assert moved[..|before|] == before;
      Put(offset, w);
      assert forall i :: 0 <= i < |before| && !(offset <= i < offset + |w|) ==> buffer[i] == moved[i] == before[i];
      assert forall i :: 0 <= i < offset ==> Bytes()[i] == written[i];
      assert Bytes()[offset..] == w;
      assert Bytes() == written + w;
    }

    method AppendInt8(int8: Int8)
      requires Valid()
      modifies this, buffer
      ensures Valid() && (buffer == old(buffer) || fresh(buffer))
      ensures endPtr == old(endPtr) + 1
      ensures Bytes() == old(Bytes()) + EncodeInt8(int8)
      ensures WroteAt(old(buffer[..]), old(endPtr), EncodeInt8(int8))
    {
      AppendEncoding(EncodeInt8(int8));
    }

    /** Writes the byte 1 for true and 0 for false. */
    method AppendBoolean(value: bool)
      requires Valid()
      modifies this, buffer
      ensures Valid() && (buffer == old(buffer) || fresh(buffer))
      ensures endPtr == old(endPtr) + 1
      ensures Bytes() == old(Bytes()) + [if value then 1 else 0]
      ensures WroteAt(old(buffer[..]), old(endPtr), [if value then 1 else 0])
    {
      AppendInt8(if value then 1 else 0);
    }

    method AppendUint8(uint8: Byte)
      requires Valid()
      modifies this, buffer
      ensures Valid() && (buffer == old(buffer) || fresh(buffer))
      ensures endPtr == old(endPtr) + 1
      ensures Bytes() == old(Bytes()) + [uint8]
      ensures WroteAt(old(buffer[..]), old(endPtr), [uint8])
    {
      AppendEncoding(EncodeUint8(uint8));
    }

    method AppendInt32(int32: Int32)
      requires Valid()
      modifies this, buffer
      ensures Valid() && (buffer == old(buffer) || fresh(buffer))
      ensures endPtr == old(endPtr) + 4
      ensures Bytes() == old(Bytes()) + EncodeInt32(int32)
      ensures WroteAt(old(buffer[..]), old(endPtr), EncodeInt32(int32))
    {
      AppendEncoding(EncodeInt32(int32));
    }

    method AppendUint32(uint32: Uint32)
      requires Valid()
      modifies this, buffer
      ensures Valid() && (buffer == old(buffer) || fresh(buffer))
      ensures endPtr == old(endPtr) + 4
      ensures Bytes() == old(Bytes()) + EncodeUint32(uint32)
      ensures WroteAt(old(buffer[..]), old(endPtr), EncodeUint32(uint32))
    {
      AppendEncoding(EncodeUint32(uint32));
    }

    /**
     * Appends the UTF-8 bytes of `str` with no length prefix and returns their number.
     * This is the intended effect; src/writer.ts:53 copies in the opposite direction,
     * see AppendStringAsWritten.
     */
    method AppendString(str: string) returns (byteLength: nat)
      requires Valid()
      modifies this, buffer
      ensures Valid() && (buffer == old(buffer) || fresh(buffer))
      ensures byteLength == |Utf8.Encode(str)|
      ensures endPtr == old(endPtr) + byteLength
      ensures Bytes() == old(Bytes()) + Utf8.Encode(str)
      ensures WroteAt(old(buffer[..]), old(endPtr), Utf8.Encode(str))
    {
      var buf := Utf8.Encode(str);
      AppendEncoding(buf);
      byteLength := |buf|;
    }

    /**
     * Appends the UTF-8 byte length of `str` as a little-endian int32, then the bytes
     * (the intended effect of src/writer.ts:57-64). V8 strings are far shorter than
     * 2^31 bytes, the limit `writeInt32LE` places on the prefix.
     */
    method AppendStringAndSize(str: string) returns (byteLength: nat)
      requires Valid()
      requires |Utf8.Encode(str)| < 0x8000_0000
      modifies this, buffer
      ensures Valid() && (buffer == old(buffer) || fresh(buffer))
      ensures byteLength == |Utf8.Encode(str)|
      ensures endPtr == old(endPtr) + 4 + byteLength
      ensures Bytes() == old(Bytes()) + EncodeInt32(byteLength) + Utf8.Encode(str)
      ensures WroteAt(old(buffer[..]), old(endPtr), EncodeInt32(byteLength) + Utf8.Encode(str))
    {
      var buf := Utf8.Encode(str);
      ghost var before := buffer[..];
      ghost var at := endPtr;
      AppendInt32(|buf|);
      ghost var middle := buffer[..];
      AppendEncoding(buf);
      byteLength := |buf|;
      WrittenTwice(before, middle, buffer[..], at, EncodeInt32(|buf|), buf);
    }

    /** Appends `bytes` unchanged (the intended effect of src/writer.ts:66-71). */
    method AppendBytes(bytes: seq<Byte>)
      requires Valid()
      modifies this, buffer
      ensures Valid() && (buffer == old(buffer) || fresh(buffer))
      ensures endPtr == old(endPtr) + |bytes|
      ensures Bytes() == old(Bytes()) + bytes
      ensures WroteAt(old(buffer[..]), old(endPtr), bytes)
    {
      AppendEncoding(bytes);
    }

    /**
     * `appendString` as src/writer.ts:49-55 writes it. `this.buffer.copy(buf, offset)`
     * copies the writer's buffer INTO the temporary `buf` (Node's signature is
     * `source.copy(target, targetStart)`), so the writer's own bytes never change:
     * the cursor moves past bytes that keep whatever they held before.
     */
    method AppendStringAsWritten(str: string) returns (byteLength: nat)
      requires Valid()
      modifies this
      ensures Valid() && (buffer == old(buffer) || fresh(buffer))
      ensures byteLength == |Utf8.Encode(str)|
      ensures endPtr == old(endPtr) + byteLength
      ensures old(buffer.Length) <= buffer.Length
      ensures buffer[..old(buffer.Length)] == old(buffer[..])
    {
      var buf := Utf8.Encode(str);
      var offset := endPtr;
      MoveEndPtrAndResizeIfNecessary(offset + |buf|);
      byteLength := |buf|;
    }

    /**
     * `appendStringAndSize` as src/writer.ts:57-64 writes it: the int32 length lands at
     * the cursor, but the same reversed copy leaves the text's bytes unwritten.
     */
    method AppendStringAndSizeAsWritten(str: string) returns (byteLength: nat)
      requires Valid()
      requires |Utf8.Encode(str)| < 0x8000_0000
      modifies this, buffer
      ensures Valid() && (buffer == old(buffer) || fresh(buffer))
      ensures byteLength == |Utf8.Encode(str)|
      ensures endPtr == old(endPtr) + 4 + byteLength
      ensures WroteAt(old(buffer[..]), old(endPtr), EncodeInt32(byteLength))
    {
      var buf := Utf8.Encode(str);
      ghost var before := buffer[..];
      ghost var at := endPtr;
      AppendInt32(|buf|);
      ghost var middle := buffer[..];
      var offset := endPtr;
      MoveEndPtrAndResizeIfNecessary(offset + |buf|);
      WrittenKept(before, middle, buffer[..], at, EncodeInt32(|buf|));
      byteLength := |buf|;
    }

    /**
     * `appendBytes` as src/writer.ts:66-71 writes it: the cursor moves past the bytes,
     * and the reversed copy leaves every byte of the writer's old buffer unchanged.
     */
    method AppendBytesAsWritten(bytes: seq<Byte>)
      requires Valid()
      modifies this
      ensures Valid() && (buffer == old(buffer) || fresh(buffer))
      ensures endPtr == old(endPtr) + |bytes|
      ensures old(buffer.Length) <= buffer.Length
      ensures buffer[..old(buffer.Length)] == old(buffer[..])
    {
      var offset := endPtr;
      var byteLength := |bytes|;
      MoveEndPtrAndResizeIfNecessary(offset + byteLength);
    }
  }

  /** Five bytes that are an int32 zero and then a zero byte hold no "a". */
  lemma ZeroWhereTextBelongs(before: seq<Byte>, written: seq<Byte>)
    requires |before| >= 5 && before[..4] == EncodeInt32(0) && before[4] == 0 && written == before[..5]
    ensures written == [0, 0, 0, 0, 0]
    ensures written[4..] != Utf8.Encode("a")
  {
    assert EncodeInt32(0) == [0, 0, 0, 0];
    assert written == before[..4] + [before[4]];
    Utf8.EncodeAsciiChar('a');
  }

  /**
   * The as-written appendString loses its text: after a 4-byte prefix and a header
   * slot of zeros, appending "a" leaves a zero byte where 0x61 belongs.
   */
  method AsWrittenAppendLosesText() returns (written: seq<Byte>)
    ensures written == [0, 0, 0, 0, 0]
    ensures written[4..] != Utf8.Encode("a")
  {
    var w := new NanoBufWriter.Empty(8);
    var ok := w.WriteFieldSize(0, 0);
    assert w.buffer[4] == 0 by {
      assert w.buffer[..][4..8] == EncodeInt32(0);
    }
    w.AppendInt32(0);
    var before := w.buffer[..];
    assert before[..4] == EncodeInt32(0) by {
      assert before[..4] == w.Bytes();
    }
    Utf8.EncodeAsciiChar('a');
    var n := w.AppendStringAsWritten("a");
    written := w.Bytes();
    assert written == before[..5];
    ZeroWhereTextBelongs(before, written);
  }

  /** The corrected appendString puts the text at the cursor. */
  method AppendStringWritesText() returns (written: seq<Byte>)
    ensures written == [0, 0, 0, 0, 0x61]
  {
    var zero := EncodeInt32(0);
    assert zero == [0, 0, 0, 0];
    var w := new NanoBufWriter.Empty(8);
    var ok := w.WriteFieldSize(0, 0);
    w.AppendInt32(0);
    assert w.Bytes() == zero;
    Utf8.EncodeAsciiChar('a');
    var n := w.AppendString("a");
    written := w.Bytes();
  }

  /**
   * `new NanoBufWriter(1)` has one byte of storage, so `writeTypeId` has no room
   * for its four bytes and Node throws.
   */
  method TypeIdOnOneByteWriter() returns (ok: bool)
    ensures !ok
  {
    var w := new NanoBufWriter(1);
    ok := w.WriteTypeId(4);
  }

  /**
   * `new NanoBufWriter(10)` starts the cursor at 10, so after the header writes
   * `appendBoolean(true)` yields 11 bytes, the `true` landing at offset 10.
   */
  method BooleanAfterTenByteStart() returns (written: seq<Byte>)
    ensures |written| == 11 && written[..8] == [4, 0, 0, 0, 1, 0, 0, 0] && written[10] == 1
  {
    var four, one := EncodeInt32(4), EncodeInt32(1);
    assert four == [4, 0, 0, 0] && one == [1, 0, 0, 0];
    var w := new NanoBufWriter(10);
    var ok := w.WriteTypeId(4);
    assert w.buffer[..][..4] == four;
    ok := w.WriteFieldSize(0, 1);
    assert w.buffer[..][..8] == four + one;
    w.AppendBoolean(true);
    written := w.Bytes();
    assert written[..8] == w.buffer[..][..8];
  }

  /** The byte encodings the writer's tests expect. */
  lemma WriterEncodingExamples()
    ensures EncodeInt32(4) == [4, 0, 0, 0]
    ensures EncodeInt32(-1) == [255, 255, 255, 255]
    ensures EncodeInt8(78) == [78] && EncodeInt8(-45) == [0xd3]
    ensures EncodeInt32(2345) == [0x29, 0x09, 0, 0]
    ensures EncodeInt32(-128) == [128, 255, 255, 255]
  {
  }
}
