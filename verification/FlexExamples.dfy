/** Small buffers, byte by byte: what the definitions of the other modules say of them. */
module FlexExamples {
  import opened Bytes
  import opened Widths
  import opened FlexFormat
  import opened FlexTree

  lemma ReadByte(buf: seq<byte>, at: nat)
    requires at < |buf|
    ensures ReadUnsigned(buf, at, 1) == buf[at]
  {
    assert ReadUnsigned(buf, at, 1) == buf[at] + 256 * ReadUnsigned(buf, at + 1, 0);
  }

  lemma SignedByte(buf: seq<byte>, at: nat)
    requires at < |buf|
    ensures ReadInt64(buf, at, 1) == (buf[at] as int) - (if buf[at] < 0x80 then 0 else 0x100)
  {
    ReadByte(buf, at);
    LimitValues();
  }

  /** The type of an element is in the upper six bits, the width of what it leads to in the lower two. */
  lemma PackedTypes(b: BitWidth, t: Type, data: nat, w: Width)
    ensures PackedType(b, t) == 4 * t + b
    ensures FromPacked(data, w, 4 * t + b) == Reference(data, w, [1, 2, 4, 8][b], t)
  {
  }

  /** The numbers of the vector types. */
  lemma VectorTypes()
    ensures ToTypedVector(1) == 11 && ToTypedVector(2) == 12 && ToTypedVector(3) == 13
      && ToTypedVector(4) == 14 && ToTypedVector(5) == 15 && ToTypedVector(26) == 36
    ensures ToFixedTypedVector(1, 2) == 16 && ToFixedTypedVector(2, 2) == 17 && ToFixedTypedVector(3, 2) == 18
    ensures ToFixedTypedVector(1, 3) == 19 && ToFixedTypedVector(2, 3) == 20 && ToFixedTypedVector(3, 3) == 21
    ensures ToFixedTypedVector(1, 4) == 22 && ToFixedTypedVector(2, 4) == 23 && ToFixedTypedVector(3, 4) == 24
  {
  }

  /** The root of a buffer whose root is stored in one byte. */
  lemma RootIs(buf: seq<byte>, b: BitWidth, t: Type)
    requires |buf| >= 3 && buf[|buf| - 1] == 1 && buf[|buf| - 2] == 4 * t + b
    ensures GetRoot(buf) == Reference(|buf| - 3, 1, [1, 2, 4, 8][b], t)
  {
  }

  /** A map of the keys a and b to 300 and 2: the keys; their vector, a size and two offsets; padding; the map, an
      offset to that vector, its width, a size, two values of two bytes and their types; the root, its type and its
      width. */
  lemma MapBytes(buf: seq<byte>)
    requires buf == (([0x61, 0, 0x62, 0] + [2, 5, 4] + [0]) + ([3, 0, 1, 0, 2, 0] + [44, 1, 2, 0] + [5, 5]) + [6])
             + [37, 1]
    ensures Encodes(buf, Map([[0x61], [0x62]], [Int(300), Int(2)]))
  {
    hide ObjectAt, GetRoot;
    var keys: seq<byte>, vals: seq<byte> :=
      [0x61, 0, 0x62, 0] + [2, 5, 4] + [0], [3, 0, 1, 0, 2, 0] + [44, 1, 2, 0] + [5, 5];
    var body := keys + vals + [6];
    var t := Map([[0x61], [0x62]], [Int(300), Int(2)]);
    assert |body| == 21 && buf == body + [37, 1];
    assert buf[..21] == body && body[..8] == keys && body[8..20] == vals;
    RootIs(buf, 1, FBT_MAP);
    ReadByte(body, 20);
    MapBody(body, keys, vals);
    OffsetReads(body, GetRoot(buf), 14, t);
  }

  lemma MapBody(body: seq<byte>, keys: seq<byte>, vals: seq<byte>)
    requires |body| == 21 && keys == body[..8] == [0x61, 0, 0x62, 0] + [2, 5, 4] + [0]
    requires vals == body[8..20] == [3, 0, 1, 0, 2, 0] + [44, 1, 2, 0] + [5, 5]
    ensures ObjectAt(body, 14, 2, FBT_MAP, Map([[0x61], [0x62]], [Int(300), Int(2)]))
  {
    hide KeysAt, RefReads, FromPacked, MapKeys, ReadUnsigned;
    assert forall i :: 0 <= i < 8 ==> body[i] == keys[i];
    assert forall i :: 8 <= i < 20 ==> body[i] == vals[i - 8];
    TwoBytes(body, 8);
    TwoBytes(body, 10);
    TwoBytes(body, 12);
    MapKeyVector(body, keys);
    MapValues(body, vals);
    assert MapKeys(body, 14, 2) == (5, 1) by {
      MapKeysRead(body);
    }
  }

  lemma MapKeysRead(body: seq<byte>)
    requires |body| == 21 && ReadUnsigned(body, 8, 2) == 3 && ReadUnsigned(body, 10, 2) == 1
    ensures MapKeys(body, 14, 2) == (5, 1)
  {
  }

  lemma MapKeyVector(body: seq<byte>, keys: seq<byte>)
    requires |body| == 21 && keys == body[..8] == [0x61, 0, 0x62, 0] + [2, 5, 4] + [0]
    ensures KeysAt(body, 5, 1, [[0x61], [0x62]])
  {
    assert forall i :: 0 <= i < 8 ==> body[i] == keys[i];
    ReadByte(body, 4);
    ReadByte(body, 5);
    ReadByte(body, 6);
    assert KeyAt(body, 0, [0x61]) && KeyAt(body, 2, [0x62]);
  }

  lemma MapValues(body: seq<byte>, vals: seq<byte>)
    requires |body| == 21 && vals == body[8..20] == [3, 0, 1, 0, 2, 0] + [44, 1, 2, 0] + [5, 5]
    ensures RefReads(body, FromPacked(14, 2, 5), Int(300)) && RefReads(body, FromPacked(16, 2, 5), Int(2))
  {
    assert forall i :: 8 <= i < 20 ==> body[i] == vals[i - 8];
    TwoBytes(body, 14);
    TwoBytes(body, 16);
    LimitValues();
  }

  /** A vector of the string b, 200 without sign, true, null and a blob of one byte: the string and the blob; the
      size, the elements and their types; the root. */
  lemma VectorBytes(buf: seq<byte>)
    requires buf == [1, 0x62, 0] + [1, 9] + [5] + [5, 200, 1, 0, 6] + [20, 8, 104, 0, 100] + [10, 40, 1]
    ensures Encodes(buf, Vector([Str([0x62]), UInt(200), Bool(true), Null, Blob([9])]))
  {
    var body := buf[..17];
    assert body == [1, 0x62, 0, 1, 9] + [5, 5, 200, 1, 0, 6] + [20, 8, 104, 0, 100, 10];
    assert GetRoot(buf) == Reference(16, 1, 1, FBT_VECTOR);
    ReadByte(body, 16);
    VectorBody(body);
    OffsetReads(body, GetRoot(buf), 6, Vector([Str([0x62]), UInt(200), Bool(true), Null, Blob([9])]));
  }

  lemma VectorBody(body: seq<byte>)
    requires body == [1, 0x62, 0, 1, 9] + [5, 5, 200, 1, 0, 6] + [20, 8, 104, 0, 100, 10]
    ensures ObjectAt(body, 6, 1, FBT_VECTOR, Vector([Str([0x62]), UInt(200), Bool(true), Null, Blob([9])]))
  {
    hide RefReads, FromPacked;
    var es := [Str([0x62]), UInt(200), Bool(true), Null, Blob([9])];
    ReadByte(body, 5);
    VectorElements(body);
    assert VectorAt(body, 6, 1, es) by {
      forall i | 0 <= i < 5 ensures RefReads(body, VectorElement(body, 6, 1, i), es[i]) {
        assert VectorElement(body, 6, 1, i) == FromPacked(6 + i, 1, body[11 + i]);
      }
    }
  }

  lemma VectorElements(body: seq<byte>)
    requires body == [1, 0x62, 0, 1, 9] + [5, 5, 200, 1, 0, 6] + [20, 8, 104, 0, 100, 10]
    ensures RefReads(body, FromPacked(6, 1, 20), Str([0x62])) && RefReads(body, FromPacked(7, 1, 8), UInt(200))
    ensures RefReads(body, FromPacked(8, 1, 104), Bool(true)) && RefReads(body, FromPacked(9, 1, 0), Null)
    ensures RefReads(body, FromPacked(10, 1, 100), Blob([9]))
  {
    VectorLeaves(body);
    ReadByte(body, 6);
    ReadByte(body, 7);
    ReadByte(body, 8);
    ReadByte(body, 10);
    OffsetReads(body, FromPacked(6, 1, 20), 1, Str([0x62]));
    OffsetReads(body, FromPacked(10, 1, 100), 4, Blob([9]));
  }

  lemma VectorLeaves(body: seq<byte>)
    requires body == [1, 0x62, 0, 1, 9] + [5, 5, 200, 1, 0, 6] + [20, 8, 104, 0, 100, 10]
    ensures LeafAt(body, 1, 1, FBT_STRING, Str([0x62])) && LeafAt(body, 4, 1, FBT_BLOB, Blob([9]))
  {
    ReadByte(body, 0);
    ReadByte(body, 3);
  }

  /** A typed vector of 1 and -1, one of fixed length of 1, 2 and 3 without sign, and 300 stored indirectly in two
      bytes. */
  lemma TypedBytes(typed: seq<byte>, fixed: seq<byte>, indirect: seq<byte>)
    requires typed == [2, 1, 255, 2, 44, 1] && fixed == [1, 2, 3, 3, 80, 1] && indirect == [44, 1, 2, 25, 1]
    ensures Encodes(typed, TypedVector(FBT_INT, [Int(1), Int(-1)]))
    ensures Encodes(fixed, FixedTypedVector(FBT_UINT, [UInt(1), UInt(2), UInt(3)]))
    ensures Encodes(indirect, IndirectInt(300))
  {
    TypedBody(typed);
    FixedBody(fixed);
    IndirectBody(indirect);
  }

  lemma TypedBody(buf: seq<byte>)
    requires buf == [2, 1, 255, 2, 44, 1]
    ensures Encodes(buf, TypedVector(FBT_INT, [Int(1), Int(-1)]))
  {
    var body := buf[..4];
    assert body == [2, 1, 255, 2];
    var es := [Int(1), Int(-1)];
    ReadByte(body, 0);
    ReadByte(body, 3);
    assert RefReads(body, TypedElement(1, 1, FBT_INT, 0), es[0]) by {
      SignedByte(body, 1);
    }
    assert RefReads(body, TypedElement(1, 1, FBT_INT, 1), es[1]) by {
      SignedByte(body, 2);
    }
    OffsetReads(body, GetRoot(buf), 1, TypedVector(FBT_INT, es));
  }

  lemma FixedBody(buf: seq<byte>)
    requires buf == [1, 2, 3, 3, 80, 1]
    ensures Encodes(buf, FixedTypedVector(FBT_UINT, [UInt(1), UInt(2), UInt(3)]))
  {
    var body := buf[..4];
    assert body == [1, 2, 3, 3];
    ReadByte(body, 0);
    ReadByte(body, 1);
    ReadByte(body, 2);
    ReadByte(body, 3);
    OffsetReads(body, GetRoot(buf), 0, FixedTypedVector(FBT_UINT, [UInt(1), UInt(2), UInt(3)]));
  }

  lemma IndirectBody(buf: seq<byte>)
    requires buf == [44, 1, 2, 25, 1]
    ensures Encodes(buf, IndirectInt(300))
  {
    var body := buf[..3];
    assert body == [44, 1, 2];
    ReadByte(body, 1);
    ReadByte(body, 2);
    assert ReadUnsigned(body, 0, 2) == 300;
    OffsetReads(body, GetRoot(buf), 0, IndirectInt(300));
  }
}
