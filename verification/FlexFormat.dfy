/** The FlexBuffers wire format: packed types, element widths, and the accessors that follow them
    from a root backwards.  A pointer is a position in the buffer. */
module FlexFormat {
  import opened Bytes
  import opened Widths

  /** The upper six bits of a packed type byte. */
  type Type = t: int | 0 <= t < 64

  const FBT_NULL: Type := 0
  const FBT_INT: Type := 1
  const FBT_UINT: Type := 2
  const FBT_FLOAT: Type := 3
  const FBT_KEY: Type := 4
  const FBT_STRING: Type := 5
  const FBT_INDIRECT_INT: Type := 6
  const FBT_INDIRECT_UINT: Type := 7
  const FBT_INDIRECT_FLOAT: Type := 8
  const FBT_MAP: Type := 9
  const FBT_VECTOR: Type := 10
  const FBT_VECTOR_INT: Type := 11
  const FBT_VECTOR_UINT: Type := 12
  const FBT_VECTOR_FLOAT: Type := 13
  const FBT_VECTOR_KEY: Type := 14
  const FBT_VECTOR_STRING_DEPRECATED: Type := 15
  const FBT_VECTOR_INT2: Type := 16
  const FBT_VECTOR_FLOAT4: Type := 24
  const FBT_BLOB: Type := 25
  const FBT_BOOL: Type := 26
  const FBT_VECTOR_BOOL: Type := 36
  const FBT_MAX_TYPE: Type := 37

  predicate IsInline(t: Type) {
    t <= FBT_FLOAT || t == FBT_BOOL
  }

  predicate IsTypedVectorElementType(t: Type) {
    FBT_INT <= t <= FBT_STRING || t == FBT_BOOL
  }

  predicate IsTypedVector(t: Type) {
    FBT_VECTOR_INT <= t <= FBT_VECTOR_STRING_DEPRECATED || t == FBT_VECTOR_BOOL
  }

  predicate IsFixedTypedVector(t: Type) {
    FBT_VECTOR_INT2 <= t <= FBT_VECTOR_FLOAT4
  }

  function ToTypedVector(t: Type): Type
    requires IsTypedVectorElementType(t)
  {
    t - FBT_INT + FBT_VECTOR_INT
  }

  /** Three element types for each length, starting from length 2. */
  function ToFixedTypedVector(t: Type, len: nat): Type
    requires FBT_INT <= t <= FBT_FLOAT && 2 <= len <= 4
  {
    t - FBT_INT + FBT_VECTOR_INT2 + 3 * (len - 2)
  }

  function ToFixedTypedVectorElementType(t: Type): (r: (Type, nat))
    requires IsFixedTypedVector(t)
    ensures FBT_INT <= r.0 <= FBT_FLOAT && 2 <= r.1 <= 4 && ToFixedTypedVector(r.0, r.1) == t
  {
    var fixedType := t - FBT_VECTOR_INT2;
    (fixedType % 3 + FBT_INT, fixedType / 3 + 2)
  }

  // ----- Widths -----

  /** Base-two logarithm of a width, as stored in the low two bits of a packed type. */
  type BitWidth = b: int | 0 <= b <= 3

  function ByteWidth(b: BitWidth): Width {
    if b == 0 then 1 else if b == 1 then 2 else if b == 2 then 4 else 8
  }

  function WidthU(u: nat): BitWidth {
    if u < 0x100 then 0 else if u < 0x1_0000 then 1 else if u < U32 then 2 else 3
  }

  /** The original tests `u & ~((1 << width) - 1)`; on 64-bit words this is WidthU's test. */
  lemma WidthMask(u: bv64)
    ensures u & !0xFF == 0 <==> u < 0x100
    ensures u & !0xFFFF == 0 <==> u < 0x1_0000
    ensures u & !0xFFFF_FFFF == 0 <==> u < 0x1_0000_0000
  {
  }

  predicate IsInt64(i: int) {
    -0x8000_0000_0000_0000 <= i < 0x8000_0000_0000_0000
  }

  /** Shift the sign out, complement if negative, and measure what is left. */
  function WidthI(i: int): BitWidth
    requires IsInt64(i)
  {
    var u := 2 * ToUint64(i) % U64;
    WidthU(if i >= 0 then u else U64 - 1 - u)
  }

  /** WidthU and WidthI choose the smallest width that holds the value. */
  lemma WidthUIsLeast(u: nat, b: BitWidth)
    requires u < U64
    ensures WidthU(u) <= b <==> u < Capacity(ByteWidth(b))
  {
  }

  lemma WidthIIsLeast(i: int, b: BitWidth)
    requires IsInt64(i)
    ensures WidthI(i) <= b <==> -(Capacity(ByteWidth(b)) / 2) <= i < Capacity(ByteWidth(b)) / 2
  {
    if i >= 0 {
      assert 2 * ToUint64(i) % U64 == 2 * i;
    } else {
      assert 2 * ToUint64(i) == 2 * i + 2 * U64;
      assert 2 * ToUint64(i) % U64 == if 2 * i + U64 == 0 then 0 else 2 * i + U64;
      assert U64 - 1 - 2 * ToUint64(i) % U64 == -2 * i - 1;
    }
  }

  // ----- Reading -----

  /** data: where the element is stored; parentWidth: how wide it is stored; byteWidth: the width
      of what an offset leads to. */
  datatype Reference = Reference(data: nat, parentWidth: Width, byteWidth: Width, type_: Type)

  function PackedType(b: BitWidth, t: Type): byte {
    b + 4 * t
  }

  function FromPacked(data: nat, parentWidth: Width, packed: byte): Reference {
    Reference(data, parentWidth, ByteWidth(packed % 4), packed / 4)
  }

  lemma PackedTypeBits(b: bv8, t: bv8)
    requires b < 4 && t < 64
    ensures b | (t << 2) == b + 4 * t && (b | (t << 2)) & 3 == b && (b | (t << 2)) >> 2 == t
  {
  }

  const NULL_REFERENCE := FromPacked(0, 1, PackedType(0, FBT_NULL))

  function ReadInt64(buf: seq<byte>, at: nat, w: Width): int
    requires at + w <= |buf|
  {
    Signed(ReadUnsigned(buf, at, w), w)
  }

  /** Where an element that stores an offset points to; below zero if corrupt. */
  function Indirect(buf: seq<byte>, r: Reference): int
    requires r.data + r.parentWidth <= |buf|
  {
    r.data - ReadUnsigned(buf, r.data, r.parentWidth)
  }

  /** The size field stored just before a sized object. */
  function ReadSize(buf: seq<byte>, loc: nat, w: Width): nat
    requires w <= loc <= |buf|
  {
    ReadUnsigned(buf, loc - w, w)
  }

  /** Past the end there is null. */
  function VectorElement(buf: seq<byte>, loc: nat, w: Width, i: nat): (r: Reference)
    requires w <= loc <= |buf| && loc + Times(ReadSize(buf, loc, w), w) + ReadSize(buf, loc, w) <= |buf|
    ensures i >= ReadUnsigned(buf, loc - w, w) ==> r == Reference(0, 1, 1, 0)
  {
    var len := ReadSize(buf, loc, w);
    if i >= len then NULL_REFERENCE
    else FromPacked(loc + Times(i, w), w, buf[loc + Times(len, w) + i])
  }

  /** Elements of a typed vector all have the vector's type; strings are read as keys. */
  function TypedElement(loc: nat, w: Width, elementType: Type, i: nat): Reference {
    Reference(loc + Times(i, w), w, 1, if elementType == FBT_STRING then FBT_KEY else elementType)
  }

  /** Position of the key vector of the map at loc, and its width. */
  function MapKeys(buf: seq<byte>, loc: nat, w: Width): (int, nat)
    requires 3 * w <= loc <= |buf|
  {
    (loc - 3 * w - ReadUnsigned(buf, loc - 3 * w, w), ReadUnsigned(buf, loc - 2 * w, w) % 256)
  }

  /** The element under which a finished buffer stores its root; the last byte is its width. */
  function GetRoot(buf: seq<byte>): Reference
    requires 2 <= |buf| && IsWidth(buf[|buf| - 1]) && buf[|buf| - 1] + 2 <= |buf|
  {
    var w: Width := buf[|buf| - 1];
    FromPacked(|buf| - 2 - w, w, buf[|buf| - 2])
  }
}
