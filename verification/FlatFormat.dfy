/** The FlatBuffers wire format as its accessors read it: tables through their vtables, vectors and
    strings behind their lengths, offsets relative to where they are stored.  A pointer is a
    position in the buffer. */
module FlatFormat {
  import opened Bytes
  import opened Widths

  /** A vtable offset of a field: two 16-bit entries come before the first. */
  predicate IsField(field: nat) {
    4 <= field && field % 2 == 0
  }

  function Signed32(v: nat): (i: int)
    ensures v < 0x1_0000_0000 ==> -0x8000_0000 <= i < 0x8000_0000 && (i == v || i == v - 0x1_0000_0000)
  {
    if v < 0x8000_0000 then v else v - U32
  }

  function ReadU16(buf: seq<byte>, at: nat): nat
    requires at + 2 <= |buf|
  {
    ReadUnsigned(buf, at, 2)
  }

  function ReadU32(buf: seq<byte>, at: nat): nat
    requires at + 4 <= |buf|
  {
    ReadUnsigned(buf, at, 4)
  }

  // ----- Tables -----

  function GetVTable(buf: seq<byte>, table: nat): int
    requires table + 4 <= |buf|
  {
    table - Signed32(ReadU32(buf, table))
  }

  /** The vtable of the table lies inside buf. */
  predicate HasVTable(buf: seq<byte>, table: nat) {
    && table + 4 <= |buf|
    && 0 <= GetVTable(buf, table) && GetVTable(buf, table) + 2 <= |buf|
    && ReadU16(buf, GetVTable(buf, table)) % 2 == 0
    && GetVTable(buf, table) + ReadU16(buf, GetVTable(buf, table)) <= |buf|
  }

  /** Where in the table a field is, or 0 if the vtable does not have it. */
  function GetOptionalFieldOffset(buf: seq<byte>, table: nat, field: nat): nat
    requires HasVTable(buf, table) && IsField(field)
  {
    var vtable := GetVTable(buf, table);
    if field < ReadU16(buf, vtable) then ReadU16(buf, vtable + field) else 0
  }

  /** A field of n bytes, if there, is inside buf. */
  predicate FieldInside(buf: seq<byte>, table: nat, field: nat, n: nat) {
    && HasVTable(buf, table) && IsField(field)
    && (GetOptionalFieldOffset(buf, table, field) != 0 ==>
          table + GetOptionalFieldOffset(buf, table, field) + n <= |buf|)
  }

  function GetField(buf: seq<byte>, table: nat, field: nat, w: Width, default: nat): nat
    requires FieldInside(buf, table, field, w)
  {
    var fieldOffset := GetOptionalFieldOffset(buf, table, field);
    if fieldOffset != 0 then ReadUnsigned(buf, table + fieldOffset, w) else default
  }

  function GetPointer(buf: seq<byte>, table: nat, field: nat): Option<nat>
    requires FieldInside(buf, table, field, 4)
  {
    var fieldOffset := GetOptionalFieldOffset(buf, table, field);
    if fieldOffset != 0 then Some(Follow(buf, table + fieldOffset)) else None
  }

  /** Where the offset stored at p leads. */
  function Follow(buf: seq<byte>, p: nat): nat
    requires p + 4 <= |buf|
  {
    p + ReadU32(buf, p)
  }

  // ----- Vectors and strings -----

  /** `Vector::Get` of scalars. */
  function GetScalar(buf: seq<byte>, vec: nat, w: Width, i: nat): nat
    requires vec + 4 + Times(i, w) + w <= |buf|
  {
    ReadUnsigned(buf, vec + 4 + Times(i, w), w)
  }

  /** `Vector::Get` of offsets: `IndirectHelper<Offset>::Read`. */
  function GetIndirect(buf: seq<byte>, vec: nat, i: nat): nat
    requires vec + 4 + 4 * i + 4 <= |buf|
  {
    Follow(buf, vec + 4 + 4 * i)
  }

  function GetString(buf: seq<byte>, str: nat): seq<byte>
    requires str + 4 <= |buf| && str + 4 + ReadU32(buf, str) <= |buf|
  {
    buf[str + 4..str + 4 + ReadU32(buf, str)]
  }

  /** `GetRoot`, at the start of buf or after a size prefix. */
  function GetRoot(buf: seq<byte>, start: nat): nat
    requires start + 4 <= |buf|
  {
    Follow(buf, start)
  }
}
