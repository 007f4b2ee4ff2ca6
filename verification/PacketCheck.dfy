/** The check a session makes of a packet: exactly which bytes it accepts, and what the accessors of the
    packet may rely on. */
module PacketCheck {
  import opened Bytes
  import opened FlatFormat
  import opened FlatVerifier
  import opened FlatWellFormed
  import opened ClientMessages

  /** `VerifyPacketBuffer` with the verifier's default options. */
  predicate VerifyPacketBuffer(data: seq<byte>) {
    ClientIsSchema();
    VerifyBuffer(Config(data, 64, 1000000, true), CLIENT, PACKET, None, 0).ok
  }

  // ----- What is accepted, offset by offset -----

  /** A table starts at p: a word that leads to a vtable inside. */
  predicate TableStart(buf: seq<byte>, p: nat) {
    p % 4 == 0 && p + 4 <= |buf| && 4 < |buf| && VTableFor(buf, true, p)
  }

  /** The string field of the table at p is null, or leads to a string inside. */
  predicate StringOrNull(buf: seq<byte>, p: nat, field: nat)
    requires HasVTable(buf, p) && IsField(field)
  {
    var e := GetOptionalFieldOffset(buf, p, field);
    e != 0 ==> OffsetAt(buf, true, p + e) && StringAt(buf, true, Follow(buf, p + e))
  }

  /** The number of the table's type, 0 if it is not given. */
  function TypeOf(buf: seq<byte>, p: nat): nat
    requires HasVTable(buf, p)
    requires var e := GetOptionalFieldOffset(buf, p, 4); e != 0 ==> p + e < |buf|
  {
    var e := GetOptionalFieldOffset(buf, p, 4); if e != 0 then buf[p + e] else 0
  }

  /** The table at q of a packet of this type: two strings, nothing, or a number of two bytes. */
  predicate RequestAt(buf: seq<byte>, type_: nat, q: nat) {
    && (1 <= type_ <= 3 ==> TableStart(buf, q))
    && (type_ == 1 ==> StringOrNull(buf, q, 4) && StringOrNull(buf, q, 6))
    && (type_ == 3 ==>
      var e := GetOptionalFieldOffset(buf, q, 4); e != 0 ==> (q + e) % 2 == 0 && q + e + 2 <= |buf|)
  }

  predicate PacketAt(buf: seq<byte>, p: nat) {
    && TableStart(buf, p)
    && var e, f := GetOptionalFieldOffset(buf, p, 4), GetOptionalFieldOffset(buf, p, 6);
       && (e != 0 ==> p + e < |buf|)
       && (f != 0 ==> OffsetAt(buf, true, p + f) && RequestAt(buf, TypeOf(buf, p), Follow(buf, p + f)))
  }

  lemma VTableThere(buf: seq<byte>, p: nat)
    requires VTableFor(buf, true, p)
    ensures HasVTable(buf, p)
  {
  }

  lemma StringFieldExact(buf: seq<byte>, schema: Schema, f: Field, p: nat, n: nat)
    requires IsSchema(schema) && IsSchemaField(schema, f) && HasVTable(buf, p)
    requires f.type_.StringField? && !f.required
    ensures FieldWellFormed(buf, true, schema, f, p, n) <==> StringOrNull(buf, p, f.id)
  {
  }

  lemma NumberFieldExact(buf: seq<byte>, schema: Schema, f: Field, p: nat, n: nat)
    requires IsSchema(schema) && IsSchemaField(schema, f) && HasVTable(buf, p)
    requires f.type_ == Scalar(2) && !f.required && 2 < |buf|
    ensures FieldWellFormed(buf, true, schema, f, p, n) <==>
      var e := GetOptionalFieldOffset(buf, p, f.id); e != 0 ==> (p + e) % 2 == 0 && p + e + 2 <= |buf|
  {
  }

  /** The tables of the three types of packets. */
  lemma RequestExact(buf: seq<byte>, type_: nat, q: nat, n: nat)
    requires 1 <= type_ <= 3 && n > 0 && IsSchema(CLIENT)
    ensures TableWellFormed(buf, true, CLIENT, type_, q, n) <==> RequestAt(buf, type_, q)
  {
    hide VTableFor, OffsetAt, StringOrNull, StringAt, HasVTable, GetOptionalFieldOffset, FieldWellFormed, IsSchema;
    if TableStart(buf, q) {
      VTableThere(buf, q);
      var fields := CLIENT[type_];
      if type_ == 1 {
        assert fields[0].id == 4 && fields[1].id == 6;
        StringFieldExact(buf, CLIENT, fields[0], q, n - 1);
        StringFieldExact(buf, CLIENT, fields[1], q, n - 1);
      } else if type_ == 3 {
        assert fields[0].id == 4;
        NumberFieldExact(buf, CLIENT, fields[0], q, n - 1);
      }
    }
  }

  // ----- The packet around it -----

  lemma TypeExact(buf: seq<byte>, p: nat, n: nat)
    requires IsSchema(CLIENT) && HasVTable(buf, p) && 4 < |buf|
    ensures FieldWellFormed(buf, true, CLIENT, CLIENT[0][0], p, n) <==>
      var e := GetOptionalFieldOffset(buf, p, 4); e != 0 ==> p + e < |buf|
  {
    hide HasVTable, GetOptionalFieldOffset, IsSchema, TargetWellFormed;
    assert CLIENT[0][0] == Field(4, Scalar(1), false);
  }

  lemma TypeRead(buf: seq<byte>, p: nat)
    requires HasVTable(buf, p)
    requires var e := GetOptionalFieldOffset(buf, p, 4); e != 0 ==> p + e < |buf|
    ensures FieldInside(buf, p, 4, 1) && GetField(buf, p, 4, 1, 0) == TypeOf(buf, p)
  {
    var e := GetOptionalFieldOffset(buf, p, 4);
    if e != 0 {
      assert ReadUnsigned(buf, p + e, 1) == buf[p + e] + 256 * ReadUnsigned(buf, p + e + 1, 0);
    }
  }

  /** What the table offset leads to is verified as the type says. */
  lemma UnionExact(buf: seq<byte>, p: nat, q: nat, n: nat)
    requires n > 0 && IsSchema(CLIENT) && HasVTable(buf, p)
    requires var e := GetOptionalFieldOffset(buf, p, 4); e != 0 ==> p + e < |buf|
    ensures TargetWellFormed(buf, true, CLIENT, UnionField(4, map[1 := 1, 2 := 2, 3 := 3]), p, q, n)
      <==> RequestAt(buf, TypeOf(buf, p), q)
  {
    hide HasVTable, GetOptionalFieldOffset, IsSchema, RequestAt, TableWellFormed, TypeOf, FieldInside, GetField;
    TypeRead(buf, p);
    var type_ := TypeOf(buf, p);
    if 1 <= type_ <= 3 {
      RequestExact(buf, type_, q, n);
    } else {
      NoRequest(buf, type_, q);
    }
  }

  lemma NoRequest(buf: seq<byte>, type_: nat, q: nat)
    requires !(1 <= type_ <= 3)
    ensures RequestAt(buf, type_, q)
  {
  }

  lemma OffsetExactly(buf: seq<byte>, p: nat, n: nat)
    requires IsSchema(CLIENT) && HasVTable(buf, p)
    ensures FieldWellFormed(buf, true, CLIENT, CLIENT[0][1], p, n) <==>
      var f := GetOptionalFieldOffset(buf, p, 6);
      f != 0 ==>
        && OffsetAt(buf, true, p + f)
        && TargetWellFormed(buf, true, CLIENT, UnionField(4, map[1 := 1, 2 := 2, 3 := 3]), p, Follow(buf, p + f), n)
  {
    hide HasVTable, GetOptionalFieldOffset, IsSchema, TargetWellFormed;
    assert CLIENT[0][1] == Field(6, UnionField(4, map[1 := 1, 2 := 2, 3 := 3]), false);
  }

  lemma PacketExact(buf: seq<byte>, p: nat, n: nat)
    requires n >= 2 && IsSchema(CLIENT) && 4 < |buf|
    ensures TableWellFormed(buf, true, CLIENT, 0, p, n) <==> PacketAt(buf, p)
  {
    hide VTableFor, OffsetAt, HasVTable, GetOptionalFieldOffset, IsSchema, RequestAt, FieldWellFormed, TypeOf, Follow,
      TargetWellFormed;
    if TableStart(buf, p) {
      VTableThere(buf, p);
      assert |CLIENT[0]| == 2;
      TypeExact(buf, p, n - 1);
      OffsetExactly(buf, p, n - 1);
      var e, f := GetOptionalFieldOffset(buf, p, 4), GetOptionalFieldOffset(buf, p, 6);
      if (e != 0 ==> p + e < |buf|) && f != 0 && OffsetAt(buf, true, p + f) {
        FollowInside(buf, p + f);
        UnionExact(buf, p, Follow(buf, p + f), n - 1);
      }
    }
  }

  lemma FollowInside(buf: seq<byte>, p: nat)
    requires OffsetAt(buf, true, p)
    ensures p + 4 <= |buf|
  {
  }

  lemma {:induction false} NoSubTables(buf: seq<byte>, aligned: bool, schema: Schema, t: nat, i: nat, p: nat, n: nat)
    requires IsSchema(schema) && t < |schema| && i <= |schema[t]| && HasVTable(buf, p)
    requires FieldsWellFormed(buf, aligned, schema, t, i, p, n)
    requires forall k :: 0 <= k < |schema[t]| ==> schema[t][k].type_.Scalar? || schema[t][k].type_.StringField?
    ensures TablesOfFields(buf, aligned, schema, t, i, p, n) == 0
    decreases |schema[t]| - i
  {
    hide HasVTable, FieldWellFormed, GetOptionalFieldOffset, Follow;
    if i < |schema[t]| {
      assert TablesOfField(buf, aligned, schema, schema[t][i], p, n) == 0;
      NoSubTables(buf, aligned, schema, t, i + 1, p, n);
    }
  }

  lemma RequestIsOneTable(buf: seq<byte>, aligned: bool, type_: nat, q: nat, n: nat)
    requires 1 <= type_ <= 3 && IsSchema(CLIENT) && TableWellFormed(buf, aligned, CLIENT, type_, q, n)
    ensures TablesOf(buf, aligned, CLIENT, type_, q, n) == 1
  {
    hide IsSchema, FieldWellFormed;
    NoSubTables(buf, aligned, CLIENT, type_, 0, q, n - 1);
  }

  /** A packet never has more than two tables. */
  lemma FewTables(buf: seq<byte>, aligned: bool, p: nat, n: nat)
    requires n >= 2 && IsSchema(CLIENT) && TableWellFormed(buf, aligned, CLIENT, 0, p, n)
    ensures TablesOf(buf, aligned, CLIENT, 0, p, n) <= 2
  {
    hide IsSchema, FieldWellFormed, TablesOfField;
    var schema := CLIENT;
    OneTableAtMost(buf, aligned, p, n - 1);
    assert TablesOfFields(buf, aligned, schema, 0, 2, p, n - 1) == 0;
    assert TablesOfFields(buf, aligned, schema, 0, 1, p, n - 1)
      == TablesOfField(buf, aligned, schema, CLIENT[0][1], p, n - 1);
  }

  lemma OneTableAtMost(buf: seq<byte>, aligned: bool, p: nat, n: nat)
    requires n > 0 && IsSchema(CLIENT) && HasVTable(buf, p)
    requires FieldWellFormed(buf, aligned, CLIENT, CLIENT[0][0], p, n)
    requires FieldWellFormed(buf, aligned, CLIENT, CLIENT[0][1], p, n)
    ensures TablesOfField(buf, aligned, CLIENT, CLIENT[0][0], p, n) == 0
    ensures TablesOfField(buf, aligned, CLIENT, CLIENT[0][1], p, n) <= 1
  {
    hide IsSchema, HasVTable, TableWellFormed, TablesOf, GetOptionalFieldOffset, FieldInside, GetField;
    var f := GetOptionalFieldOffset(buf, p, 6);
    var type_ := if FieldInside(buf, p, 4, 1) then GetField(buf, p, 4, 1, 0) else 0;
    if f != 0 && 1 <= type_ <= 3 {
      RequestIsOneTable(buf, aligned, type_, Follow(buf, p + f), n);
    }
  }

  /** Which bytes the session accepts, whoever sent them. */
  lemma AcceptedExactly(buf: seq<byte>)
    ensures VerifyPacketBuffer(buf) <==>
      && 12 <= |buf| && 1 <= ReadU32(buf, 0) <= 0x7FFF_FFFF && ReadU32(buf, 0) < |buf|
      && PacketAt(buf, ReadU32(buf, 0))
  {
    hide PacketAt, TableWellFormed, TablesOf, VerifyBuffer, IsSchema;
    ClientIsSchema();
    var c := Config(buf, 64, 1000000, true);
    VerifiesExactly(c, CLIENT, PACKET, None, 0);
    if BufferWellFormed(buf, true, CLIENT, PACKET, None, 0, c.maxDepth) {
      FewTables(buf, true, Follow(buf, 0), c.maxDepth);
    }
    if 12 <= |buf| {
      PacketExact(buf, Follow(buf, 0), c.maxDepth);
    }
  }

  // ----- What the session may rely on -----

  /** The field can be read, and if it is not null the string's length, characters and terminator. */
  predicate SafeStringOrNull(buf: seq<byte>, p: nat, field: nat) {
    && FieldInside(buf, p, field, 4)
    && var s := GetPointer(buf, p, field);
    && (s.Some? ==>
          && s.value + 4 <= |buf| && s.value + 4 + ReadU32(buf, s.value) < |buf|
          && buf[s.value + 4 + ReadU32(buf, s.value)] == 0)
  }

  /** Of an accepted packet the type and the table can be read; of a login request both strings, as far as
      they are given; of a request to connect the number. */
  lemma AcceptedIsSafe(buf: seq<byte>)
    requires VerifyPacketBuffer(buf)
    ensures 4 <= |buf|
    ensures var p := GetRoot(buf, 0);
      && FieldInside(buf, p, 4, 1) && FieldInside(buf, p, 6, 4)
      && (GetPointer(buf, p, 6).Some? ==>
            var q, type_ := GetPointer(buf, p, 6).value, GetField(buf, p, 4, 1, 0);
            && (type_ == 1 ==> SafeStringOrNull(buf, q, 4) && SafeStringOrNull(buf, q, 6))
            && (type_ == 2 ==> HasVTable(buf, q))
            && (type_ == 3 ==> FieldInside(buf, q, 4, 2)))
  {
    hide VerifyPacketBuffer, HasVTable, GetOptionalFieldOffset, RequestAt, VTableFor, GetField, TypeOf,
      SafeStringOrNull;
    AcceptedExactly(buf);
    var p := GetRoot(buf, 0);
    VTableThere(buf, p);
    TypeRead(buf, p);
    if GetOptionalFieldOffset(buf, p, 6) != 0 {
      var q, type_ := GetPointer(buf, p, 6).value, TypeOf(buf, p);
      RequestIsSafe(buf, type_, q);
    }
  }

  lemma RequestIsSafe(buf: seq<byte>, type_: nat, q: nat)
    requires RequestAt(buf, type_, q)
    ensures type_ == 1 ==> SafeStringOrNull(buf, q, 4) && SafeStringOrNull(buf, q, 6)
    ensures type_ == 2 ==> HasVTable(buf, q)
    ensures type_ == 3 ==> FieldInside(buf, q, 4, 2)
  {
    hide HasVTable, GetOptionalFieldOffset, VTableFor, ReadUnsigned;
    if 1 <= type_ <= 3 {
      VTableThere(buf, q);
    }
  }

  // ----- Some packets -----

  /** Twelve bytes whose root, a table without fields at 6, is misaligned: refused, and for that alone. */
  lemma MisalignedRefused(buf: seq<byte>)
    requires buf == [6, 0, 0, 0, 4, 0, 2, 0, 0, 0, 0, 0]
    ensures !VerifyPacketBuffer(buf)
    ensures IsSchema(CLIENT) && VerifyBuffer(Config(buf, 64, 1000000, false), CLIENT, PACKET, None, 0).ok
  {
    hide VerifyPacketBuffer, VTableFor, VerifyBuffer, TableWellFormed, TablesOf, ReadUnsigned, IsSchema;
    AcceptedExactly(buf);
    FourBytes(buf, 0);
    ClientIsSchema();
    var c := Config(buf, 64, 1000000, false);
    VerifiesExactly(c, CLIENT, PACKET, None, 0);
    BareTable(buf, c.maxDepth);
    FewTables(buf, false, 6, c.maxDepth);
  }

  lemma BareTable(buf: seq<byte>, n: nat)
    requires buf == [6, 0, 0, 0, 4, 0, 2, 0, 0, 0, 0, 0] && n > 0 && IsSchema(CLIENT)
    ensures TableWellFormed(buf, false, CLIENT, 0, 6, n)
  {
    hide ReadUnsigned, IsSchema, FieldWellFormed, GetOptionalFieldOffset;
    FourBytes(buf, 6);
    TwoBytes(buf, 4);
    forall i | 0 <= i < |CLIENT[0]| {
      NotThere(buf, CLIENT, CLIENT[0][i], 6, n - 1);
    }
  }

  lemma NotThere(buf: seq<byte>, schema: Schema, f: Field, p: nat, n: nat)
    requires IsSchema(schema) && IsSchemaField(schema, f) && HasVTable(buf, p) && !f.required
    requires ReadU16(buf, GetVTable(buf, p)) == 4
    ensures FieldWellFormed(buf, false, schema, f, p, n)
  {
  }

  /** A table at p whose vtable, of a given size, is at v: from its bytes. */
  lemma StartOf(buf: seq<byte>, p: nat, v: nat, size: nat)
    requires v < p && p + 4 <= |buf| && p % 4 == 0 && v % 2 == 0 && size % 2 == 0 && v + size <= p && 2 <= size
    requires buf[p] == p - v && buf[p + 1] == buf[p + 2] == buf[p + 3] == 0 && buf[v] == size && buf[v + 1] == 0
    ensures TableStart(buf, p) && HasVTable(buf, p)
  {
    FourBytes(buf, p);
    TwoBytes(buf, v);
  }

  /** Reading the entry of a field from a table's first word and its vtable. */
  lemma EntryOf(buf: seq<byte>, p: nat, v: nat, field: nat, e: nat)
    requires HasVTable(buf, p) && IsField(field) && v < p && p + 4 <= |buf| && v + field + 2 <= |buf|
    requires buf[p] == p - v && buf[p + 1] == buf[p + 2] == buf[p + 3] == 0
    requires field < buf[v] && buf[v + 1] == 0 && buf[v + field] == e && buf[v + field + 1] == 0
    ensures GetVTable(buf, p) == v && GetOptionalFieldOffset(buf, p, field) == e
  {
    hide HasVTable;
    FourBytes(buf, p);
    TwoBytes(buf, v);
    TwoBytes(buf, v + field);
  }

  /** A login request whose password is 2 GB away: the root offset, the packet's vtable, the packet, the
      request's vtable, and the request. */
  lemma FarPasswordRefused(buf: seq<byte>)
    requires buf == [12, 0, 0, 0] + [8, 0, 9, 0, 8, 0, 4, 0] + [8, 0, 0, 0, 16, 0, 0, 0, 1, 0, 0, 0]
             + [8, 0, 8, 0, 0, 0, 4, 0] + [8, 0, 0, 0, 255, 255, 255, 127]
    ensures !VerifyPacketBuffer(buf)
  {
    hide VerifyPacketBuffer, PacketAt, RequestAt, ReadUnsigned;
    AcceptedExactly(buf);
    FourBytes(buf, 0);
    assert buf[4..12] == [8, 0, 9, 0, 8, 0, 4, 0] && buf[12..24] == [8, 0, 0, 0, 16, 0, 0, 0, 1, 0, 0, 0];
    assert buf[24..32] == [8, 0, 8, 0, 0, 0, 4, 0] && buf[32..] == [8, 0, 0, 0, 255, 255, 255, 127];
    if VerifyPacketBuffer(buf) {
      FarRequest(buf, buf[4..12], buf[12..24]);
      FarPassword(buf, buf[24..32], buf[32..]);
    }
  }

  lemma FarRequest(buf: seq<byte>, vtable: seq<byte>, table: seq<byte>)
    requires |buf| == 40 && vtable == buf[4..12] == [8, 0, 9, 0, 8, 0, 4, 0]
    requires table == buf[12..24] == [8, 0, 0, 0, 16, 0, 0, 0, 1, 0, 0, 0] && PacketAt(buf, 12)
    ensures RequestAt(buf, 1, 32)
  {
    hide VTableFor, RequestAt, HasVTable, GetVTable, GetOptionalFieldOffset, ReadUnsigned;
    assert forall i :: 4 <= i < 12 ==> buf[i] == vtable[i - 4];
    assert forall i :: 12 <= i < 24 ==> buf[i] == table[i - 12];
    VTableThere(buf, 12);
    EntryOf(buf, 12, 4, 4, 8);
    EntryOf(buf, 12, 4, 6, 4);
    FourBytes(buf, 16);
  }

  lemma FarPassword(buf: seq<byte>, vtable: seq<byte>, table: seq<byte>)
    requires |buf| == 40 && vtable == buf[24..32] == [8, 0, 8, 0, 0, 0, 4, 0]
    requires table == buf[32..] == [8, 0, 0, 0, 255, 255, 255, 127]
    ensures !RequestAt(buf, 1, 32)
  {
    hide VTableFor, RequestAt, HasVTable, GetVTable, GetOptionalFieldOffset, ReadUnsigned, StringAt;
    assert forall i :: 24 <= i < 32 ==> buf[i] == vtable[i - 24];
    assert forall i :: 32 <= i < 40 ==> buf[i] == table[i - 32];
    if RequestAt(buf, 1, 32) {
      PasswordOf(buf, 32);
      EntryOf(buf, 32, 24, 6, 4);
      FourBytes(buf, 36);
      assert false;
    }
  }

  lemma PasswordOf(buf: seq<byte>, q: nat)
    requires RequestAt(buf, 1, q)
    ensures HasVTable(buf, q) && StringOrNull(buf, q, 6)
  {
    VTableThere(buf, q);
  }

  /** What a new builder makes of a login request with the id a and the password b: the root offset, the packet's
      vtable, the packet, the request's vtable, the request, and the two strings. */
  lemma LoginBytes(buf: seq<byte>)
    requires buf == ([12, 0, 0, 0] + [8, 0, 12, 0, 7, 0, 8, 0] + [8, 0, 0, 0, 0, 0, 0, 1, 12, 0, 0, 0])
             + ([8, 0, 12, 0, 4, 0, 8, 0] + [8, 0, 0, 0, 16, 0, 0, 0, 4, 0, 0, 0])
             + ([1, 0, 0, 0, 0x62, 0, 0, 0] + [1, 0, 0, 0, 0x61, 0, 0, 0])
    ensures VerifyPacketBuffer(buf) && LoginReads(buf, 32, Some([0x61]), Some([0x62]))
  {
    hide VerifyPacketBuffer, PacketAt, RequestAt, ReadUnsigned, StringFieldReads, PacketReads;
    assert buf[4..12] == [8, 0, 12, 0, 7, 0, 8, 0] && buf[12..24] == [8, 0, 0, 0, 0, 0, 0, 1, 12, 0, 0, 0];
    assert buf[24..32] == [8, 0, 12, 0, 4, 0, 8, 0] && buf[32..44] == [8, 0, 0, 0, 16, 0, 0, 0, 4, 0, 0, 0];
    assert buf[44..52] == [1, 0, 0, 0, 0x62, 0, 0, 0] && buf[52..60] == [1, 0, 0, 0, 0x61, 0, 0, 0];
    AcceptedExactly(buf);
    FourBytes(buf, 0);
    LoginStrings(buf, buf[24..32], buf[32..44], buf[44..52], buf[52..60]);
    LoginRoot(buf, buf[4..12], buf[12..24]);
  }

  lemma LoginRoot(buf: seq<byte>, vtable: seq<byte>, table: seq<byte>)
    requires |buf| == 60 && vtable == buf[4..12] == [8, 0, 12, 0, 7, 0, 8, 0]
    requires table == buf[12..24] == [8, 0, 0, 0, 0, 0, 0, 1, 12, 0, 0, 0] && RequestAt(buf, 1, 32)
    ensures PacketAt(buf, 12) && PacketReads(buf, 12, 1, 32)
  {
    hide VTableFor, RequestAt, HasVTable, GetVTable, GetOptionalFieldOffset, ReadUnsigned, TableStart, OffsetAt, Follow;
    assert forall i :: 4 <= i < 12 ==> buf[i] == vtable[i - 4];
    assert forall i :: 12 <= i < 24 ==> buf[i] == table[i - 12];
    StartOf(buf, 12, 4, 8);
    EntryOf(buf, 12, 4, 4, 7);
    EntryOf(buf, 12, 4, 6, 8);
    OffsetFrom(buf, 20, 12);
    TypeRead(buf, 12);
  }

  /** An offset at p that leads d on. */
  lemma OffsetFrom(buf: seq<byte>, p: nat, d: nat)
    requires p % 4 == 0 && 0 < d && p + 4 <= |buf| && p + d < |buf| && 4 < |buf|
    requires buf[p] == d && buf[p + 1] == buf[p + 2] == buf[p + 3] == 0
    ensures OffsetAt(buf, true, p) && Follow(buf, p) == p + d
  {
    FourBytes(buf, p);
  }

  lemma LoginStrings(buf: seq<byte>, vtable: seq<byte>, table: seq<byte>, password: seq<byte>, id: seq<byte>)
    requires |buf| == 60 && vtable == buf[24..32] == [8, 0, 12, 0, 4, 0, 8, 0]
    requires table == buf[32..44] == [8, 0, 0, 0, 16, 0, 0, 0, 4, 0, 0, 0]
    requires password == buf[44..52] == [1, 0, 0, 0, 0x62, 0, 0, 0] && id == buf[52..60] == [1, 0, 0, 0, 0x61, 0, 0, 0]
    ensures RequestAt(buf, 1, 32)
    ensures StringFieldReads(buf, 32, 4, Some([0x61])) && StringFieldReads(buf, 32, 6, Some([0x62]))
  {
    hide VTableFor, HasVTable, GetVTable, GetOptionalFieldOffset, ReadUnsigned, TableStart, StringAt, OffsetAt,
      StringOrNull, StringFieldReads, GetString, Follow;
    LoginTable(buf, vtable, table);
    LoginText(buf, table, password, id);
    FieldFrom(buf, 32, 4, 4, 0x61);
    FieldFrom(buf, 32, 6, 8, 0x62);
  }

  lemma LoginTable(buf: seq<byte>, vtable: seq<byte>, table: seq<byte>)
    requires |buf| == 60 && vtable == buf[24..32] == [8, 0, 12, 0, 4, 0, 8, 0]
    requires table == buf[32..44] == [8, 0, 0, 0, 16, 0, 0, 0, 4, 0, 0, 0]
    ensures TableStart(buf, 32) && HasVTable(buf, 32)
    ensures GetOptionalFieldOffset(buf, 32, 4) == 4 && GetOptionalFieldOffset(buf, 32, 6) == 8
  {
    hide VTableFor, HasVTable, GetVTable, GetOptionalFieldOffset, ReadUnsigned, TableStart;
    assert forall i :: 24 <= i < 32 ==> buf[i] == vtable[i - 24];
    assert forall i :: 32 <= i < 44 ==> buf[i] == table[i - 32];
    StartOf(buf, 32, 24, 8);
    EntryOf(buf, 32, 24, 4, 4);
    EntryOf(buf, 32, 24, 6, 8);
  }

  lemma LoginText(buf: seq<byte>, table: seq<byte>, password: seq<byte>, id: seq<byte>)
    requires |buf| == 60 && table == buf[32..44] == [8, 0, 0, 0, 16, 0, 0, 0, 4, 0, 0, 0]
    requires password == buf[44..52] == [1, 0, 0, 0, 0x62, 0, 0, 0] && id == buf[52..60] == [1, 0, 0, 0, 0x61, 0, 0, 0]
    ensures IsOffsetTo(buf, 36, [0x61]) && IsOffsetTo(buf, 40, [0x62])
  {
    hide ReadUnsigned, StringAt, OffsetAt, Follow, GetString;
    assert forall i :: 32 <= i < 44 ==> buf[i] == table[i - 32];
    assert forall i :: 44 <= i < 52 ==> buf[i] == password[i - 44];
    assert forall i :: 52 <= i < 60 ==> buf[i] == id[i - 52];
    StringFrom(buf, 36, 16, 0x61);
    StringFrom(buf, 40, 4, 0x62);
  }

  /** The offset at p leads to the string s. */
  predicate IsOffsetTo(buf: seq<byte>, p: nat, s: seq<byte>) {
    && OffsetAt(buf, true, p) && StringAt(buf, true, Follow(buf, p))
    && Follow(buf, p) + 4 <= |buf| && Follow(buf, p) + 4 + ReadU32(buf, Follow(buf, p)) <= |buf|
    && GetString(buf, Follow(buf, p)) == s
  }

  lemma FieldFrom(buf: seq<byte>, p: nat, field: nat, e: nat, c: byte)
    requires HasVTable(buf, p) && IsField(field) && GetOptionalFieldOffset(buf, p, field) == e > 0
    requires IsOffsetTo(buf, p + e, [c])
    ensures StringOrNull(buf, p, field) && StringFieldReads(buf, p, field, Some([c]))
  {
    hide HasVTable, GetOptionalFieldOffset, ReadUnsigned;
  }

  /** An offset at p that leads d on, to a string of one byte. */
  lemma StringFrom(buf: seq<byte>, p: nat, d: nat, c: byte)
    requires p % 4 == 0 && d % 4 == 0 && 0 < d && p + d + 6 <= |buf| && p + 4 <= |buf|
    requires buf[p] == d && buf[p + 1] == buf[p + 2] == buf[p + 3] == 0
    requires buf[p + d] == 1 && buf[p + d + 1] == buf[p + d + 2] == buf[p + d + 3] == 0
    requires buf[p + d + 4] == c && buf[p + d + 5] == 0
    ensures IsOffsetTo(buf, p, [c])
  {
    OffsetFrom(buf, p, d);
    FourBytes(buf, p + d);
  }
}
