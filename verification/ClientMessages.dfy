/** The client packets: an instance of the schema, the functions that create its tables, and a packet
    from its parts to its bytes and back. */
module ClientMessages {
  import opened Bytes
  import opened Widths
  import opened Backward
  import opened VectorDownward
  import opened FlatFormat
  import opened FlatObjects
  import opened FlatBuilder
  import opened FlatTables
  import opened FlatAccepts
  import FlatVerifier
  import FlatState

  // ----- Vtable offsets, packet types and tables -----

  const VT_TYPE_TYPE: nat := 4
  const VT_TYPE: nat := 6
  const VT_ID: nat := 4
  const VT_PASSWORD: nat := 6
  const VT_SERVER_ID: nat := 4

  const LOGIN_REQUEST: nat := 1
  const LOGOUT_REQUEST: nat := 2
  const CONNECT_SERVER_REQUEST: nat := 3

  const PACKET: nat := 0

  /** The tables other than Packet are numbered as the packet types are. */
  const CLIENT: FlatVerifier.Schema := [
    [FlatVerifier.Field(VT_TYPE_TYPE, FlatVerifier.Scalar(1), false),
     FlatVerifier.Field(VT_TYPE, FlatVerifier.UnionField(VT_TYPE_TYPE, map[1 := 1, 2 := 2, 3 := 3]), false)],
    [FlatVerifier.Field(VT_ID, FlatVerifier.StringField, false),
     FlatVerifier.Field(VT_PASSWORD, FlatVerifier.StringField, false)],
    [],
    [FlatVerifier.Field(VT_SERVER_ID, FlatVerifier.Scalar(2), false)]
  ]

  lemma ClientIsSchema()
    ensures FlatVerifier.IsSchema(CLIENT)
  {
  }

  // ----- Creating tables -----

  function LoginMembers(id: nat, password: nat): seq<Member> {
    [Pointer(VT_PASSWORD, password), Pointer(VT_ID, id)]
  }

  function PacketMembers(typeType: nat, off: nat): seq<Member> {
    [Pointer(VT_TYPE, off), Number(VT_TYPE_TYPE, 1, typeType, 0)]
  }

  /** -1 if not given. */
  function ConnectMembers(serverId: nat): seq<Member> {
    [Number(VT_SERVER_ID, 2, serverId, 0xFFFF)]
  }

  function ToUint16(i: int): nat
    requires -0x8000 <= i < 0x8000
  {
    if i < 0 then i + 0x1_0000 else i
  }

  lemma SmallTable(n: nat, ms: seq<Member>, forceDefaults: bool)
    requires |ms| <= 2
    ensures SizeAfter(n, ms, |ms|, forceDefaults) <= n + 30
  {
    if |ms| == 2 {
      assert SizeAfter(n, ms, 2, forceDefaults) <= SizeAfter(n, ms, 1, forceDefaults) + 15;
      assert SizeAfter(n, ms, 1, forceDefaults) <= SizeAfter(n, ms, 0, forceDefaults) + 15;
    }
  }

  /** A table of at most two fields. */
  method CreateSmall(b: FlatBufferBuilder, ms: seq<Member>) returns (o: nat)
    requires b.Valid() && !b.nested && !b.inTable && b.pending == [] && IsTable(ms, |b.back|) && |ms| <= 2
    requires |b.back| + 0x1_0040 < MAX_BUFFER_SIZE
    modifies b
    ensures b.Valid() && !b.nested && !b.inTable && old(b.back) <= b.back && b.pending == []
    ensures |b.back| <= |old(b.back)| + 0x1_0025 && |old(b.back)| < o <= |b.back| && FlatState.BuiltLast(b.back, o)
    ensures b.objects == old(b.objects)[o := Table(Stored(ms, b.forceDefaults))] && o !in old(b.objects)
    ensures b.forceDefaults == old(b.forceDefaults)
    ensures var size := SizeAfter(|old(b.back)|, ms, |ms|, b.forceDefaults);
      && o == size + Padding(size, 4) + 4
      && VTableGained(old(b.back), old(b.vtables), b.back, b.vtables, o, VTableSize(MaxVoffset(ms, b.forceDefaults)))
    ensures b.minalign == FlatState.Larger(AlignmentAfter(old(b.minalign), ms, b.forceDefaults), 4)
    ensures MembersPlaced(b.back, o, |old(b.back)|, ms, b.forceDefaults)
  {
    hide FlatState.Sound, MembersPlaced, Stored, SizeAfter, VTableGained, MaxVoffset, AlignmentAfter, Padding, IsTable;
    SmallTable(|b.back|, ms, b.forceDefaults);
    o := CreateTable(b, ms);
  }

  /** A string, or a null offset. */
  method CreateOptionalString(b: FlatBufferBuilder, s: Option<seq<byte>>) returns (o: nat)
    requires b.Valid() && !b.nested && !b.inTable && (s.Some? ==> |b.back| + |s.value| + 8 < MAX_BUFFER_SIZE)
    modifies b`back, b`minalign, b`objects
    ensures b.Valid() && old(b.back) <= b.back && o <= |b.back|
    ensures |b.back| <= |old(b.back)| + (if s.Some? then |s.value| + 8 else 0)
    ensures if s.Some? then 0 < o && o !in old(b.objects) && b.objects == old(b.objects)[o := Str(s.value)]
            else o == 0 && b.objects == old(b.objects)
    ensures s.Some? ==> |old(b.back)| < o
  {
    if s.Some? {
      o := b.CreateString(s.value);
    } else {
      o := 0;
    }
  }

  /** `CreateLoginRequestDirect` */
  method CreateLoginRequest(b: FlatBufferBuilder, id: Option<seq<byte>>, password: Option<seq<byte>>)
    returns (o: nat, ghost i: nat, ghost p: nat)
    requires b.Valid() && !b.nested && !b.inTable && b.pending == []
    requires |b.back| + OptionSize(id) + OptionSize(password) + 0x1_0040 < MAX_BUFFER_SIZE
    modifies b
    ensures b.Valid() && !b.nested && !b.inTable && b.pending == [] && b.forceDefaults == old(b.forceDefaults)
    ensures |b.back| <= |old(b.back)| + OptionSize(id) + OptionSize(password) + 0x1_0025
    ensures o in b.objects && b.objects[o] == Table(Stored(LoginMembers(i, p), b.forceDefaults)) && i < o && p < o
    ensures IsOptionalString(b.objects, i, id) && IsOptionalString(b.objects, p, password)
    ensures id.Some? && password.Some? ==> i < p && FieldsPlaced(b.back, o, 4, 6)
  {
    hide FlatState.Sound, Stored, SizeAfter, VTableGained, MaxVoffset, AlignmentAfter, Padding, MembersPlaced,
      FieldsPlaced;
    var idOff := CreateOptionalString(b, id);
    var passwordOff := CreateOptionalString(b, password);
    i, p := idOff, passwordOff;
    ghost var n := |b.back|;
    o := CreateSmall(b, LoginMembers(idOff, passwordOff));
    if id.Some? && password.Some? {
      OffsetsPlaced(b.back, o, n, i, p, b.forceDefaults);
    }
  }

  /** The table at o has the field f right after its first word, and then g. */
  ghost predicate FieldsPlaced(back: seq<byte>, o: nat, f: nat, g: nat) {
    && IsField(f) && IsField(g) && 4 <= o <= |back| && VTableAt(back, VTableOf(back, o))
    && Entry(back, VTableOf(back, o), f) == 4 && Entry(back, VTableOf(back, o), g) == 8
  }

  lemma FieldsPlacedGrows(a: seq<byte>, b: seq<byte>, o: nat, f: nat, g: nat)
    requires a <= b && FieldsPlaced(a, o, f, g)
    ensures IsField(f) && IsField(g) && 4 <= o <= |b| && VTableAt(b, VTableOf(b, o))
    ensures Entry(b, VTableOf(b, o), f) == 4 && Entry(b, VTableOf(b, o), g) == 8
  {
    ReadBackGrows(a, b, o, 4);
    VTableGrows(a, b, VTableOf(a, o));
  }

  /** The password is written first, so the id comes before it. */
  lemma OffsetsPlaced(back: seq<byte>, o: nat, n: nat, i: nat, p: nat, force: bool)
    requires MembersPlaced(back, o, n, LoginMembers(i, p), force) && i > 0 && p > 0
    requires var size := SizeAfter(n, LoginMembers(i, p), 2, force); o == size + Padding(size, 4) + 4
    ensures FieldsPlaced(back, o, 4, 6)
  {
    hide VTableAt, VTableOf, Entry, Padding;
    var ms := LoginMembers(i, p);
    var first := SizeAfter(n, ms, 1, force);
    assert first == n + Padding(n, 4) + 4 by {
      assert SizeAfter(n, ms, 0, force) == n;
    }
    AlignedAlready(n + Padding(n, 4));
    AlignedAlready(first);
    assert SizeAfter(n, ms, 2, force) == first + 4;
  }

  lemma AlignedAlready(n: nat)
    requires n % 4 == 0
    ensures (n + 4) % 4 == 0 && Padding(n, 4) == 0 && Padding(n + 4, 4) == 0
  {
  }

  function OptionSize(s: Option<seq<byte>>): nat {
    if s.Some? then |s.value| + 8 else 0
  }

  predicate IsOptionalString(objects: map<nat, Obj>, o: nat, s: Option<seq<byte>>) {
    if s.Some? then 0 < o && o in objects && objects[o] == Str(s.value) else o == 0
  }

  method CreateConnectServerRequest(b: FlatBufferBuilder, serverId: int) returns (o: nat)
    requires b.Valid() && !b.nested && !b.inTable && b.pending == [] && -0x8000 <= serverId < 0x8000
    requires |b.back| + 0x1_0040 < MAX_BUFFER_SIZE
    modifies b
    ensures b.Valid() && !b.nested && !b.inTable && b.pending == [] && b.forceDefaults == old(b.forceDefaults)
    ensures |b.back| <= |old(b.back)| + 0x1_0025
    ensures o in b.objects && b.objects[o] == Table(Stored(ConnectMembers(ToUint16(serverId)), b.forceDefaults))
    ensures old(b.back) == [] && old(b.vtables) == [] && old(b.minalign) == 1 && serverId != -1 ==>
      |b.back| == 14 && b.minalign == 4 && !HasVTableOf(b.back, b.vtables, 8)
  {
    hide FlatState.Sound, Stored;
    var ms := ConnectMembers(ToUint16(serverId));
    ConnectFits(serverId, |b.back|);
    o := CreateSmall(b, ms);
    if serverId != -1 {
      ConnectSize(serverId, b.forceDefaults);
    }
  }

  lemma ConnectFits(serverId: int, size: nat)
    requires -0x8000 <= serverId < 0x8000
    ensures IsTable(ConnectMembers(ToUint16(serverId)), size)
  {
  }

  /** The first table of a buffer, with a number that is not the default: two bytes, two of padding, four for
      the vtable's place. */
  lemma ConnectSize(serverId: int, force: bool)
    requires -0x8000 <= serverId < 0x8000 && serverId != -1
    ensures var ms := ConnectMembers(ToUint16(serverId));
      && SizeAfter(0, ms, 1, force) == 2 && Padding(2, 4) == 2 && MaxVoffset(ms, force) == 4
      && AlignmentAfter(1, ms, force) == 2
  {
    var ms := ConnectMembers(ToUint16(serverId));
    assert ms[..0] == [] && SizeAfter(0, ms, 0, force) == 0;
  }

  /** The packet around a table of 14 bytes, vtable included. */
  lemma PacketSize(typeType: nat, off: nat, force: bool)
    requires 1 <= typeType && 0 < off
    ensures var ms := PacketMembers(typeType, off);
      && SizeAfter(14, ms, 2, force) == 21 && Padding(21, 4) == 3 && MaxVoffset(ms, force) == 6
      && AlignmentAfter(4, ms, force) == 4
  {
    var ms := PacketMembers(typeType, off);
    assert ms[..1][..0] == [] && ms[..1] == [ms[0]];
    assert SizeAfter(14, ms, 0, force) == 14;
    assert SizeAfter(14, ms, 1, force) == 20;
    assert MaxVoffset(ms[..1], force) == 6 && AlignmentAfter(4, ms[..1], force) == 4;
  }

  lemma FinishedSize(a: seq<byte>, b: seq<byte>, root: nat)
    requires FlatState.IsFinished(a, b, 4, root, None, false) && |a| == 36
    ensures |b| == 40
  {
  }

  // ----- What the accessors of a packet give -----

  /** An optional string field of the table at p reads as s. */
  predicate StringFieldReads(buf: seq<byte>, p: nat, field: nat, s: Option<seq<byte>>) {
    && FieldInside(buf, p, field, 4)
    && var q := GetPointer(buf, p, field);
       if s.None? then q == None
       else
         && q.Some? && q.value + 4 <= |buf| && q.value + 4 + ReadU32(buf, q.value) <= |buf|
         && GetString(buf, q.value) == s.value
  }

  /** `type_as`: the packet at p is of this type, at vtable offset 4, and its table, at 6, is at the
      position given. */
  predicate PacketReads(buf: seq<byte>, p: nat, typeType: nat, q: nat) {
    && FieldInside(buf, p, 4, 1) && GetField(buf, p, 4, 1, 0) == typeType
    && FieldInside(buf, p, 6, 4) && GetPointer(buf, p, 6) == Some(q)
  }

  lemma StringFieldBack(back: seq<byte>, buf: seq<byte>, objects: map<nat, Obj>, o: nat, ms: seq<Member>, force: bool,
                        k: nat, s: Option<seq<byte>>)
    requires buf == Reversed(back) && AllAt(back, objects) && TableAt(back, o, Stored(ms, force)) && IsTable(ms, |back|)
    requires k < |ms| && ms[k].Pointer? && IsOptionalString(objects, ms[k].off, s)
    ensures StringFieldReads(buf, |buf| - o, ms[k].field, s)
  {
    hide Stored, IsTable, FieldAt, VTableAt, VTableOf, Entry, FieldInside, GetString, HoldsBack;
    TableRoundTrip(back, buf, o, ms, force, |back|);
    assert MemberReads(buf, |buf| - o, ms[k]);
    if s.Some? {
      assert ObjAt(back, ms[k].off, objects[ms[k].off]);
      StringReads(back, buf, ms[k].off, s.value);
    }
  }

  lemma PacketBack(back: seq<byte>, buf: seq<byte>, o: nat, force: bool, typeType: nat, off: nat)
    requires buf == Reversed(back) && TableAt(back, o, Stored(PacketMembers(typeType, off), force))
    requires 0 < off <= |back| && typeType < 256
    ensures PacketReads(buf, |buf| - o, typeType, |buf| - off)
  {
    var ms := PacketMembers(typeType, off);
    TableRoundTrip(back, buf, o, ms, force, |back|);
    assert MemberReads(buf, |buf| - o, ms[0]) && MemberReads(buf, |buf| - o, ms[1]);
  }

  // ----- Whole packets -----

  lemma {:induction false} LoginConforms(objects: map<nat, Obj>, o: nat, i: nat, p: nat, id: Option<seq<byte>>,
                                         password: Option<seq<byte>>, force: bool)
    requires o in objects && objects[o] == Table(Stored(LoginMembers(i, p), force)) && i < o && p < o
    requires IsOptionalString(objects, i, id) && IsOptionalString(objects, p, password)
    ensures Conforms(objects, CLIENT, LOGIN_REQUEST, o)
    ensures Visits(objects, CLIENT, LOGIN_REQUEST, o) == 1 && Levels(objects, CLIENT, LOGIN_REQUEST, o) == 1
  {
    var ms, slots := LoginMembers(i, p), objects[o].slots;
    StoredMember(ms, force, 0);
    StoredMember(ms, force, 1);
    forall k | 0 <= k < |CLIENT[LOGIN_REQUEST]|
      ensures FieldConforms(objects, CLIENT, CLIENT[LOGIN_REQUEST][k], slots, o) {
      assert k == 0 || k == 1;
    }
    LeafTable(objects, LOGIN_REQUEST, o);
  }

  lemma {:induction false} LeafField(objects: map<nat, Obj>, f: FlatVerifier.Field, slots: map<nat, Slot>, o: nat)
    requires f.type_.Scalar? || f.type_.StringField?
    requires FieldConforms(objects, CLIENT, f, slots, o)
    ensures FieldVisits(objects, CLIENT, f, slots, o) == 0 && FieldLevels(objects, CLIENT, f, slots, o) == 0
  {
  }

  /** A table without sub-tables is visited alone. */
  lemma {:induction false} LeafTable(objects: map<nat, Obj>, t: nat, o: nat)
    requires 1 <= t <= 3 && Conforms(objects, CLIENT, t, o)
    ensures Visits(objects, CLIENT, t, o) == 1 && Levels(objects, CLIENT, t, o) == 1
  {
    LeafFields(objects, t, 0, o);
  }

  lemma {:induction false} LeafFields(objects: map<nat, Obj>, t: nat, i: nat, o: nat)
    requires 1 <= t <= 3 && i <= |CLIENT[t]| && Conforms(objects, CLIENT, t, o)
    ensures FieldsVisits(objects, CLIENT, t, i, objects[o].slots, o) == 0
    ensures FieldsLevels(objects, CLIENT, t, i, objects[o].slots, o) == 0
    decreases |CLIENT[t]| - i
  {
    if i < |CLIENT[t]| {
      assert FieldConforms(objects, CLIENT, CLIENT[t][i], objects[o].slots, o);
      LeafField(objects, CLIENT[t][i], objects[o].slots, o);
      LeafFields(objects, t, i + 1, o);
    }
  }

  lemma {:induction false} PacketConforms(objects: map<nat, Obj>, o: nat, typeType: nat, off: nat, force: bool)
    requires o in objects && objects[o] == Table(Stored(PacketMembers(typeType, off), force)) && 0 < off < o
    requires 1 <= typeType <= 3 && Conforms(objects, CLIENT, typeType, off)
    ensures Conforms(objects, CLIENT, PACKET, o)
    ensures Visits(objects, CLIENT, PACKET, o) == 2 && Levels(objects, CLIENT, PACKET, o) == 2
  {
    hide FieldConforms, FieldVisits, FieldLevels, Stored;
    var slots := objects[o].slots;
    PacketFields(objects, o, typeType, off, force);
    forall i | 0 <= i < |CLIENT[PACKET]| ensures FieldConforms(objects, CLIENT, CLIENT[PACKET][i], slots, o) {
      assert i == 0 || i == 1;
    }
    assert FieldsVisits(objects, CLIENT, PACKET, 2, slots, o) == 0
      && FieldsLevels(objects, CLIENT, PACKET, 2, slots, o) == 0;
    assert FieldsVisits(objects, CLIENT, PACKET, 1, slots, o) == 1
      && FieldsLevels(objects, CLIENT, PACKET, 1, slots, o) == 1;
    assert FieldsVisits(objects, CLIENT, PACKET, 0, slots, o) == 1
      && FieldsLevels(objects, CLIENT, PACKET, 0, slots, o) == 1;
  }

  /** The two fields of a packet: its type, and a table that is visited alone. */
  lemma {:induction false} PacketFields(objects: map<nat, Obj>, o: nat, typeType: nat, off: nat, force: bool)
    requires o in objects && objects[o] == Table(Stored(PacketMembers(typeType, off), force)) && 0 < off < o
    requires 1 <= typeType <= 3 && Conforms(objects, CLIENT, typeType, off)
    ensures var slots, first, second := objects[o].slots, CLIENT[PACKET][0], CLIENT[PACKET][1];
      && FieldConforms(objects, CLIENT, first, slots, o) && FieldConforms(objects, CLIENT, second, slots, o)
      && FieldVisits(objects, CLIENT, first, slots, o) == 0 && FieldLevels(objects, CLIENT, first, slots, o) == 0
      && FieldVisits(objects, CLIENT, second, slots, o) == 1 && FieldLevels(objects, CLIENT, second, slots, o) == 1
  {
    hide Conforms, Visits, Levels, Stored;
    var ms, slots := PacketMembers(typeType, off), objects[o].slots;
    StoredMember(ms, force, 0);
    StoredMember(ms, force, 1);
    assert UnionType(slots, VT_TYPE_TYPE) == typeType;
    LeafTable(objects, typeType, off);
  }

  lemma OffsetInside(x: FlatState.Snapshot, off: nat, t: nat)
    requires FlatState.Sound(x) && Conforms(x.state.objects, CLIENT, t, off)
    ensures 0 < off <= |x.state.back|
  {
    assert ObjAt(x.state.back, off, x.state.objects[off]);
  }

  lemma PlacedObjects(x: FlatState.Snapshot)
    requires FlatState.Sound(x)
    ensures AllAt(x.state.back, x.state.objects) && FlatState.AllNeedAtMost(x.state.objects, x.state.minalign)
  {
  }

  lemma PacketFinished(a: seq<byte>, back: seq<byte>, objects: map<nat, Obj>, minalign: Alignment, root: nat,
                       typeType: nat, off: nat, force: bool)
    requires AllAt(a, objects) && FlatState.IsFinished(a, back, minalign, root, None, false)
    requires root in objects && objects[root] == Table(Stored(PacketMembers(typeType, off), force))
    requires 0 < off <= |a| && 1 <= typeType <= 3
    ensures var buf := Reversed(back);
      4 <= |buf| && off <= |buf| && PacketReads(buf, GetRoot(buf, 0), typeType, |buf| - off)
  {
    hide AllAt, TableAt, PacketReads, Stored;
    RootAtStart(a, back, minalign, root);
    ObjectStays(a, back, objects, root);
    PacketBack(back, Reversed(back), root, force, typeType, off);
  }

  lemma RootAtStart(a: seq<byte>, back: seq<byte>, minalign: Alignment, root: nat)
    requires FlatState.IsFinished(a, back, minalign, root, None, false)
    ensures a <= back && root <= |back| && 4 <= |back| && GetRoot(Reversed(back), 0) == |back| - root
  {
    ReadForward(back, Reversed(back), |back|, 4);
  }

  lemma ObjectStays(a: seq<byte>, back: seq<byte>, objects: map<nat, Obj>, o: nat)
    requires a <= back && AllAt(a, objects) && o in objects
    ensures ObjAt(back, o, objects[o])
  {
    ObjGrows(a, back, o, objects[o]);
  }

  /** Wrap the table at off in a packet of its type and finish: the bytes verify, and read as a packet
      of that type whose table is where it was. */
  method FinishPacket(b: FlatBufferBuilder, typeType: nat, off: nat) returns (buf: seq<byte>, ghost back: seq<byte>)
    requires b.Valid() && !b.nested && !b.inTable && b.pending == [] && |b.back| + 0x1_0080 < MAX_BUFFER_SIZE
    requires 1 <= typeType <= 3 && Conforms(b.objects, CLIENT, typeType, off)
    modifies b
    ensures buf == Reversed(back) && AllAt(back, old(b.objects)) && |buf| < MAX_BUFFER_SIZE && old(b.back) <= back
    ensures |buf| <= |old(b.back)| + 0x1_0060
    ensures |old(b.back)| == 14 && old(b.minalign) == 4 && !HasVTableOf(old(b.back), old(b.vtables), 8) ==> |buf| == 40
    ensures forall c: FlatVerifier.Config :: c.buf == buf && c.maxDepth >= 2 && c.maxTables >= 2 ==>
      FlatVerifier.IsSchema(CLIENT) && FlatVerifier.VerifyBuffer(c, CLIENT, PACKET, None, 0).ok
    ensures 4 <= |buf| && off <= |buf| && PacketReads(buf, GetRoot(buf, 0), typeType, |buf| - off)
  {
    hide FlatState.Sound, FlatState.BuiltLast, Stored, Conforms, FlatState.IsFinished, PacketReads, AllAt, SizeAfter,
      Padding, MaxVoffset, AlignmentAfter, HasVTableOf;
    ghost var before := b.objects;
    OffsetInside(b.Snap(), off, typeType);
    PacketSize(typeType, off, b.forceDefaults);
    PacketMembersFit(typeType, off, |b.back|);
    var root := CreateSmall(b, PacketMembers(typeType, off));
    ghost var a, objects, minalign, force := b.back, b.objects, b.minalign, b.forceDefaults;
    PlacedObjects(b.Snap());
    b.Finish(root, None, false);
    buf, back := Reversed(b.back), b.back;
    if |a| == 36 && minalign == 4 {
      FinishedSize(a, back, root);
    }
    PacketDone(a, back, before, objects, minalign, root, typeType, off, force);
  }

  lemma PacketMembersFit(typeType: nat, off: nat, size: nat)
    requires typeType < 256 && off <= size
    ensures IsTable(PacketMembers(typeType, off), size) && |PacketMembers(typeType, off)| == 2
  {
  }

  lemma PacketDone(a: seq<byte>, back: seq<byte>, before: map<nat, Obj>, objects: map<nat, Obj>, minalign: Alignment,
                   root: nat, typeType: nat, off: nat, force: bool)
    requires AllAt(a, objects) && FlatState.AllNeedAtMost(objects, minalign) && |back| < MAX_BUFFER_SIZE
    requires FlatState.IsFinished(a, back, minalign, root, None, false)
    requires objects == before[root := Table(Stored(PacketMembers(typeType, off), force))] && root !in before
    requires Conforms(before, CLIENT, typeType, off) && 0 < off <= |a| && off < root && 1 <= typeType <= 3
    ensures AllAt(back, before) && a <= back
    ensures forall c: FlatVerifier.Config :: c.buf == Reversed(back) && c.maxDepth >= 2 && c.maxTables >= 2 ==>
      FlatVerifier.IsSchema(CLIENT) && FlatVerifier.VerifyBuffer(c, CLIENT, PACKET, None, 0).ok
    ensures var buf := Reversed(back);
      4 <= |buf| && off <= |buf| && PacketReads(buf, GetRoot(buf, 0), typeType, |buf| - off)
  {
    hide FlatState.AllNeedAtMost, FlatState.IsFinished, Stored, Conforms, PacketReads, ObjAt, Visits, Levels;
    ClientIsSchema();
    ConformsGrows(before, objects, CLIENT, typeType, off);
    PacketConforms(objects, root, typeType, off, force);
    FinishedVerifiesAlways(a, back, objects, minalign, root, CLIENT, PACKET, 2, 2);
    PacketFinished(a, back, objects, minalign, root, typeType, off, force);
    RootAtStart(a, back, minalign, root);
    forall o | o in before ensures ObjAt(back, o, before[o]) {
      ObjectStays(a, back, objects, o);
    }
  }

  // ----- From the arguments to the bytes and back -----

  /** Type 1: the id at vtable offset 4, the password at 6. */
  predicate LoginReads(buf: seq<byte>, p: nat, id: Option<seq<byte>>, password: Option<seq<byte>>)
    requires 4 <= |buf|
  {
    && PacketReads(buf, GetRoot(buf, 0), 1, p)
    && StringFieldReads(buf, p, 4, id) && StringFieldReads(buf, p, 6, password)
  }

  /** Type 3: the number at vtable offset 4, -1 if it is not stored. */
  predicate ConnectReads(buf: seq<byte>, p: nat, serverId: int)
    requires 4 <= |buf| && -0x8000 <= serverId < 0x8000
  {
    && PacketReads(buf, GetRoot(buf, 0), 3, p)
    && FieldInside(buf, p, 4, 2) && Signed(GetField(buf, p, 4, 2, 0xFFFF), 2) == serverId
  }

  /** The fields in the order of their numbers, and the strings behind each other in the opposite order. */
  predicate LoginLaidOut(buf: seq<byte>, p: nat) {
    && FieldInside(buf, p, 4, 4) && FieldInside(buf, p, 6, 4)
    && GetOptionalFieldOffset(buf, p, 4) == 4 && GetOptionalFieldOffset(buf, p, 6) == 8
    && Follow(buf, p + 8) < Follow(buf, p + 4)
  }

  /** A packet of a login request: it verifies, and its accessors give the type, the id and the
      password it was created with, absent ones included. */
  method LoginPacket(b: FlatBufferBuilder, id: Option<seq<byte>>, password: Option<seq<byte>>)
    returns (buf: seq<byte>, ghost p: nat)
    requires b.Valid() && !b.nested && !b.inTable && b.pending == []
    requires |b.back| + OptionSize(id) + OptionSize(password) + 0x2_0100 < MAX_BUFFER_SIZE
    modifies b
    ensures forall c: FlatVerifier.Config :: c.buf == buf && c.maxDepth >= 2 && c.maxTables >= 2 ==>
      FlatVerifier.IsSchema(CLIENT) && FlatVerifier.VerifyBuffer(c, CLIENT, PACKET, None, 0).ok
    ensures 4 <= |buf| && LoginReads(buf, p, id, password)
    ensures id.Some? && password.Some? ==> LoginLaidOut(buf, p)
    ensures |buf| <= |old(b.back)| + OptionSize(id) + OptionSize(password) + 0x2_0100
  {
    hide FlatState.Sound, Stored, Conforms, PacketReads, AllAt, StringFieldReads, IsOptionalString, FieldsPlaced,
      LoginLaidOut;
    var o;
    ghost var i, q;
    o, i, q := CreateLoginRequest(b, id, password);
    ghost var objects, force, before := b.objects, b.forceDefaults, b.back;
    LoginConforms(objects, o, i, q, id, password, force);
    ghost var back;
    buf, back := FinishPacket(b, LOGIN_REQUEST, o);
    p := |buf| - o;
    LoginBack(back, buf, objects, o, i, q, id, password, force);
    if id.Some? && password.Some? {
      LoginPlaced(before, back, buf, objects, o, i, q, id.value, password.value, force);
    }
  }

  lemma LoginPlaced(before: seq<byte>, back: seq<byte>, buf: seq<byte>, objects: map<nat, Obj>, o: nat, i: nat, q: nat,
                    id: seq<byte>, password: seq<byte>, force: bool)
    requires before <= back && buf == Reversed(back) && AllAt(back, objects) && o <= |buf| && i < q < o
    requires FieldsPlaced(before, o, 4, 6)
    requires o in objects && objects[o] == Table(Stored(LoginMembers(i, q), force))
    requires IsOptionalString(objects, i, Some(id)) && IsOptionalString(objects, q, Some(password))
    ensures LoginLaidOut(buf, |buf| - o)
  {
    hide Stored, TableAt, FieldsPlaced, FieldInside, ReadUnsigned, Entry, VTableAt, VTableOf;
    ObjectStays(back, back, objects, o);
    var ms := LoginMembers(i, q);
    FieldsPlacedGrows(before, back, o, 4, 6);
    TableEntries(back, buf, o, Stored(ms, force), 4);
    TableEntries(back, buf, o, Stored(ms, force), 6);
    TableRoundTrip(back, buf, o, ms, force, |back|);
    assert MemberReads(buf, |buf| - o, ms[0]) && MemberReads(buf, |buf| - o, ms[1]);
  }

  lemma LoginBack(back: seq<byte>, buf: seq<byte>, objects: map<nat, Obj>, o: nat, i: nat, q: nat,
                  id: Option<seq<byte>>, password: Option<seq<byte>>, force: bool)
    requires buf == Reversed(back) && AllAt(back, objects) && o <= |buf| && i < o && q < o
    requires o in objects && objects[o] == Table(Stored(LoginMembers(i, q), force))
    requires IsOptionalString(objects, i, id) && IsOptionalString(objects, q, password)
    ensures StringFieldReads(buf, |buf| - o, 4, id) && StringFieldReads(buf, |buf| - o, 6, password)
  {
    hide Stored, StringFieldReads, TableAt;
    ObjectStays(back, back, objects, o);
    var ms := LoginMembers(i, q);
    StringFieldBack(back, buf, objects, o, ms, force, 0, password);
    StringFieldBack(back, buf, objects, o, ms, force, 1, id);
  }

  /** The same for a request to connect to a server, whose number may be the default -1. */
  method ConnectServerPacket(b: FlatBufferBuilder, serverId: int) returns (buf: seq<byte>, ghost p: nat)
    requires b.Valid() && !b.nested && !b.inTable && b.pending == [] && -0x8000 <= serverId < 0x8000
    requires |b.back| + 0x2_0100 < MAX_BUFFER_SIZE
    modifies b
    ensures forall c: FlatVerifier.Config :: c.buf == buf && c.maxDepth >= 2 && c.maxTables >= 2 ==>
      FlatVerifier.IsSchema(CLIENT) && FlatVerifier.VerifyBuffer(c, CLIENT, PACKET, None, 0).ok
    ensures 4 <= |buf| && ConnectReads(buf, p, serverId) && |buf| <= |old(b.back)| + 0x2_0100
    ensures old(b.back) == [] && old(b.vtables) == [] && old(b.minalign) == 1 && serverId != -1 ==> |buf| == 40
  {
    hide FlatState.Sound, Stored, Conforms, PacketReads, AllAt, ConnectMembers, ToUint16, HasVTableOf;
    var o := CreateConnectServerRequest(b, serverId);
    ghost var objects, force := b.objects, b.forceDefaults;
    ConnectConforms(objects, o, ToUint16(serverId), force);
    ghost var back;
    buf, back := FinishPacket(b, CONNECT_SERVER_REQUEST, o);
    p := |buf| - o;
    ConnectBack(back, buf, objects, o, serverId, force);
  }

  lemma {:induction false} ConnectConforms(objects: map<nat, Obj>, o: nat, serverId: nat, force: bool)
    requires o in objects && objects[o] == Table(Stored(ConnectMembers(serverId), force))
    ensures Conforms(objects, CLIENT, CONNECT_SERVER_REQUEST, o)
  {
    var ms, slots := ConnectMembers(serverId), objects[o].slots;
    StoredMember(ms, force, 0);
    assert FieldConforms(objects, CLIENT, CLIENT[CONNECT_SERVER_REQUEST][0], slots, o);
  }

  lemma ConnectBack(back: seq<byte>, buf: seq<byte>, objects: map<nat, Obj>, o: nat, serverId: int, force: bool)
    requires buf == Reversed(back) && AllAt(back, objects) && o <= |buf| && -0x8000 <= serverId < 0x8000
    requires o in objects && objects[o] == Table(Stored(ConnectMembers(ToUint16(serverId)), force))
    ensures var p := |buf| - o;
      FieldInside(buf, p, 4, 2) && Signed(GetField(buf, p, 4, 2, 0xFFFF), 2) == serverId
  {
    hide Stored, TableAt;
    ObjectStays(back, back, objects, o);
    var ms := ConnectMembers(ToUint16(serverId));
    TableRoundTrip(back, buf, o, ms, force, |back|);
    assert MemberReads(buf, |buf| - o, ms[0]);
    LimitValues();
  }

  /** A logout request is a table without fields. */
  method LogoutPacket(b: FlatBufferBuilder) returns (buf: seq<byte>, ghost p: nat)
    requires b.Valid() && !b.nested && !b.inTable && b.pending == [] && |b.back| + 0x2_0100 < MAX_BUFFER_SIZE
    modifies b
    ensures forall c: FlatVerifier.Config :: c.buf == buf && c.maxDepth >= 2 && c.maxTables >= 2 ==>
      FlatVerifier.IsSchema(CLIENT) && FlatVerifier.VerifyBuffer(c, CLIENT, PACKET, None, 0).ok
    ensures 4 <= |buf| && PacketReads(buf, GetRoot(buf, 0), 2, p)
    ensures |buf| <= |old(b.back)| + 0x2_0100
  {
    hide FlatState.Sound, Stored, PacketReads, AllAt, FlatState.BuiltLast;
    var o := CreateSmall(b, []);
    assert Conforms(b.objects, CLIENT, LOGOUT_REQUEST, o);
    ghost var back;
    buf, back := FinishPacket(b, LOGOUT_REQUEST, o);
    p := |buf| - o;
  }
}
