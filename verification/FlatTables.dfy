/** Whole tables: what the generated `Create` functions do with their arguments, and what the
    accessors give back. */
module FlatTables {
  import opened Bytes
  import opened Widths
  import opened Backward
  import opened VectorDownward
  import opened FlatFormat
  import opened FlatObjects
  import opened FlatVTable
  import opened FlatState
  import opened FlatBuilder

  /** An argument for one field: a scalar with the field's default, or an offset, 0 if null. */
  datatype Member = Number(field: nat, width: Width, value: nat, default: nat) | Pointer(field: nat, off: nat)

  predicate Skipped(m: Member, forceDefaults: bool) {
    if m.Number? then m.value == m.default && !forceDefaults else m.off == 0
  }

  function SlotOf(m: Member): Slot {
    if m.Number? then Num(m.width, m.value) else Ref(m.off)
  }

  /** What the table stores for the members ms. */
  function Stored(ms: seq<Member>, forceDefaults: bool): map<nat, Slot> {
    if ms == [] then map[]
    else
      var m, rest := ms[|ms| - 1], Stored(ms[..|ms| - 1], forceDefaults);
      if Skipped(m, forceDefaults) then rest else rest[m.field := SlotOf(m)]
  }

  /** The size of the buffer after adding the first k members to n bytes. */
  function SizeAfter(n: nat, ms: seq<Member>, k: nat, forceDefaults: bool): (size: nat)
    requires k <= |ms|
    ensures size >= n
  {
    if k == 0 then n
    else
      var before, m := SizeAfter(n, ms, k - 1, forceDefaults), ms[k - 1];
      var w: Width := if m.Number? then m.width else 4;
      if Skipped(m, forceDefaults) then before else before + Padding(before, w) + w
  }

  /** The fields of a table of the first k members, begun after n bytes. */
  function FieldsAfter(n: nat, ms: seq<Member>, k: nat, forceDefaults: bool): Fields
    requires k <= |ms|
  {
    if k == 0 then NoFields
    else
      var before, m := FieldsAfter(n, ms, k - 1, forceDefaults), ms[k - 1];
      if Skipped(m, forceDefaults) then before
      else More(before, FieldLoc(SizeAfter(n, ms, k, forceDefaults), m.field), SlotOf(m))
  }

  /** Every member stored is where it was written: the table at o, begun after n bytes, has them in order. */
  ghost predicate MembersPlaced(b: seq<byte>, o: nat, n: nat, ms: seq<Member>, forceDefaults: bool) {
    && 4 <= o <= |b| && VTableAt(b, VTableOf(b, o))
    && forall k :: 0 <= k < |ms| && !Skipped(ms[k], forceDefaults) && IsField(ms[k].field) ==>
      Entry(b, VTableOf(b, o), ms[k].field) == o - SizeAfter(n, ms, k + 1, forceDefaults)
  }

  lemma {:induction false} PlaceOfMember(n: nat, ms: seq<Member>, j: nat, forceDefaults: bool, k: nat, o: nat)
    requires k < j <= |ms| && !Skipped(ms[k], forceDefaults)
    requires forall i, j :: 0 <= i < j < |ms| ==> ms[i].field != ms[j].field
    ensures PosOf(FieldsAfter(n, ms, j, forceDefaults), ms[k].field, o) == o - SizeAfter(n, ms, k + 1, forceDefaults)
  {
    hide SizeAfter;
    if k < j - 1 {
      PlaceOfMember(n, ms, j - 1, forceDefaults, k, o);
    }
  }

  lemma AllPlaced(b: seq<byte>, o: nat, n: nat, ms: seq<Member>, forceDefaults: bool, size: nat)
    requires VTableUsed(b, o, FieldsAfter(n, ms, |ms|, forceDefaults)) && IsTable(ms, size)
    ensures MembersPlaced(b, o, n, ms, forceDefaults)
  {
    hide FieldsAfter, PosOf, SizeAfter, Entry, VTableAt;
    forall k | 0 <= k < |ms| && !Skipped(ms[k], forceDefaults) && IsField(ms[k].field)
      ensures VTableAt(b, VTableOf(b, o))
      ensures Entry(b, VTableOf(b, o), ms[k].field) == o - SizeAfter(n, ms, k + 1, forceDefaults)
    {
      PlaceOfMember(n, ms, |ms|, forceDefaults, k, o);
    }
  }

  lemma MembersPlacedGrows(a: seq<byte>, b: seq<byte>, o: nat, n: nat, ms: seq<Member>, forceDefaults: bool)
    requires a <= b && MembersPlaced(a, o, n, ms, forceDefaults)
    ensures MembersPlaced(b, o, n, ms, forceDefaults)
  {
    hide SizeAfter;
    ReadBackGrows(a, b, o, 4);
    VTableGrows(a, b, VTableOf(a, o));
  }

  /** In the finished buffer the vtable leads to where each member stored was written. */
  lemma MemberOffset(before: seq<byte>, back: seq<byte>, buf: seq<byte>, o: nat, n: nat, ms: seq<Member>,
                     forceDefaults: bool, k: nat)
    requires MembersPlaced(before, o, n, ms, forceDefaults) && before <= back && buf == Reversed(back)
    requires TableAt(back, o, Stored(ms, forceDefaults))
    requires k < |ms| && !Skipped(ms[k], forceDefaults) && IsField(ms[k].field)
    ensures HasVTable(buf, |buf| - o)
      && GetOptionalFieldOffset(buf, |buf| - o, ms[k].field) == o - SizeAfter(n, ms, k + 1, forceDefaults)
  {
    hide SizeAfter, Stored, Entry, FieldAt;
    MembersPlacedGrows(before, back, o, n, ms, forceDefaults);
    TableEntries(back, buf, o, Stored(ms, forceDefaults), ms[k].field);
  }

  /** The largest field id stored. */
  function MaxVoffset(ms: seq<Member>, forceDefaults: bool): nat {
    if ms == [] then 0
    else
      var m, rest := ms[|ms| - 1], MaxVoffset(ms[..|ms| - 1], forceDefaults);
      if !Skipped(m, forceDefaults) && m.field > rest then m.field else rest
  }

  /** The builder's alignment after storing them. */
  function AlignmentAfter(a: Alignment, ms: seq<Member>, forceDefaults: bool): Alignment {
    if ms == [] then a
    else
      var m, rest := ms[|ms| - 1], AlignmentAfter(a, ms[..|ms| - 1], forceDefaults);
      if Skipped(m, forceDefaults) then rest else Larger(rest, if m.Number? then m.width else 4)
  }

  lemma {:induction false} SizeGrows(n: nat, ms: seq<Member>, j: nat, k: nat, forceDefaults: bool)
    requires j <= k <= |ms|
    ensures SizeAfter(n, ms, j, forceDefaults) <= SizeAfter(n, ms, k, forceDefaults)
    decreases k
  {
    if j < k {
      SizeGrows(n, ms, j, k - 1, forceDefaults);
    }
  }

  /** Members of one table: different fields, values that fit, offsets of something built. */
  predicate IsTable(ms: seq<Member>, size: nat) {
    && (forall i :: 0 <= i < |ms| ==> IsMember(ms[i], size))
    && forall i, j :: 0 <= i < j < |ms| ==> ms[i].field != ms[j].field
  }

  predicate IsMember(m: Member, size: nat) {
    && IsField(m.field) && m.field <= 0xFFFC
    && if m.Number? then m.value < Capacity(m.width) else m.off <= size
  }

  lemma {:induction false} StoredFields(ms: seq<Member>, forceDefaults: bool, field: nat)
    requires forall i :: 0 <= i < |ms| ==> ms[i].field != field
    ensures field !in Stored(ms, forceDefaults)
    decreases |ms|
  {
    if ms != [] {
      StoredFields(ms[..|ms| - 1], forceDefaults, field);
    }
  }

  /** StartTable, one AddElement or AddOffset for each member, EndTable. */
  method CreateTable(b: FlatBufferBuilder, ms: seq<Member>) returns (o: nat)
    requires b.Valid() && !b.nested && !b.inTable && b.pending == [] && IsTable(ms, |b.back|)
    requires var size := SizeAfter(|b.back|, ms, |ms|, b.forceDefaults);
      && size + Padding(size, 4) + 4 - |b.back| < 0x1_0000 && size + 0x1_0007 + 15 < MAX_BUFFER_SIZE
    modifies b
    ensures b.Valid() && !b.nested && !b.inTable && old(b.back) <= b.back && b.pending == []
    ensures |b.back| <= SizeAfter(|old(b.back)|, ms, |ms|, b.forceDefaults) + 0x1_0007
    ensures |old(b.back)| < o <= |b.back| && BuiltLast(b.back, o)
    ensures b.objects == old(b.objects)[o := Table(Stored(ms, b.forceDefaults))] && o !in old(b.objects)
    ensures b.forceDefaults == old(b.forceDefaults) && b.alwaysDedup == old(b.alwaysDedup)
    ensures var size := SizeAfter(|old(b.back)|, ms, |ms|, b.forceDefaults);
      && o == size + Padding(size, 4) + 4
      && VTableGained(old(b.back), old(b.vtables), b.back, b.vtables, o, VTableSize(MaxVoffset(ms, b.forceDefaults)))
    ensures b.minalign == Larger(AlignmentAfter(old(b.minalign), ms, b.forceDefaults), 4)
    ensures TableTakes(b.back, o, o - |old(b.back)|) && b.dedupVtables == old(b.dedupVtables)
    ensures !b.dedupVtables ==> |b.vtables| == |old(b.vtables)| + 1
    ensures MembersPlaced(b.back, o, |old(b.back)|, ms, b.forceDefaults)
  {
    hide Sound, BuiltLast, TableTakes, VTableUsed, MembersPlaced, FieldsAfter, IsTable, Stored, SizeAfter, VTableAdded,
      MaxVoffset, AlignmentAfter, Padding, VTableGained, VTablesAt, SlotMap;
    VTablesBuilt(b.Snap());
    var start := b.StartTable();
    AddMembers(b, ms);
    VoffsetFits(b.Snap());
    ghost var filled := b.back;
    o := b.EndTable(start);
    ghost var size := VTableSize(MaxVoffset(ms, b.forceDefaults));
    GainedBefore(old(b.back), filled, old(b.vtables), b.back, b.vtables, o, size);
    AllPlaced(b.back, o, |old(b.back)|, ms, b.forceDefaults, |old(b.back)|);
  }

  lemma VTablesBuilt(x: Snapshot)
    requires Sound(x)
    ensures VTablesAt(x.state.back, x.state.vtables)
  {
  }

  /** A new vtable of this size has followed the table at o, unless an older one has that size. */
  predicate VTableGained(a: seq<byte>, before: seq<nat>, b: seq<byte>, vtables: seq<nat>, o: nat, size: nat) {
    !HasVTableOf(a, before, size) ==>
      vtables == before + [|b|] && 2 <= |b| == o + size && ReadBack(b, |b|, 2) == size
  }

  lemma GainedBefore(a: seq<byte>, filled: seq<byte>, before: seq<nat>, b: seq<byte>, vtables: seq<nat>, o: nat,
                     size: nat)
    requires a <= filled && VTablesAt(a, before) && 2 <= size && VTableAdded(filled, before, b, vtables, o, size)
    ensures VTableGained(a, before, b, vtables, o, size)
  {
    hide ReadBack;
    if HasVTableOf(filled, before, size) {
      var v :| v in before && 2 <= v <= |filled| && ReadBack(filled, v, 2) == size;
      var k :| 0 <= k < |before| && before[k] == v;
      assert VTableAt(a, before[k]);
      ReadBackGrows(a, filled, v, 2);
    }
  }

  method AddMembers(b: FlatBufferBuilder, ms: seq<Member>)
    requires b.Valid() && b.inTable && b.Slots() == map[] && b.maxVoffset == 0 && IsTable(ms, |b.back|)
    requires b.fields == NoFields
    requires SizeAfter(|b.back|, ms, |ms|, b.forceDefaults) + 15 < MAX_BUFFER_SIZE
    modifies b`numFieldLoc, b`maxVoffset, b`fields, b`minalign, b`back, b`scratch
    ensures b.Valid() && old(b.back) <= b.back && b.Slots() == Stored(ms, b.forceDefaults)
    ensures |b.back| == SizeAfter(|old(b.back)|, ms, |ms|, b.forceDefaults)
    ensures b.maxVoffset == MaxVoffset(ms, b.forceDefaults)
    ensures b.minalign == AlignmentAfter(old(b.minalign), ms, b.forceDefaults)
    ensures b.fields == FieldsAfter(|old(b.back)|, ms, |ms|, b.forceDefaults)
  {
    hide Sound, Stored, SizeAfter, Padding, MaxVoffset, AlignmentAfter;
    NothingYet(b.minalign, ms, b.forceDefaults);
    NoMembers(|b.back|, ms, b.forceDefaults);
    for k := 0 to |ms|
      invariant b.Valid() && old(b.back) <= b.back && b.Slots() == Stored(ms[..k], b.forceDefaults)
      invariant |b.back| == SizeAfter(|old(b.back)|, ms, k, b.forceDefaults)
      invariant b.maxVoffset == MaxVoffset(ms[..k], b.forceDefaults)
      invariant b.minalign == AlignmentAfter(old(b.minalign), ms[..k], b.forceDefaults)
      invariant b.fields == FieldsAfter(|old(b.back)|, ms, k, b.forceDefaults)
    {
      OneMore(old(b.minalign), ms, k, b.forceDefaults);
      NextMember(|old(b.back)|, ms, k, b.forceDefaults);
      AddMember(b, ms[k]);
    }
    assert ms[..|ms|] == ms;
  }

  lemma NoMembers(n: nat, ms: seq<Member>, forceDefaults: bool)
    ensures Stored(ms[..0], forceDefaults) == map[] && SizeAfter(n, ms, 0, forceDefaults) == n
  {
  }

  lemma NothingYet(a: Alignment, ms: seq<Member>, forceDefaults: bool)
    ensures MaxVoffset(ms[..0], forceDefaults) == 0 && AlignmentAfter(a, ms[..0], forceDefaults) == a
  {
  }

  lemma OneMore(a: Alignment, ms: seq<Member>, k: nat, forceDefaults: bool)
    requires k < |ms|
    ensures var m, rest := ms[k], MaxVoffset(ms[..k], forceDefaults);
      MaxVoffset(ms[..k + 1], forceDefaults) == if !Skipped(m, forceDefaults) && m.field > rest then m.field else rest
    ensures var m, rest := ms[k], AlignmentAfter(a, ms[..k], forceDefaults);
      AlignmentAfter(a, ms[..k + 1], forceDefaults)
        == if Skipped(m, forceDefaults) then rest else Larger(rest, if m.Number? then m.width else 4)
  {
    assert ms[..k + 1][..k] == ms[..k];
  }

  /** What one more member stores and takes, and that there is room for it. */
  lemma NextMember(n: nat, ms: seq<Member>, k: nat, forceDefaults: bool)
    requires k < |ms| && IsTable(ms, n)
    ensures var m, size := ms[k], SizeAfter(n, ms, k, forceDefaults); var w: Width := if m.Number? then m.width else 4;
      && n <= size <= SizeAfter(n, ms, |ms|, forceDefaults) && IsMember(m, size)
      && m.field !in Stored(ms[..k], forceDefaults)
      && Stored(ms[..k + 1], forceDefaults) == (
           if Skipped(m, forceDefaults) then Stored(ms[..k], forceDefaults)
           else Stored(ms[..k], forceDefaults)[m.field := SlotOf(m)])
      && SizeAfter(n, ms, k + 1, forceDefaults)
           == if Skipped(m, forceDefaults) then size else size + Padding(size, w) + w
  {
    SizeGrows(n, ms, k, |ms|, forceDefaults);
    assert IsMember(ms[k], n);
    StoredFields(ms[..k], forceDefaults, ms[k].field);
    assert ms[..k + 1][..k] == ms[..k];
  }

  method AddMember(b: FlatBufferBuilder, m: Member)
    requires b.Valid() && b.inTable && IsMember(m, |b.back|) && m.field !in b.Slots() && |b.back| + 15 < MAX_BUFFER_SIZE
    modifies b`numFieldLoc, b`maxVoffset, b`fields, b`minalign, b`back, b`scratch
    ensures b.Valid() && old(b.back) <= b.back
    ensures b.Slots() == if Skipped(m, b.forceDefaults) then old(b.Slots()) else old(b.Slots())[m.field := SlotOf(m)]
    ensures |b.back| == |old(b.back)| +
      if Skipped(m, b.forceDefaults) then 0 else
        var w: Width := if m.Number? then m.width else 4; Padding(|old(b.back)|, w) + w
    ensures b.maxVoffset
         == if !Skipped(m, b.forceDefaults) && m.field > old(b.maxVoffset) then m.field else old(b.maxVoffset)
    ensures b.minalign == if Skipped(m, b.forceDefaults) then old(b.minalign)
                          else Larger(old(b.minalign), if m.Number? then m.width else 4)
    ensures b.fields == if Skipped(m, b.forceDefaults) then old(b.fields)
                        else More(old(b.fields), FieldLoc(|b.back|, m.field), SlotOf(m))
  {
    hide Sound;
    if m.Number? {
      b.AddElement(m.field, m.width, m.value, m.default);
    } else {
      b.AddOffset(m.field, m.off);
    }
  }

  // ----- Reading a table back -----

  lemma {:induction false} StoredMember(ms: seq<Member>, forceDefaults: bool, k: nat)
    requires k < |ms| && forall i, j :: 0 <= i < j < |ms| ==> ms[i].field != ms[j].field
    ensures if Skipped(ms[k], forceDefaults) then ms[k].field !in Stored(ms, forceDefaults)
            else ms[k].field in Stored(ms, forceDefaults) && Stored(ms, forceDefaults)[ms[k].field] == SlotOf(ms[k])
    decreases |ms|
  {
    var init := ms[..|ms| - 1];
    if k == |ms| - 1 {
      StoredFields(init, forceDefaults, ms[k].field);
    } else {
      StoredMember(init, forceDefaults, k);
    }
  }

  /** Every argument is read back: a scalar as given, stored or skipped as its default; an offset as
      a pointer to what it was the offset of, or null. */
  lemma TableRoundTrip(back: seq<byte>, buf: seq<byte>, o: nat, ms: seq<Member>, forceDefaults: bool, size: nat)
    requires buf == Reversed(back) && TableAt(back, o, Stored(ms, forceDefaults)) && IsTable(ms, size)
    ensures forall k :: 0 <= k < |ms| ==> MemberReads(buf, |buf| - o, ms[k])
  {
    hide TableAt, Stored, MemberReads;
    TableInside(back, o, Stored(ms, forceDefaults));
    forall k | 0 <= k < |ms| ensures MemberReads(buf, |buf| - o, ms[k]) {
      MemberBack(back, buf, o, ms, forceDefaults, size, k);
    }
  }

  lemma TableInside(back: seq<byte>, o: nat, slots: map<nat, Slot>)
    requires TableAt(back, o, slots)
    ensures o <= |back|
  {
  }

  lemma MemberBack(back: seq<byte>, buf: seq<byte>, o: nat, ms: seq<Member>, forceDefaults: bool, size: nat, k: nat)
    requires buf == Reversed(back) && TableAt(back, o, Stored(ms, forceDefaults)) && IsTable(ms, size) && k < |ms|
    ensures o <= |buf| && MemberReads(buf, |buf| - o, ms[k])
  {
    hide TableAt, Stored, FieldInside, GetField, GetPointer;
    TableInside(back, o, Stored(ms, forceDefaults));
    assert IsMember(ms[k], size);
    StoredMember(ms, forceDefaults, k);
    if ms[k].Number? {
      FieldReads(back, buf, o, Stored(ms, forceDefaults), ms[k].field, ms[k].width, ms[k].default);
    } else {
      PointerReads(back, buf, o, Stored(ms, forceDefaults), ms[k].field);
      PointerInside(back, o, Stored(ms, forceDefaults), ms[k].field);
    }
  }

  lemma PointerInside(back: seq<byte>, o: nat, slots: map<nat, Slot>, field: nat)
    requires TableAt(back, o, slots) && IsField(field)
    ensures field in slots && slots[field].Ref? ==> slots[field].target <= |back|
  {
    assert FieldAt(back, o, VTableOf(back, o), field, slots);
  }

  lemma FieldNotGiven(back: seq<byte>, buf: seq<byte>, o: nat, ms: seq<Member>, forceDefaults: bool,
                      field: nat, w: Width, default: nat)
    requires buf == Reversed(back) && TableAt(back, o, Stored(ms, forceDefaults))
    requires IsField(field) && forall k :: 0 <= k < |ms| ==> ms[k].field != field
    ensures FieldInside(buf, |buf| - o, field, w) && GetField(buf, |buf| - o, field, w, default) == default
  {
    StoredFields(ms, forceDefaults, field);
    FieldReads(back, buf, o, Stored(ms, forceDefaults), field, w, default);
  }

  predicate MemberReads(buf: seq<byte>, table: nat, m: Member) {
    if m.Number? then
      FieldInside(buf, table, m.field, m.width) && GetField(buf, table, m.field, m.width, m.default) == m.value
    else
      && FieldInside(buf, table, m.field, 4)
      && if m.off == 0 then GetPointer(buf, table, m.field) == None
         else m.off <= |buf| && GetPointer(buf, table, m.field) == Some((|buf| - m.off) as nat)
  }
}
