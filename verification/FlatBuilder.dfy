/** The FlatBuffers builder: strings, vectors and tables written from the end of a downward growing
    buffer.  Its buffer is a `vector_downward`; back and scratch are the two sequences that module
    VectorDownward shows it to be.  The ghost fields record what has been built; Valid says the
    bytes agree. */
module FlatBuilder {
  import opened Bytes
  import opened Widths
  import opened Order
  import opened Backward
  import opened VectorDownward
  import opened FlatFormat
  import opened FlatObjects
  import opened FlatVTable
  import opened FlatState

  class FlatBufferBuilder {
    var back: seq<byte>
    var scratch: seq<byte>
    var numFieldLoc: nat
    var maxVoffset: nat
    var nested: bool
    var finished: bool
    var minalign: Alignment
    var forceDefaults: bool
    var dedupVtables: bool
    var stringPool: set<nat>

    /** What was built, by its distance from the end. */
    ghost var objects: map<nat, Obj>
    ghost var vtables: seq<nat>
    /** String offsets kept in the scratch space by CreateVectorOfStrings. */
    ghost var pending: seq<nat>
    /** The open table, if any: where it began, and its fields so far. */
    ghost var inTable: bool
    ghost var tableStart: nat
    ghost var fields: Fields
    /** Whether vtables have been shared from the start. */
    ghost var alwaysDedup: bool
    ghost var poolTexts: map<nat, seq<byte>>

    ghost function Built(): State
      reads this
    {
      State(back, minalign, objects, vtables, alwaysDedup, poolTexts)
    }

    ghost function Opened(): Open
      reads this
    {
      Open(back, minalign, tableStart, fields, maxVoffset)
    }

    ghost function Slots(): map<nat, Slot>
      reads this
    {
      SlotMap(fields)
    }

    ghost function Snap(): Snapshot
      reads this
    {
      Snapshot(Built(), dedupVtables, stringPool, scratch, numFieldLoc, pending, nested, inTable, Opened())
    }

    ghost predicate Valid()
      reads this
    {
      Sound(Snap())
    }

    constructor ()
      ensures Valid() && back == [] && objects == map[] && !nested && !inTable && !finished && minalign == 1
      ensures !forceDefaults && dedupVtables && alwaysDedup && stringPool == {} && pending == [] && vtables == []
    {
      back, scratch := [], [];
      numFieldLoc, maxVoffset, minalign := 0, 0, 1;
      nested, finished, forceDefaults, dedupVtables := false, false, false, true;
      stringPool := {};
      objects, vtables, pending, poolTexts := map[], [], [], map[];
      inTable, tableStart, fields, alwaysDedup := false, 0, NoFields, true;
    }

    method ForceDefaults(fd: bool)
      requires Valid()
      modifies this`forceDefaults
      ensures Valid() && forceDefaults == fd
    {
      forceDefaults := fd;
    }

    method DedupVtables(dedup: bool)
      requires Valid()
      modifies this`dedupVtables, this`alwaysDedup
      ensures Valid() && dedupVtables == dedup && alwaysDedup == (old(alwaysDedup) && dedup)
    {
      dedupVtables := dedup;
      if !dedup {
        PlacedAnyway(Built());
        alwaysDedup := false;
      }
    }

    // ----- Bytes -----

    method TrackMinAlign(elemSize: Alignment)
      modifies this`minalign
      ensures minalign == Larger(old(minalign), elemSize)
    {
      if elemSize > minalign {
        minalign := elemSize;
      }
    }

    method Align(elemSize: Width)
      modifies this`minalign, this`back
      ensures back == old(back) + Zeros(Padding(|old(back)|, elemSize))
      ensures minalign == Larger(old(minalign), elemSize)
    {
      TrackMinAlign(elemSize);
      back := back + Zeros(Padding(|back|, elemSize));
    }

    /** Pad so that after len more bytes the buffer is aligned. */
    method PreAlign(len: nat, alignment: Alignment)
      modifies this`minalign, this`back
      ensures back == old(back) + if len == 0 then [] else Zeros(PaddingTo(|old(back)| + len, alignment))
      ensures minalign == if len == 0 then old(minalign) else Larger(old(minalign), alignment)
    {
      if len == 0 {
        return;
      }
      TrackMinAlign(alignment);
      back := back + Zeros(PaddingTo(|back| + len, alignment));
    }

    method PushBytes(bytes: seq<byte>)
      modifies this`back
      ensures back == old(back) + Reversed(bytes)
    {
      back := back + Reversed(bytes);
    }

    /** Write one scalar, aligned to its width. */
    method PushElement(v: nat, w: Width) returns (o: nat)
      requires v < Capacity(w)
      modifies this`minalign, this`back
      ensures o == |back| == |old(back)| + Padding(|old(back)|, w) + w && old(back) <= back
      ensures IsAligned(o, w) && ReadBack(back, o, w) == v
      ensures minalign == Larger(old(minalign), w)
    {
      Align(w);
      ghost var aligned := back;
      PushBytes(LittleEndian(v, w));
      o := |back|;
      ScalarReadsBackwards(back, o, w, v);
      StillAligned(|aligned|, w);
    }

    /** The value that stored next leads to what is at off. */
    method ReferTo(off: nat) returns (v: nat)
      requires 0 < off <= |back|
      modifies this`minalign, this`back
      ensures back == old(back) + Zeros(Padding(|old(back)|, 4)) && IsAligned(|back|, 4)
      ensures v == |back| - off + 4 && minalign == Larger(old(minalign), 4)
    {
      Align(4);
      return |back| - off + 4;
    }

    /** Store an offset. */
    method PushOffset(off: nat) returns (o: nat)
      requires 0 < off <= |back| < MAX_BUFFER_SIZE
      modifies this`minalign, this`back
      ensures o == |back| == |old(back)| + Padding(|old(back)|, 4) + 4 && old(back) <= back
      ensures SlotAt(back, o, Ref(off)) && minalign == Larger(old(minalign), 4)
    {
      var v := ReferTo(off);
      o := PushElement(v, 4);
    }

    // ----- Tables -----

    method StartTable() returns (start: nat)
      requires Valid() && !nested && !inTable && pending == []
      modifies this`nested, this`inTable, this`tableStart
      ensures Valid() && nested && inTable && start == tableStart == |back| && Slots() == map[] && maxVoffset == 0
      ensures fields == NoFields
    {
      nested, inTable, tableStart := true, true, |back|;
      start := |back|;
    }

    /** Record that the field just written starts off from the end. */
    method TrackField(field: nat, off: nat)
      modifies this`numFieldLoc, this`maxVoffset, this`scratch
      ensures scratch == old(scratch) + LocBytes(FieldLoc(off, field))
      ensures numFieldLoc == old(numFieldLoc) + 1
      ensures maxVoffset == if field > old(maxVoffset) then field else old(maxVoffset)
    {
      scratch := scratch + LocBytes(FieldLoc(off, field));
      numFieldLoc := numFieldLoc + 1;
      if field > maxVoffset {
        maxVoffset := field;
      }
    }

    /** A value equal to its default is not stored, unless defaults are forced. */
    method AddElement(field: nat, w: Width, e: nat, def: nat)
      requires Valid() && inTable && IsField(field) && field <= 0xFFFC && field !in Slots() && e < Capacity(w)
      requires |back| + 15 < MAX_BUFFER_SIZE
      modifies this`numFieldLoc, this`maxVoffset, this`fields, this`minalign, this`back, this`scratch
      ensures Valid() && old(back) <= back
      ensures |back| == |old(back)| + if e == def && !forceDefaults then 0 else Padding(|old(back)|, w) + w
      ensures Slots() == if e == def && !forceDefaults then old(Slots()) else old(Slots())[field := Num(w, e)]
      ensures fields
        == if e == def && !forceDefaults then old(fields) else More(old(fields), FieldLoc(|back|, field), Num(w, e))
      ensures maxVoffset == if (e != def || forceDefaults) && field > old(maxVoffset) then field else old(maxVoffset)
      ensures minalign == if e == def && !forceDefaults then old(minalign) else Larger(old(minalign), w)
    {
      hide Sound, SlotMap;
      if e == def && !forceDefaults {
        return;
      }
      ghost var x := Snap();
      TableStartInside(x);
      var off := PushElement(e, w);
      Record(field, off, Num(w, e), x);
    }

    /** A null offset is not stored. */
    method AddOffset(field: nat, off: nat)
      requires Valid() && inTable && IsField(field) && field <= 0xFFFC && field !in Slots() && off <= |back|
      requires |back| + 7 < MAX_BUFFER_SIZE
      modifies this`numFieldLoc, this`maxVoffset, this`fields, this`minalign, this`back, this`scratch
      ensures Valid() && old(back) <= back
      ensures |back| == |old(back)| + if off == 0 then 0 else Padding(|old(back)|, 4) + 4
      ensures Slots() == if off == 0 then old(Slots()) else old(Slots())[field := Ref(off)]
      ensures fields == if off == 0 then old(fields) else More(old(fields), FieldLoc(|back|, field), Ref(off))
      ensures maxVoffset == if off != 0 && field > old(maxVoffset) then field else old(maxVoffset)
      ensures minalign == if off == 0 then old(minalign) else Larger(old(minalign), 4)
    {
      hide Sound, SlotMap;
      if off == 0 {
        return;
      }
      ghost var x := Snap();
      TableStartInside(x);
      var at := PushOffset(off);
      Record(field, at, Ref(off), x);
    }

    /** The field just written becomes one of the open table; x is the builder before it was written. */
    method Record(field: nat, off: nat, ghost slot: Slot, ghost x: Snapshot)
      requires Sound(x) && x.inTable && x.open.back == x.state.back && x.open.minalign == x.state.minalign
      requires Snap() == x.(state := x.state.(back := back, minalign := minalign),
                            open := x.open.(back := back, minalign := minalign))
      requires |back| < MAX_BUFFER_SIZE && x.state.back <= back && x.open.start < |back| == off
      requires x.state.minalign <= minalign && (slot.Num? ==> slot.width <= minalign)
      requires IsField(field) && field <= 0xFFFC && SlotAt(back, off, slot) && field !in SlotMap(fields)
      modifies this`numFieldLoc, this`maxVoffset, this`fields, this`scratch
      ensures Valid() && Slots() == old(Slots())[field := slot]
      ensures fields == More(old(fields), FieldLoc(off, field), slot)
      ensures maxVoffset == if field > old(maxVoffset) then field else old(maxVoffset)
    {
      hide Sound, SlotAt, LocBytes;
      TrackField(field, off);
      fields := More(fields, FieldLoc(off, field), slot);
      FieldRecorded(x, Snap(), field, slot);
    }

    /** Overwrite w bytes in place, offset from the end. */
    method WriteScalar(offset: nat, v: nat, w: Width)
      requires w <= offset <= |back| && v < Capacity(w)
      modifies this`back
      ensures |back| == |old(back)| && ReadBack(back, offset, w) == v
      ensures forall i :: 0 <= i < |back| && !(offset - w <= i < offset) ==> back[i] == old(back)[i]
    {
      back := back[..offset - w] + Reversed(LittleEndian(v, w)) + back[offset..];
      ScalarReadsBackwards(back, offset, w, v);
    }

    method ClearOffsets()
      requires |scratch| >= 8 * numFieldLoc
      modifies this`scratch, this`numFieldLoc, this`maxVoffset
      ensures scratch == old(scratch)[..|old(scratch)| - 8 * old(numFieldLoc)] && numFieldLoc == 0 && maxVoffset == 0
    {
      scratch := scratch[..|scratch| - 8 * numFieldLoc];
      numFieldLoc, maxVoffset := 0, 0;
    }

    /** The vtable of the table at o, on top of it: its size, the size of the table, and where in
        the table each field is. */
    method WriteVTable(o: nat, start: nat, ghost t: Open)
      requires start == tableStart && |t.back| < o == |back| && o - start < 0x1_0000 && IsAligned(o, 4)
      requires TableOk(t) && t.start == start && t.fields == fields && t.maxVoffset == maxVoffset
      requires |back| + maxVoffset + 4 < U32
      requires scratch == Words(vtables) + Locs(fields) && numFieldLoc == Count(fields)
      modifies this`back, this`maxVoffset
      ensures maxVoffset == VTableSize(old(maxVoffset))
      ensures old(back) <= back && |back| == o + maxVoffset
      ensures VTableHolds(back, |back|, fields, o) && ReadBack(back, |back|, 2) == maxVoffset
      ensures SaysSize(back, |back|, o - start)
    {
      maxVoffset := if maxVoffset + 2 > 4 then maxVoffset + 2 else 4;
      WriteVTableHead(o, o - start, maxVoffset);
      FillEntries(o, |back|, o - start, t.back, t.maxVoffset);
      assert forall i :: 0 <= i < o ==> back[i] == old(back)[i];
    }

    method WriteVTableHead(o: nat, tableObjectSize: nat, size: nat)
      requires o == |back| && IsAligned(o, 4) && 4 <= size < 0x1_0000 && size % 2 == 0 && tableObjectSize < 0x1_0000
      modifies this`back
      ensures old(back) <= back && |back| == o + size
      ensures VTableHolds(back, |back|, NoFields, o) && ReadBack(back, |back|, 2) == size
      ensures SaysSize(back, |back|, tableObjectSize)
    {
      back := back + Zeros(size);
      var v := |back|;
      WriteScalar(v - 2, tableObjectSize, 2);
      ghost var sized := back;
      WriteScalar(v, size, 2);
      ReadBackSame(sized, v - 2, back, v - 2, 2);
      EvenSum(o, size);
      assert VTableAt(back, v);
      EmptyVTable(back, v, o);
    }

    method FillEntries(o: nat, v: nat, ghost n: nat, ghost b: seq<byte>, ghost m: nat)
      requires |b| < o <= v == |back| < U32 && o - tableStart < 0x1_0000 && tableStart <= o
      requires OpenTable(b, tableStart, fields, m) && m + 2 <= v - o == ReadBack(back, v, 2) && m < 0x1_0000
      requires VTableHolds(back, v, NoFields, o) && SaysSize(back, v, n)
      requires scratch == Words(vtables) + Locs(fields) && numFieldLoc == Count(fields)
      modifies this`back
      ensures |back| == v && VTableHolds(back, v, fields, o) && ReadBack(back, v, 2) == v - o && SaysSize(back, v, n)
      ensures forall i :: 0 <= i < o ==> back[i] == old(back)[i]
    {
      hide VTableHolds, OpenTable, Words, ReadBack, Encodable;
      OpenEncodable(b, tableStart, fields, m);
      for k := 0 to numFieldLoc
        invariant |back| == v && VTableHolds(back, v, First(fields, k), o) && ReadBack(back, v, 2) == v - o
        invariant SaysSize(back, v, n)
        invariant forall i :: 0 <= i < o ==> back[i] == old(back)[i]
      {
        var at := |scratch| - 8 * numFieldLoc + 8 * k;
        LocRead(Words(vtables), fields, scratch, k);
        FirstOpen(b, tableStart, fields, m, k + 1);
        FillEntry(at, o, v, n, b, First(fields, k + 1), m);
      }
      FirstAll(fields);
    }

    /** One entry, from the location at that place in the scratch space. */
    method FillEntry(at: nat, o: nat, v: nat, ghost n: nat, ghost b: seq<byte>, ghost fs: Fields, ghost m: nat)
      requires |b| < o <= v == |back| && o - tableStart < 0x1_0000 && tableStart <= o
      requires fs.More? && OpenTable(b, tableStart, fs, m) && m + 2 <= v - o == ReadBack(back, v, 2)
      requires VTableHolds(back, v, fs.rest, o) && SaysSize(back, v, n) && at + 6 <= |scratch|
      requires ReadUnsigned(scratch, at, 4) == fs.last.off && ReadUnsigned(scratch, at + 4, 2) == fs.last.id
      modifies this`back
      ensures |back| == v && VTableHolds(back, v, fs, o) && ReadBack(back, v, 2) == v - o && SaysSize(back, v, n)
      ensures forall i :: 0 <= i < o ==> back[i] == old(back)[i]
    {
      var off := ReadUnsigned(scratch, at, 4);
      var id := ReadUnsigned(scratch, at + 4, 2);
      OpenField(b, tableStart, fs.rest, m, id, o);
      assert Entry(back, v, id) == 0;
      WriteScalar(v - id, o - off, 2);
      VTableFilled(old(back), back, v, fs, o);
      SizeKept(old(back), back, v, n);
    }

    /** A remembered vtable with the same bytes as the one at v. */
    method FindVTable(v: nat) returns (found: Option<nat>)
      requires VTablesAt(back, vtables) && VTableAt(back, v) && scratch == Words(vtables) && |back| < U32
      ensures found.Some? ==> found.value in vtables && SameVTable(back, found.value, v)
      ensures found.None? ==> forall k :: 0 <= k < |vtables| ==> !SameVTable(back, vtables[k], v)
    {
      for i := 0 to |scratch| / 4
        invariant forall k :: 0 <= k < i ==> !SameVTable(back, vtables[k], v)
      {
        WordRead(vtables, scratch, i);
        var vtOffset := ReadUnsigned(scratch, 4 * i, 4);
        if SameVTable(back, vtOffset, v) {
          return Some(vtOffset);
        }
      }
      return None;
    }

    /** Use a remembered vtable instead of the one at v, which then goes, or remember that. */
    method ShareVTable(o: nat, v: nat, ghost n: nat, ghost b: seq<byte>) returns (vtUse: nat)
      requires VTablesAt(b, vtables) && b <= back && |b| < o < v == |back| < U32 && scratch == Words(vtables)
      requires VTableHolds(back, v, fields, o) && ReadBack(back, v, 2) == v - o && SaysSize(back, v, n)
      modifies this`back, this`scratch, this`vtables
      ensures b <= back && VTablesAt(back, old(vtables)) && VTableHolds(back, vtUse, fields, o)
        && scratch == Words(vtables)
      ensures SaysSize(back, vtUse, n) && (!dedupVtables ==> vtUse == v)
      ensures if vtUse == v then
          && back == old(back) && vtables == old(vtables) + [v]
          && (dedupVtables ==> forall k :: 0 <= k < |old(vtables)| ==> !SameVTable(back, old(vtables)[k], v))
        else vtUse <= |b| && back == old(back)[..o] && vtables == old(vtables) && HasVTableOf(b, vtables, v - o)
    {
      hide VTablesAt, VTableAt, SameVTable, ReadBack, SaysSize, Words, HasVTableOf, LittleEndian, Entry, PosOf;
      VTablesGrow(b, back, vtables);
      vtUse := v;
      if dedupVtables {
        var it := FindVTable(v);
        if it.Some? {
          vtUse := it.value;
          DropVTable(o, v, vtUse, n, b);
        }
      }
      if vtUse == |back| {
        WordsAppend(vtables, vtUse);
        scratch := scratch + LittleEndian(vtUse, 4);
        vtables := vtables + [vtUse];
      }
    }

    /** Remove the vtable at v, as the one at vtUse is the same. */
    method DropVTable(o: nat, v: nat, vtUse: nat, ghost n: nat, ghost b: seq<byte>)
      requires VTablesAt(b, vtables) && b <= back && |b| < o < v == |back|
      requires VTablesAt(back, vtables) && vtUse in vtables && VTableHolds(back, v, fields, o)
        && SameVTable(back, vtUse, v) && SaysSize(back, v, n)
      modifies this`back
      ensures back == old(back)[..o] && b <= back && vtUse <= |b|
      ensures VTablesAt(back, vtables) && VTableHolds(back, vtUse, fields, o) && SaysSize(back, vtUse, n)
      ensures HasVTableOf(b, vtables, ReadBack(old(back), v, 2))
    {
      SharedSize(b, back, vtables, vtUse, v);
      SameVTableSymmetric(back, vtUse, v);
      SameVTableHolds(back, v, vtUse, fields, o);
      SameSize(back, v, vtUse, n);
      back := back[..|back| - (|back| - o)];
      VTableKept(old(back), back, vtUse, fields, o);
      SizeKept(old(back), back, vtUse, n);
      VTablesGrow(b, back, vtables);
    }

    /** The table ends where its fields, its vtable and the offset of that are written.  The
        original asserts that it takes less than 64 KB. */
    method EndTable(start: nat) returns (o: nat)
      requires Valid() && inTable && start == tableStart
      requires |back| + Padding(|back|, 4) + 4 - start < 0x1_0000 && |back| + maxVoffset + 11 < MAX_BUFFER_SIZE
      modifies this`back, this`scratch, this`minalign, this`numFieldLoc, this`maxVoffset, this`nested,
               this`inTable, this`fields, this`vtables, this`objects
      ensures Valid() && !nested && !inTable && old(back) <= back && |back| <= |old(back)| + old(maxVoffset) + 11
      ensures |old(back)| < o <= |back| && objects == old(objects)[o := Table(old(Slots()))] && o !in old(objects)
        && BuiltLast(back, o)
      ensures o == |old(back)| + Padding(|old(back)|, 4) + 4 && minalign == Larger(old(minalign), 4)
      ensures VTableAdded(old(back), old(vtables), back, vtables, o, VTableSize(old(maxVoffset)))
      ensures TableTakes(back, o, o - start) && (!dedupVtables ==> |vtables| == |old(vtables)| + 1)
      ensures VTableUsed(back, o, old(fields))
    {
      hide Sound, VTableChosen, TableOk, VTablesAt, Locs, Words, VTableAdded, Padding, BuiltLast, TableTakes, SaysSize,
        VTableUsed;
      ghost var x := Snap();
      TableIsOpen(x);
      var vtUse;
      o, vtUse := MakeVTable(start, x.open);
      ghost var u := back;
      LinkTable(o, vtUse, o - start, x);
      AddedStays(x.state.back, x.state.vtables, u, back, vtables, o, VTableSize(x.open.maxVoffset));
    }

    /** The table is written and linked: forget its fields. */
    method CloseTable(o: nat, ghost x: Snapshot)
      requires Snap() == x.(state := x.state.(back := back, minalign := minalign, vtables := vtables),
                            scratch := Words(vtables), numFieldLoc := 0,
                            open := Open(back, minalign, x.open.start, x.open.fields, 0))
      modifies this`nested, this`inTable, this`fields, this`objects
      ensures !nested && !inTable && objects == old(objects)[o := Table(old(Slots()))]
      ensures Snap() == Closed(x, back, minalign, vtables, o)
    {
      hide SlotMap, Words;
      nested, inTable, objects, fields := false, false, objects[o := Table(SlotMap(fields))], NoFields;
    }

    /** Make the table at o refer to its vtable; x is the builder before EndTable. */
    method LinkTable(o: nat, vtUse: nat, ghost n: nat, ghost x: Snapshot)
      requires Sound(x) && x.inTable && x.open == x.open.(back := x.state.back, minalign := x.state.minalign)
      requires Snap() == x.(state := x.state.(back := back, minalign := minalign, vtables := vtables),
                            scratch := Words(vtables), numFieldLoc := 0,
                            open := Open(back, minalign, x.open.start, x.open.fields, 0))
      requires |back| < MAX_BUFFER_SIZE && VTableChosen(x.open, x.state.vtables, x.dedup, back, vtables, o, vtUse)
      requires x.state.minalign <= minalign && 4 <= minalign && SaysSize(back, vtUse, n)
      modifies this`back, this`nested, this`inTable, this`fields, this`objects
      ensures Valid() && !nested && !inTable && x.state.back <= back && |back| == |old(back)|
      ensures forall i :: o <= i < |back| ==> back[i] == old(back)[i]
      ensures objects == old(objects)[o := Table(old(Slots()))] && o !in old(objects) && BuiltLast(back, o)
      ensures TableTakes(back, o, n) && VTableUsed(back, o, x.open.fields)
    {
      hide Sound, VTableChosen, BuiltLast, SlotMap, ReadBack, SaysSize, TableTakes, ToUint32, VTableUsed;
      VTableInside(x.open, x.state.vtables, x.dedup, back, vtables, o, vtUse);
      ghost var u := back;
      WriteScalar(o, ToUint32(vtUse - o), 4);
      SizeLinked(u, back, o, vtUse, n);
      TableClosed(x, back, minalign, vtables, u, o, vtUse);
      CloseTable(o, x);
    }

    /** The first word of the table, to be filled in, and the vtable to use for it. */
    method MakeVTable(start: nat, ghost t: Open) returns (o: nat, vtUse: nat)
      requires t == Opened() && TableOk(t) && start == tableStart && VTablesAt(back, vtables)
      requires scratch == Words(vtables) + Locs(fields) && numFieldLoc == Count(fields)
      requires |back| + Padding(|back|, 4) + 4 - start < 0x1_0000 && |back| + maxVoffset + 11 < MAX_BUFFER_SIZE
      modifies this`back, this`scratch, this`minalign, this`numFieldLoc, this`maxVoffset, this`vtables
      ensures |t.back| + 4 <= o <= |back| <= |t.back| + t.maxVoffset + 11
      ensures VTableChosen(t, old(vtables), dedupVtables, back, vtables, o, vtUse)
      ensures o == |t.back| + Padding(|t.back|, 4) + 4 && minalign == Larger(old(minalign), 4)
      ensures VTableAdded(t.back, old(vtables), back, vtables, o, VTableSize(old(maxVoffset)))
      ensures SaysSize(back, vtUse, o - start) && (!dedupVtables ==> vtables == old(vtables) + [vtUse])
      ensures scratch == Words(vtables) && numFieldLoc == 0 && maxVoffset == 0
    {
      hide VTableHolds, ReadBack, Locs, Words, HasVTableOf, SameVTable, Padding, SaysSize;
      o := PushElement(0, 4);
      WriteVTable(o, start, t);
      ScratchCleared(vtables, fields, scratch);
      ClearOffsets();
      vtUse := ShareVTable(o, |back|, o - start, t.back);
    }

    // ----- Strings and vectors -----

    /** The bytes of a string, with terminator and length; the length needs no padding. */
    method WriteString(str: seq<byte>) returns (o: nat)
      requires |str| < U32
      modifies this`back, this`minalign
      ensures old(back) <= back && o == |back| <= |old(back)| + |str| + 8 && |old(back)| < o
      ensures StrAt(back, o, str) && minalign == Larger(old(minalign), 4)
    {
      PreAlign(|str| + 1, 4);
      ghost var aligned := back;
      back := back + Zeros(1);
      PushBytes(str);
      ghost var body := back;
      o := PushElement(|str|, 4);
      assert o == |body| + 4 && back[|aligned|] == body[|aligned|] == 0;
      assert HoldsBack(body, |body|, str);
    }

    method CreateString(str: seq<byte>) returns (o: nat)
      requires Valid() && !nested && !inTable && |back| + |str| + 8 < MAX_BUFFER_SIZE
      modifies this`back, this`minalign, this`objects
      ensures Valid() && old(back) <= back && |back| <= |old(back)| + |str| + 8
      ensures |old(back)| < o <= |back| && objects == old(objects)[o := Str(str)] && o !in old(objects)
    {
      hide Sound;
      ghost var x := Snap();
      o := WriteString(str);
      ObjectAdded(x, back, minalign, o, Str(str));
      objects := objects[o := Str(str)];
    }

    method StartVector(len: nat, elemSize: Width, alignment: Width)
      requires Valid() && !nested && !inTable && |back| + 10 < MAX_BUFFER_SIZE
      modifies this`back, this`minalign, this`nested
      ensures Valid() && nested && old(back) <= back && |back| <= |old(back)| + 10
      ensures len == 0 ==> back == old(back) && minalign == old(minalign)
      ensures len > 0 ==>
        && IsAligned(|back| + Times(len, elemSize), 4) && IsAligned(|back| + Times(len, elemSize), alignment)
        && minalign == Larger(Larger(old(minalign), 4), alignment)
        && |back| == |old(back)| + PaddingTo(|old(back)| + Times(len, elemSize), Larger(4, alignment))
    {
      hide Sound, PaddingTo, Times, Larger, IsAligned;
      ghost var x := Snap();
      nested := true;
      PreAlignTwice(len, elemSize, alignment);
      Grown(x, back, minalign);
      NestedFreely(x.(state := Built(), open := Opened()), true);
    }

    /** Pad for the length and for the elements. */
    method PreAlignTwice(len: nat, elemSize: Width, alignment: Width)
      modifies this`back, this`minalign
      ensures old(back) <= back && |back| <= |old(back)| + 10 && old(minalign) <= minalign
      ensures len == 0 ==> back == old(back) && minalign == old(minalign)
      ensures len > 0 ==>
        && IsAligned(|back| + Times(len, elemSize), 4) && IsAligned(|back| + Times(len, elemSize), alignment)
        && minalign == Larger(Larger(old(minalign), 4), alignment)
        && |back| == |old(back)| + PaddingTo(|old(back)| + Times(len, elemSize), Larger(4, alignment))
    {
      hide PaddingTo, Padding, IsAligned;
      PreAlign(Times(len, elemSize), 4);
      PreAlign(Times(len, elemSize), alignment);
      if len > 0 {
        TwicePadded(|old(back)| + Times(len, elemSize), alignment);
      }
    }

    /** The length goes right before the elements, without padding. */
    method EndVector(len: nat) returns (o: nat)
      requires nested && len < U32
      modifies this`back, this`minalign, this`nested
      ensures old(back) <= back && o == |back| == |old(back)| + Padding(|old(back)|, 4) + 4
      ensures IsAligned(o, 4) && ReadBack(back, o, 4) == len && minalign == Larger(old(minalign), 4) && !nested
    {
      nested := false;
      o := PushElement(len, 4);
    }

    method ForceVectorAlignment(len: nat, elemSize: Width, alignment: Alignment)
      requires Valid() && !inTable && |back| + 31 < MAX_BUFFER_SIZE
      modifies this`back, this`minalign
      ensures Valid() && old(back) <= back && |back| <= |old(back)| + 31
      ensures len > 0 ==>
        && AlignedTo(|back| + Times(len, elemSize), alignment) && minalign == Larger(old(minalign), alignment)
    {
      hide Sound;
      if len == 0 {
        return;
      }
      ghost var x := Snap();
      PreAlign(Times(len, elemSize), alignment);
      Grown(x, back, minalign);
    }

    method CreateScalars(vs: seq<nat>, w: Width) returns (o: nat)
      requires Valid() && !nested && !inTable && |back| + Times(|vs|, w) + 17 < MAX_BUFFER_SIZE
      requires forall i :: 0 <= i < |vs| ==> vs[i] < Capacity(w)
      modifies this`back, this`minalign, this`nested, this`objects
      ensures Valid() && !nested && old(back) <= back && |back| <= |old(back)| + Times(|vs|, w) + 17
      ensures |old(back)| < o <= |back| && objects == old(objects)[o := Scalars(w, vs)] && o !in old(objects)
      ensures old(minalign) <= minalign
      ensures vs != [] ==> var n := |old(back)| + Times(|vs|, w); o - 4 == n + PaddingTo(n, Larger(4, w))
    {
      hide Sound, ScalarsAt, PaddingTo, IsAligned, Capacity;
      ghost var x := Snap();
      StartVector(|vs|, w, w);
      o := WriteScalars(vs, w);
      ObjectAdded(x, back, minalign, o, Scalars(w, vs));
      objects := objects[o := Scalars(w, vs)];
    }

    /** The elements, and their number right before them. */
    method WriteScalars(vs: seq<nat>, w: Width) returns (o: nat)
      requires nested && |vs| < U32 && forall i :: 0 <= i < |vs| ==> vs[i] < Capacity(w)
      requires vs != [] ==> var n := |back| + Times(|vs|, w); IsAligned(n, 4) && IsAligned(n, w)
      modifies this`back, this`minalign, this`nested
      ensures old(back) <= back && ScalarsAt(back, o, w, vs) && minalign == Larger(old(minalign), 4) && !nested
      ensures o == |back| && |old(back)| + Times(|vs|, w) + 4 <= o <= |old(back)| + Times(|vs|, w) + 7
      ensures vs != [] ==> o - 4 == |old(back)| + Times(|vs|, w)
    {
      hide ScalarsAt, ReadBack, Capacity;
      PushBytes(ScalarBytes(vs, w));
      ghost var body := back;
      o := EndVector(|vs|);
      ScalarsWritten(body, back, o, vs, w);
    }

    /** A vector whose elements are to start at a multiple of the alignment, if it has any. */
    method CreateForcedScalars(vs: seq<nat>, w: Width, alignment: Alignment) returns (o: nat)
      requires Valid() && !nested && !inTable && |back| + Times(|vs|, w) + 48 < MAX_BUFFER_SIZE
      requires forall i :: 0 <= i < |vs| ==> vs[i] < Capacity(w)
      modifies this`back, this`minalign, this`nested, this`objects
      ensures Valid() && !nested && old(back) <= back && |back| <= |old(back)| + Times(|vs|, w) + 48
      ensures |old(back)| < o <= |back| && objects == old(objects)[o := Scalars(w, vs)] && o !in old(objects)
      ensures vs != [] ==> 4 <= o && AlignedTo(o - 4, alignment) && alignment <= minalign
    {
      hide Sound, AlignedTo, PaddingTo;
      ForceVectorAlignment(|vs|, w, alignment);
      ghost var n := |back| + Times(|vs|, w);
      o := CreateScalars(vs, w);
      if vs != [] {
        ForcedStays(n, alignment, w);
      }
    }

    /** The offsets are stored last to first. */
    method CreateOffsets(ts: seq<nat>) returns (o: nat)
      requires Valid() && !nested && !inTable && |back| + 4 * |ts| + 17 < MAX_BUFFER_SIZE
      requires forall i :: 0 <= i < |ts| ==> 0 < ts[i] <= |back|
      modifies this`back, this`minalign, this`nested, this`objects
      ensures Valid() && !nested && old(back) <= back && |back| <= |old(back)| + 4 * |ts| + 17
      ensures |old(back)| < o <= |back| && objects == old(objects)[o := Offsets(ts)] && o !in old(objects)
    {
      hide Sound;
      StartVector(|ts|, 4, 4);
      ghost var x := Snap();
      PushOffsets(ts);
      Grown(x, back, minalign);
      o := EndOffsets(|ts|, ts);
    }

    method PushOffsets(ts: seq<nat>)
      requires |back| + 4 * |ts| < MAX_BUFFER_SIZE && forall i :: 0 <= i < |ts| ==> 0 < ts[i] <= |back|
      requires ts != [] ==> IsAligned(|back| + 4 * |ts|, 4)
      modifies this`back, this`minalign
      ensures old(back) <= back && |back| == |old(back)| + 4 * |ts|
      ensures OffsetsFrom(back, |back|, ts, 0) && old(minalign) <= minalign && (ts == [] ==> minalign == old(minalign))
    {
      hide OffsetsFrom, SlotAt;
      NoOffsets(back, |back| + 4 * |ts|, ts);
      ghost var n := |back|;
      var i := |ts|;
      while i > 0
        invariant 0 <= i <= |ts| && old(back) <= back && |back| == n + 4 * (|ts| - i)
        invariant OffsetsFrom(back, n + 4 * |ts|, ts, i) && old(minalign) <= minalign
          && (i == |ts| ==> minalign == old(minalign))
      {
        i := i - 1;
        ghost var before := back;
        StillAligned4(n, |ts|, i);
        var at := PushOffset(ts[i]);
        NextOffset(before, back, n + 4 * |ts|, ts, i);
      }
    }

    /** `string_pool->find` with `StringOffsetCompare`. */
    method FindString(off: nat, ghost str: seq<byte>) returns (it: Option<nat>)
      requires poolTexts.Keys == stringPool && forall p :: p in poolTexts ==> StrAt(back, p, poolTexts[p])
      requires StrAt(back, off, str)
      ensures it.Some? ==> it.value in stringPool && poolTexts[it.value] == str
      ensures it.None? ==> str !in poolTexts.Values
    {
      forall p | p in stringPool
        ensures 4 <= p <= |back| && ReadBack(back, p, 4) <= p - 4 && 4 <= off <= |back|
          && ReadBack(back, off, 4) <= off - 4
        ensures !StringOffsetLess(back, p, off) && !StringOffsetLess(back, off, p) <==> poolTexts[p] == str
      {
        StringOffsetLessIsLess(back, p, poolTexts[p], off, str);
        StringOffsetLessIsLess(back, off, str, p, poolTexts[p]);
        LessTotal(poolTexts[p], str);
        LessIrreflexive(str);
      }
      if p :| p in stringPool && !StringOffsetLess(back, p, off) && !StringOffsetLess(back, off, p) {
        return Some(p);
      }
      return None;
    }

    /** Remember a string just written. */
    method PoolString(o: nat, str: seq<byte>, ghost x: Snapshot)
      requires Sound(x) && !x.inTable && x.state.back <= back && |back| < MAX_BUFFER_SIZE
      requires Snap() == x.(state := x.state.(back := back, minalign := minalign),
                            open := x.open.(back := back, minalign := minalign))
      requires x.state.minalign <= minalign && 4 <= minalign
      requires |x.state.back| < o && StrAt(back, o, str) && str !in x.state.pool.Values
      modifies this`objects, this`stringPool, this`poolTexts
      ensures Valid() && o !in old(objects) && objects == old(objects)[o := Str(str)]
      ensures poolTexts == old(poolTexts)[o := str]
    {
      hide Sound, StrAt;
      StringShared(x, back, minalign, o, str);
      stringPool, objects, poolTexts := stringPool + {o}, objects[o := Str(str)], poolTexts[o := str];
    }

    /** Equal contents get equal offsets, different contents different ones (poolTexts is injective
        and never loses an entry), and a hit leaves the buffer as it was. */
    method CreateSharedString(str: seq<byte>) returns (o: nat)
      requires Valid() && !nested && !inTable && |back| + |str| + 8 < MAX_BUFFER_SIZE
      modifies this`back, this`minalign, this`objects, this`stringPool, this`poolTexts
      ensures Valid() && old(back) <= back && |back| <= |old(back)| + |str| + 8
      ensures o in objects && objects[o] == Str(str) && poolTexts == old(poolTexts)[o := str]
      ensures if str in old(poolTexts).Values then
          back == old(back) && objects == old(objects) && poolTexts == old(poolTexts)
        else o !in old(objects) && objects == old(objects)[o := Str(str)]
    {
      hide Sound, StrAt, PoolOk;
      ghost var x := Snap();
      PoolReads(x);
      var sizeBeforeString := |back|;
      o := WriteString(str);
      PoolStays(x.state.back, back, poolTexts);
      var it := FindString(o, str);
      if it.Some? {
        back := back[..|back| - (|back| - sizeBeforeString)];
        o := it.value;
        Grown(x, back, minalign);
      } else {
        PoolString(o, str, x);
      }
    }

    /** The strings, then a vector of their offsets, which wait in the scratch space. */
    method CreateVectorOfStrings(ss: seq<seq<byte>>) returns (o: nat, ghost os: seq<nat>)
      requires Valid() && !nested && !inTable && pending == []
      requires |back| + StringsSize(ss, |ss|) + 4 * |ss| + 17 < MAX_BUFFER_SIZE
      modifies this`back, this`scratch, this`minalign, this`nested, this`objects, this`pending
      ensures Valid() && !nested && pending == [] && old(back) <= back
      ensures |back| <= |old(back)| + StringsSize(ss, |ss|) + 4 * |ss| + 17
      ensures |os| == |ss| && |old(back)| < o <= |back| && o in objects && objects[o] == Offsets(os)
      ensures forall i :: 0 <= i < |ss| ==> os[i] in objects && objects[os[i]] == Str(ss[i])
      ensures forall p :: p in old(objects) ==> p in objects && objects[p] == old(objects)[p]
    {
      hide Sound;
      CreateStrings(ss);
      os := pending;
      o := StorePending(|ss|);
    }

    /** A vector of the offsets kept in the scratch space. */
    method StorePending(size: nat) returns (o: nat)
      requires Valid() && !nested && !inTable && size == |pending| && |back| + 4 * size + 17 < MAX_BUFFER_SIZE
      requires forall i :: 0 <= i < size ==> 0 < pending[i] <= |back|
      modifies this`back, this`scratch, this`minalign, this`nested, this`objects, this`pending
      ensures Valid() && !nested && pending == [] && old(back) <= back && |back| <= |old(back)| + 4 * size + 17
      ensures |old(back)| < o <= |back| && objects == old(objects)[o := Offsets(old(pending))] && o !in old(objects)
    {
      hide Sound;
      StartVector(size, 4, 4);
      ghost var os := pending;
      PushPending(size);
      PopPending(size);
      o := EndOffsets(size, os);
    }

    method EndOffsets(len: nat, ghost os: seq<nat>) returns (o: nat)
      requires Valid() && nested && !inTable && |os| == len && |back| + 7 < MAX_BUFFER_SIZE
      requires OffsetsFrom(back, |back|, os, 0) && 4 * len <= |back| && (len > 0 ==> IsAligned(|back|, 4))
      modifies this`back, this`minalign, this`nested, this`objects
      ensures Valid() && !nested && old(back) <= back && |back| <= |old(back)| + 7
      ensures |old(back)| < o <= |back| && objects == old(objects)[o := Offsets(os)] && o !in old(objects)
    {
      hide Sound;
      ghost var x := Snap();
      o := EndVector(len);
      OffsetsWritten(x.state.back, back, o, os);
      NestedFreely(x, false);
      ObjectAdded(x.(nested := false), back, minalign, o, Offsets(os));
      objects := objects[o := Offsets(os)];
    }

    method CreateStrings(ss: seq<seq<byte>>)
      requires Valid() && !nested && !inTable && pending == []
      requires |back| + StringsSize(ss, |ss|) < MAX_BUFFER_SIZE
      modifies this`back, this`scratch, this`minalign, this`objects, this`pending
      ensures Valid() && old(back) <= back && |back| <= |old(back)| + StringsSize(ss, |ss|)
      ensures |pending| == |ss| && forall i :: 0 <= i < |ss| ==>
        0 < pending[i] <= |back| && pending[i] in objects && objects[pending[i]] == Str(ss[i])
      ensures forall p :: p in old(objects) ==> p in objects && objects[p] == old(objects)[p]
    {
      hide Sound, StringsSize;
      NoStrings(ss);
      for i := 0 to |ss|
        invariant Valid() && old(back) <= back && |back| <= |old(back)| + StringsSize(ss, i)
        invariant |pending| == i && forall j :: 0 <= j < i ==>
          0 < pending[j] <= |back| && pending[j] in objects && objects[pending[j]] == Str(ss[j])
        invariant forall p :: p in old(objects) ==> p in objects && objects[p] == old(objects)[p]
      {
        StringsSizeGrows(ss, i + 1, |ss|);
        NextString(ss, i);
        var off := PushString(ss[i]);
      }
    }

    /** Create a string and keep its offset in the scratch space. */
    method PushString(str: seq<byte>) returns (off: nat)
      requires Valid() && !nested && !inTable && |back| + |str| + 8 < MAX_BUFFER_SIZE
      modifies this`back, this`scratch, this`minalign, this`objects, this`pending
      ensures Valid() && old(back) <= back && |back| <= |old(back)| + |str| + 8 && |old(back)| < off <= |back|
      ensures pending == old(pending) + [off] && objects == old(objects)[off := Str(str)] && off !in old(objects)
    {
      hide Sound;
      off := CreateString(str);
      PendingPushed(Snap(), off);
      scratch, pending := scratch + LittleEndian(off, 4), pending + [off];
    }

    /** Push the offsets kept in the scratch space, from the last. */
    method PushPending(size: nat)
      requires Valid() && !inTable && size == |pending| && |back| + 4 * size < MAX_BUFFER_SIZE
      requires forall i :: 0 <= i < size ==> 0 < pending[i] <= |back|
      requires size > 0 ==> IsAligned(|back| + 4 * size, 4)
      modifies this`back, this`minalign
      ensures Valid() && old(back) <= back && |back| == |old(back)| + 4 * size && OffsetsFrom(back, |back|, pending, 0)
    {
      hide Sound, OffsetsFrom, SlotAt;
      NoOffsets(back, |back| + 4 * size, pending);
      ghost var x := Snap();
      ghost var n := |back|;
      for i := 1 to size + 1
        invariant old(back) <= back && |back| == n + 4 * (i - 1) && old(minalign) <= minalign
        invariant OffsetsFrom(back, n + 4 * size, pending, size - (i - 1))
      {
        PendingRead(x, i);
        var off := ReadUnsigned(scratch, |scratch| - 4 * i, 4);
        ghost var before := back;
        StillAligned4(n, size, size - i);
        var at := PushOffset(off);
        NextOffset(before, back, n + 4 * size, pending, size - i);
      }
      Grown(x, back, minalign);
    }

    method PopPending(size: nat)
      requires Valid() && !inTable && size == |pending|
      modifies this`scratch, this`pending
      ensures Valid() && pending == []
    {
      hide Sound;
      PendingPopped(Snap());
      scratch, pending := scratch[..|scratch| - 4 * size], [];
    }

    /** Forget the vtables written. */
    method ClearScratch()
      requires Valid() && !inTable
      modifies this`scratch, this`vtables, this`pending
      ensures Valid()
    {
      hide Sound;
      ScratchForgotten(Snap());
      scratch, vtables, pending := [], [], [];
    }

    /** The identifier, if given, is four characters. */
    method Finish(root: nat, id: Option<seq<byte>>, sizePrefix: bool)
      requires Valid() && !nested && !inTable && root in objects && |back| + 47 < MAX_BUFFER_SIZE
      requires id.Some? ==> |id.value| == 4
      modifies this`back, this`scratch, this`minalign, this`finished, this`vtables, this`pending
      ensures Valid() && finished && IsFinished(old(back), back, minalign, root, id, sizePrefix)
      ensures minalign == old(minalign) && |back| < MAX_BUFFER_SIZE && |back| <= |old(back)| + 47
    {
      hide Sound;
      HoldingAligns(Snap(), root);
      ClearScratch();
      ghost var y := Snap();
      WriteRoot(root, id, sizePrefix);
      Grown(y, back, minalign);
      finished := true;
    }

    method WriteRoot(root: nat, id: Option<seq<byte>>, sizePrefix: bool)
      requires 0 < root <= |back| && 4 <= minalign && |back| + 47 < MAX_BUFFER_SIZE
      requires id.Some? ==> |id.value| == 4
      modifies this`back, this`minalign
      ensures IsFinished(old(back), back, minalign, root, id, sizePrefix)
      ensures minalign == old(minalign) && |back| < MAX_BUFFER_SIZE
    {
      hide IsFinished, SlotAt, ReadBack;
      PreAlign((if sizePrefix then 4 else 0) + 4 + IdSize(id), minalign);
      ghost var padded := back;
      FourAligned(|padded| + (if sizePrefix then 4 else 0) + 4 + IdSize(id), minalign);
      if id.Some? {
        PushBytes(id.value);
      }
      ghost var identified := back;
      NoPadding(|identified|, if sizePrefix then 2 else 1);
      var at := PushOffset(root);
      ghost var rooted := back;
      if sizePrefix {
        NoPadding(|rooted|, 1);
        var _ := PushElement(|back|, 4);
      }
      RootWritten(old(back), padded, identified, rooted, back, minalign, root, id, sizePrefix);
    }
  }

  lemma EvenSum(o: nat, n: nat)
    requires IsAligned(o, 4) && n % 2 == 0
    ensures (o + n) % 2 == 0
  {
    assert o == 2 * (2 * (o / 4)) && n == 2 * (n / 2);
  }

  lemma NoPadding(n: nat, k: nat)
    requires IsAligned(n + 4 * k, 4)
    ensures Padding(n, 4) == 0
  {
  }

  lemma RootWritten(a: seq<byte>, padded: seq<byte>, identified: seq<byte>, rooted: seq<byte>, b: seq<byte>,
                    minalign: Alignment, root: nat, id: Option<seq<byte>>, sizePrefix: bool)
    requires |a| <= |padded| < |a| + minalign && padded == a + Zeros(|padded| - |a|)
    requires id.Some? ==> |id.value| == 4
    requires identified == padded + (if id.Some? then Reversed(id.value) else [])
    requires identified <= rooted && |rooted| == |identified| + 4 && SlotAt(rooted, |rooted|, Ref(root))
    requires rooted <= b && |b| == |rooted| + (if sizePrefix then 4 else 0) && AlignedTo(|b|, minalign)
    requires sizePrefix ==> ReadBack(b, |b|, 4) == |rooted|
    ensures IsFinished(a, b, minalign, root, id, sizePrefix)
  {
    hide SlotAt, HoldsBack, ReadBack, AlignedTo, Zeros;
    SlotGrows(rooted, b, |rooted|, Ref(root));
    ZerosStay(a, padded, b);
    if id.Some? {
      IdentifierStays(padded, id.value, identified, b);
    }
  }

  lemma ZerosStay(a: seq<byte>, padded: seq<byte>, b: seq<byte>)
    requires |a| <= |padded| && padded == a + Zeros(|padded| - |a|) && padded <= b
    ensures a <= b && forall i :: |a| <= i < |padded| ==> b[i] == 0
  {
    forall i | |a| <= i < |padded| ensures b[i] == 0 {
      assert b[i] == padded[i];
    }
  }

  lemma IdentifierStays(padded: seq<byte>, id: seq<byte>, identified: seq<byte>, b: seq<byte>)
    requires identified == padded + Reversed(id) && identified <= b
    ensures HoldsBack(b, |identified|, id)
  {
    forall i | |identified| - |id| <= i < |identified| ensures b[i] == id[|identified| - 1 - i] {
      assert b[i] == identified[i] == Reversed(id)[i - |padded|];
    }
  }

  lemma StillAligned(n: nat, w: Width)
    requires IsAligned(n, w)
    ensures IsAligned(n + w, w)
  {
  }

  lemma VoffsetFits(x: Snapshot)
    requires Sound(x) && x.inTable
    ensures x.open.maxVoffset <= 0xFFFC
  {
  }

  lemma TableIsOpen(x: Snapshot)
    requires Sound(x) && x.inTable
    ensures TableOk(x.open) && VTablesAt(x.state.back, x.state.vtables)
    ensures x.scratch == Words(x.state.vtables) + Locs(x.open.fields) && x.numFieldLoc == Count(x.open.fields)
  {
    assert x.state.vtables + x.pending == x.state.vtables;
  }

  lemma StillAligned4(n: nat, len: nat, i: nat)
    requires IsAligned(n + 4 * len, 4) && i < len
    ensures Padding(n + 4 * (len - i - 1), 4) == 0
  {
  }

  /** Offsets from number i on are stored in a vector body that ends p from the end. */
  ghost predicate OffsetsFrom(b: seq<byte>, p: nat, ts: seq<nat>, i: nat) {
    forall j :: i <= j < |ts| ==> 4 * j <= p && SlotAt(b, p - 4 * j, Ref(ts[j]))
  }

  lemma NoOffsets(b: seq<byte>, p: nat, ts: seq<nat>)
    ensures OffsetsFrom(b, p, ts, |ts|)
  {
  }

  /** One more offset stored, before those that are there. */
  lemma NextOffset(a: seq<byte>, b: seq<byte>, p: nat, ts: seq<nat>, i: nat)
    requires a <= b && i < |ts| && OffsetsFrom(a, p, ts, i + 1) && 4 * i <= p && SlotAt(b, p - 4 * i, Ref(ts[i]))
    ensures OffsetsFrom(b, p, ts, i)
  {
    OffsetsFromGrow(a, b, p, ts, i + 1);
  }

  lemma OffsetsFromGrow(a: seq<byte>, b: seq<byte>, p: nat, ts: seq<nat>, i: nat)
    requires a <= b && OffsetsFrom(a, p, ts, i)
    ensures OffsetsFrom(b, p, ts, i)
  {
    forall j | i <= j < |ts| ensures 4 * j <= p && SlotAt(b, p - 4 * j, Ref(ts[j])) {
      SlotGrows(a, b, p - 4 * j, Ref(ts[j]));
    }
  }

  lemma OffsetsWritten(body: seq<byte>, b: seq<byte>, o: nat, ts: seq<nat>)
    requires body <= b && o == |b| == |body| + Padding(|body|, 4) + 4 && IsAligned(o, 4) && ReadBack(b, o, 4) == |ts|
    requires OffsetsFrom(body, |body|, ts, 0) && 4 * |ts| <= |body| && (ts != [] ==> IsAligned(|body|, 4))
    ensures OffsetsAt(b, o, ts)
  {
    OffsetsFromGrow(body, b, |body|, ts, 0);
  }

  /** What is aligned is aligned to less. */
  lemma AlignedLess(n: nat, a: Alignment, b: Alignment)
    requires AlignedTo(n, b) && a <= b
    ensures AlignedTo(n, a)
  {
    assert n % b == 0 && b % a == 0;
    AlignedDown(n, a, b);
  }

  /** Padding for the length and the elements keeps a larger alignment, and makes a smaller one. */
  lemma ForcedStays(n: nat, alignment: Alignment, w: Width)
    requires AlignedTo(n, alignment)
    ensures AlignedTo(n + PaddingTo(n, Larger(4, w)), alignment)
  {
    hide AlignedTo, PaddingTo;
    var m := Larger(4, w);
    if alignment <= m {
      AlignedLess(n + PaddingTo(n, m), alignment, m);
    } else {
      AlignedLess(n, m, alignment);
      NoMorePadding(n, m);
    }
  }

  lemma NoMorePadding(n: nat, a: Alignment)
    requires AlignedTo(n, a)
    ensures PaddingTo(n, a) == 0
  {
    PaddingToIsPaddingBytes(n, a);
    assert n % a == 0;
    PaddingUnique(n, a, 0);
  }

  lemma PoolStays(a: seq<byte>, b: seq<byte>, pool: map<nat, seq<byte>>)
    requires a <= b && forall p :: p in pool ==> StrAt(a, p, pool[p])
    ensures forall p :: p in pool ==> StrAt(b, p, pool[p])
  {
    hide StrAt;
    forall p | p in pool ensures StrAt(b, p, pool[p]) {
      ObjGrows(a, b, p, Str(pool[p]));
    }
  }

  /** Two bytes for each field id up to the largest, the sizes of the vtable and of the table in front. */
  function VTableSize(maxVoffset: nat): nat {
    if maxVoffset + 2 > 4 then maxVoffset + 2 else 4
  }

  /** One of these vtables has this size. */
  predicate HasVTableOf(b: seq<byte>, vtables: seq<nat>, size: nat) {
    exists v :: v in vtables && 2 <= v <= |b| && ReadBack(b, v, 2) == size
  }

  /** A vtable of this size has followed the table at o, or one of the same size is shared. */
  predicate VTableAdded(a: seq<byte>, before: seq<nat>, b: seq<byte>, vtables: seq<nat>, o: nat, size: nat) {
    if vtables == before then |b| == o && HasVTableOf(a, before, size)
    else vtables == before + [|b|] && 2 <= |b| == o + size && ReadBack(b, |b|, 2) == size
  }

  lemma SharedSize(a: seq<byte>, b: seq<byte>, vtables: seq<nat>, v: nat, w: nat)
    requires a <= b && VTablesAt(a, vtables) && v in vtables && VTableAt(b, v) && VTableAt(b, w) && SameVTable(b, v, w)
    ensures HasVTableOf(a, vtables, ReadBack(b, w, 2))
  {
    hide ReadBack;
    assert VTableAt(a, v);
    ReadBackGrows(a, b, v, 2);
  }

  lemma AddedStays(a: seq<byte>, before: seq<nat>, u: seq<byte>, b: seq<byte>, vtables: seq<nat>, o: nat, size: nat)
    requires VTableAdded(a, before, u, vtables, o, size) && size >= 2
    requires |u| == |b| && forall i :: o <= i < |b| ==> b[i] == u[i]
    ensures VTableAdded(a, before, b, vtables, o, size)
  {
    hide ReadBack;
    if vtables != before {
      ReadBackSame(u, |u|, b, |b|, 2);
    }
  }

  lemma HalfPaddedBy(n: nat, p: nat, q: nat, r: nat, x: nat, y: nat, z: nat)
    requires p < 4 && n + p == 4 * x && q < 8 && n + p + q == 8 * y && r < 8 && n + r == 8 * z
    ensures p + q == r
  {
    assert 2 * y - x == 0 || 2 * y - x == 1;
    assert y == z;
  }

  lemma Quarter(n: nat)
    requires n % 4 == 0
    ensures n == 4 * (n / 4)
  {
  }

  lemma Eighth(n: nat)
    requires n % 8 == 0
    ensures n == 8 * (n / 8) && n % 4 == 0
  {
  }

  /** Padding to 4 and then to 8 is padding to 8. */
  lemma HalfPadded(n: nat, p: nat, q: nat, r: nat)
    requires p < 4 && (n + p) % 4 == 0 && q < 8 && (n + p + q) % 8 == 0 && r < 8 && (n + r) % 8 == 0
    ensures p + q == r && (n + p + q) % 4 == 0
  {
    Quarter(n + p);
    Eighth(n + p + q);
    Eighth(n + r);
    HalfPaddedBy(n, p, q, r, (n + p) / 4, (n + p + q) / 8, (n + r) / 8);
  }

  /** Padding to 4 and then to a is padding to the larger of the two. */
  lemma TwicePadded(n: nat, a: Width)
    ensures var p := PaddingTo(n, 4); var q := PaddingTo(n + p, a);
      && IsAligned(n + p + q, 4) && IsAligned(n + p + q, a) && p + q <= 10
      && p + q == PaddingTo(n, Larger(4, a))
  {
    hide PaddingTo;
    var p := PaddingTo(n, 4);
    if a <= 4 {
      AlignedLess(n + p, a, 4);
      NoMorePadding(n + p, a);
    } else {
      HalfPadded(n, p, PaddingTo(n + p, 8), PaddingTo(n, 8));
    }
  }

  /** Scalars as they are in memory. */
  function ScalarBytes(vs: seq<nat>, w: Width): (s: seq<byte>)
    ensures |s| == Times(|vs|, w)
  {
    if vs == [] then [] else LittleEndian(vs[0], w) + ScalarBytes(vs[1..], w)
  }

  lemma {:induction false} ScalarHeld(b: seq<byte>, p: nat, vs: seq<nat>, w: Width, i: nat)
    requires HoldsBack(b, p, ScalarBytes(vs, w)) && i < |vs|
    ensures Times(i, w) <= p && HoldsBack(b, p - Times(i, w), LittleEndian(vs[i], w))
    decreases i
  {
    hide HoldsBack, LittleEndian;
    var first, rest := LittleEndian(vs[0], w), ScalarBytes(vs[1..], w);
    HoldsParts(b, p, first, rest);
    if i > 0 {
      ScalarHeld(b, p - w, vs[1..], w, i - 1);
    }
  }

  lemma HoldsParts(b: seq<byte>, p: nat, s: seq<byte>, t: seq<byte>)
    requires HoldsBack(b, p, s + t)
    ensures HoldsBack(b, p, s) && HoldsBack(b, p - |s|, t)
  {
    assert forall i :: p - |s| <= i < p ==> b[i] == (s + t)[p - 1 - i] == s[p - 1 - i];
    assert forall i :: p - |s| - |t| <= i < p - |s| ==> b[i] == (s + t)[p - 1 - i] == t[p - |s| - 1 - i];
  }

  lemma ScalarsWritten(body: seq<byte>, b: seq<byte>, o: nat, vs: seq<nat>, w: Width)
    requires body <= b && o == |b| == |body| + Padding(|body|, 4) + 4 && IsAligned(o, 4) && ReadBack(b, o, 4) == |vs|
    requires HoldsBack(body, |body|, ScalarBytes(vs, w)) && forall i :: 0 <= i < |vs| ==> vs[i] < Capacity(w)
    requires vs != [] ==> IsAligned(|body|, 4) && IsAligned(|body|, w)
    ensures ScalarsAt(b, o, w, vs)
  {
    hide HoldsBack, ElementAt, ReadBack, ScalarBytes, Capacity;
    BodyHolds(body, vs, w);
    if vs == [] {
      assert ScalarsAt(b, o, w, vs);
    } else {
      assert o - 4 == |body|;
      forall i | 0 <= i < |vs| ensures ElementAt(b, o, w, i, vs[i]) {
        ScalarWritten(body, b, o, vs, w, i);
      }
    }
  }

  lemma BodyHolds(body: seq<byte>, vs: seq<nat>, w: Width)
    requires HoldsBack(body, |body|, ScalarBytes(vs, w))
    ensures Times(|vs|, w) <= |body|
  {
  }

  lemma HeldLonger(a: seq<byte>, b: seq<byte>, p: nat, s: seq<byte>)
    requires a <= b && HoldsBack(a, p, s)
    ensures |s| <= p <= |b| && HoldsBack(b, p, s)
  {
  }

  lemma ScalarWritten(body: seq<byte>, b: seq<byte>, o: nat, vs: seq<nat>, w: Width, i: nat)
    requires body <= b && o == |b| == |body| + 4 && HoldsBack(body, |body|, ScalarBytes(vs, w))
    requires i < |vs| && vs[i] < Capacity(w)
    ensures ElementAt(b, o, w, i, vs[i])
  {
    hide HoldsBack, LittleEndian, ScalarBytes, Times, ReadBack;
    ScalarHeld(body, |body|, vs, w, i);
    var p := |body| - Times(i, w);
    HeldLonger(body, b, p, LittleEndian(vs[i], w));
    ScalarReadsBackwards(b, p, w, vs[i]);
  }

  function StringsSize(ss: seq<seq<byte>>, n: nat): nat
    requires n <= |ss|
  {
    if n == 0 then 0 else StringsSize(ss, n - 1) + |ss[n - 1]| + 8
  }

  lemma NoStrings(ss: seq<seq<byte>>)
    ensures StringsSize(ss, 0) == 0
  {
  }

  lemma NextString(ss: seq<seq<byte>>, i: nat)
    requires i < |ss|
    ensures StringsSize(ss, i + 1) == StringsSize(ss, i) + |ss[i]| + 8
  {
  }

  lemma {:induction false} StringsSizeGrows(ss: seq<seq<byte>>, i: nat, n: nat)
    requires i <= n <= |ss|
    ensures StringsSize(ss, i) <= StringsSize(ss, n)
    decreases n
  {
    if i < n {
      StringsSizeGrows(ss, i, n - 1);
    }
  }

  /** The characters of the string at o. */
  function StringBytes(b: seq<byte>, o: nat): (s: seq<byte>)
    requires 4 <= o <= |b| && ReadBack(b, o, 4) <= o - 4
  {
    Reversed(b[o - 4 - ReadBack(b, o, 4)..o - 4])
  }

  /** `StringOffsetCompare`. */
  predicate StringOffsetLess(b: seq<byte>, p: nat, q: nat)
    requires 4 <= p <= |b| && ReadBack(b, p, 4) <= p - 4 && 4 <= q <= |b| && ReadBack(b, q, 4) <= q - 4
  {
    StringLessThan(StringBytes(b, p), StringBytes(b, q))
  }

  lemma StringOffsetLessIsLess(b: seq<byte>, p: nat, s: seq<byte>, q: nat, t: seq<byte>)
    requires StrAt(b, p, s) && StrAt(b, q, t)
    ensures StringOffsetLess(b, p, q) <==> Less(s, t)
  {
    assert StringBytes(b, p) == s && StringBytes(b, q) == t;
    StringLessThanIsLess(s, t);
  }
}
