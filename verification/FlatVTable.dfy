/** The bookkeeping of a table under construction: vtable offsets and field locations in the
    scratch space, and the vtable made of them. */
module FlatVTable {
  import opened Bytes
  import opened Widths
  import opened Backward
  import opened FlatFormat
  import opened FlatObjects

  /** A field of the open table starts off from the end. */
  datatype FieldLoc = FieldLoc(off: nat, id: nat)

  /** The fields of the open table, the last one added outermost, and what they hold. */
  datatype Fields = NoFields | More(rest: Fields, last: FieldLoc, slot: Slot)

  function Count(fs: Fields): nat {
    if fs.NoFields? then 0 else Count(fs.rest) + 1
  }

  /** The first k fields added. */
  function First(fs: Fields, k: nat): (r: Fields)
    ensures k <= Count(fs) ==> Count(r) == k
  {
    if Count(fs) <= k then fs else First(fs.rest, k)
  }

  // ----- The scratch space -----

  function Words(os: seq<nat>): (s: seq<byte>)
    ensures |s| == 4 * |os|
  {
    if os == [] then [] else Words(os[..|os| - 1]) + LittleEndian(os[|os| - 1], 4)
  }

  /** A field location takes eight bytes, two of them padding. */
  function LocBytes(f: FieldLoc): (s: seq<byte>)
    ensures |s| == 8
  {
    LittleEndian(f.off, 4) + (LittleEndian(f.id, 2) + Zeros(2))
  }

  function Locs(fs: Fields): (s: seq<byte>)
    ensures |s| == 8 * Count(fs)
  {
    if fs.NoFields? then [] else Locs(fs.rest) + LocBytes(fs.last)
  }

  lemma WordsAppend(os: seq<nat>, o: nat)
    ensures Words(os + [o]) == Words(os) + LittleEndian(o, 4)
  {
    assert (os + [o])[..|os|] == os;
  }

  /** With no table open the scratch space holds only the remembered vtables. */
  lemma ScratchAtRest(vtables: seq<nat>, pending: seq<nat>)
    requires pending == []
    ensures Words(vtables + pending) + Locs(NoFields) == Words(vtables)
  {
    assert vtables + pending == vtables;
  }

  lemma ScratchCleared(vtables: seq<nat>, fs: Fields, scratch: seq<byte>)
    requires scratch == Words(vtables) + Locs(fs)
    ensures |scratch| >= 8 * Count(fs) && scratch[..|scratch| - 8 * Count(fs)] == Words(vtables)
  {
  }

  lemma {:induction false} WordsPrefix(a: seq<nat>, b: seq<nat>)
    ensures |Words(a + b)| == 4 * |a| + 4 * |b| && Words(a + b)[..4 * |a|] == Words(a)
  {
    if b == [] {
      assert a + b == a;
    } else {
      assert (a + b)[..|a + b| - 1] == a + b[..|b| - 1];
      WordsPrefix(a, b[..|b| - 1]);
    }
  }

  lemma {:induction false} WordRead(os: seq<nat>, scratch: seq<byte>, i: nat)
    requires Words(os) <= scratch && i < |os| && os[i] < U32
    ensures ReadUnsigned(scratch, 4 * i, 4) == os[i]
    decreases |os|
  {
    var n := |os| - 1;
    if i == n {
      assert BytesAt(Words(os), 4 * n, LittleEndian(os[n], 4));
      ScalarReadsBack(scratch, 4 * n, 4, os[n]);
    } else {
      WordRead(os[..n], scratch, i);
    }
  }

  /** The location of the k-th field is where the scratch space has it. */
  lemma {:induction false} LocRead(before: seq<byte>, fs: Fields, scratch: seq<byte>, k: nat)
    requires before + Locs(fs) <= scratch && k < Count(fs) && Encodable(fs)
    ensures First(fs, k + 1).More? && First(fs, k + 1).rest == First(fs, k)
    ensures ReadUnsigned(scratch, |before| + 8 * k, 4) == First(fs, k + 1).last.off
    ensures ReadUnsigned(scratch, |before| + 8 * k + 4, 2) == First(fs, k + 1).last.id
    decreases fs
  {
    var n := Count(fs) - 1;
    if k == n {
      var at := |before| + 8 * n;
      assert BytesAt(before + Locs(fs), at, LocBytes(fs.last));
      assert BytesAt(scratch, at, LocBytes(fs.last));
      LocBytesRead(scratch, at, fs.last);
      FirstAll(fs.rest);
    } else {
      assert before + Locs(fs.rest) <= before + Locs(fs);
      LocRead(before, fs.rest, scratch, k);
    }
  }

  lemma FirstAll(fs: Fields)
    ensures First(fs, Count(fs)) == fs
  {
  }

  /** Field locations that fit the 32 and 16 bits they are stored in. */
  predicate Encodable(fs: Fields) {
    fs.NoFields? || (fs.last.off < U32 && fs.last.id < 0x1_0000 && Encodable(fs.rest))
  }

  lemma LocBytesRead(scratch: seq<byte>, at: nat, f: FieldLoc)
    requires BytesAt(scratch, at, LocBytes(f)) && f.off < U32 && f.id < 0x1_0000
    ensures ReadUnsigned(scratch, at, 4) == f.off && ReadUnsigned(scratch, at + 4, 2) == f.id
  {
    var s := LocBytes(f);
    assert forall j :: 0 <= j < 4 ==> s[j] == LittleEndian(f.off, 4)[j];
    assert forall j :: 0 <= j < 2 ==> s[j + 4] == LittleEndian(f.id, 2)[j];
    assert BytesAt(scratch, at, LittleEndian(f.off, 4));
    assert BytesAt(scratch, at + 4, LittleEndian(f.id, 2)) by {
      forall j | at + 4 <= j < at + 6 ensures scratch[j] == LittleEndian(f.id, 2)[j - (at + 4)] {
        assert scratch[j] == s[j - at] == s[(j - at - 4) + 4];
      }
    }
    ScalarReadsBack(scratch, at, 4, f.off);
    ScalarReadsBack(scratch, at + 4, 2, f.id);
  }

  // ----- The vtable -----

  /** How far into the table at o the last field with this id is, or 0. */
  function PosOf(fs: Fields, id: nat, o: nat): int {
    if fs.NoFields? then 0
    else if fs.last.id == id then o - fs.last.off
    else PosOf(fs.rest, id, o)
  }

  /** The vtable at v has exactly the fields fs, of the table at o. */
  ghost predicate VTableHolds(b: seq<byte>, v: nat, fs: Fields, o: nat) {
    && VTableAt(b, v)
    && forall field: nat :: IsField(field) ==> Entry(b, v, field) == PosOf(fs, field, o)
  }

  /** Two vtables with the same bytes. */
  predicate SameVTable(b: seq<byte>, v: nat, w: nat)
    requires VTableAt(b, v) && VTableAt(b, w)
  {
    ReadBack(b, v, 2) == ReadBack(b, w, 2) && forall i :: v - ReadBack(b, v, 2) <= i < v ==> b[i] == b[i - v + w]
  }

  lemma SameVTableSymmetric(b: seq<byte>, v: nat, w: nat)
    requires VTableAt(b, v) && VTableAt(b, w) && SameVTable(b, v, w)
    ensures SameVTable(b, w, v)
  {
    forall i | w - ReadBack(b, w, 2) <= i < w ensures b[i] == b[i - w + v] {
      assert b[i - w + v] == b[(i - w + v) - v + w];
    }
  }

  lemma SameVTableHolds(b: seq<byte>, v: nat, w: nat, fs: Fields, o: nat)
    requires VTableHolds(b, v, fs, o) && VTableAt(b, w) && SameVTable(b, v, w)
    ensures VTableHolds(b, w, fs, o)
  {
    hide ReadBack, VTableAt, SameVTable, Entry;
    forall field: nat | IsField(field) ensures Entry(b, w, field) == Entry(b, v, field) {
      SameEntry(b, v, w, field);
    }
  }

  lemma SameSize(b: seq<byte>, v: nat, w: nat, n: nat)
    requires VTableAt(b, v) && VTableAt(b, w) && SameVTable(b, v, w) && SaysSize(b, v, n)
    ensures SaysSize(b, w, n)
  {
    ReadBackSame(b, v - 2, b, w - 2, 2);
  }

  lemma SizeKept(a: seq<byte>, b: seq<byte>, v: nat, n: nat)
    requires SaysSize(a, v, n) && v <= |b| && forall i :: v - 4 <= i < v ==> a[i] == b[i]
    ensures SaysSize(b, v, n)
  {
    ReadBackSame(a, v - 2, b, v - 2, 2);
  }

  lemma SameEntry(b: seq<byte>, v: nat, w: nat, field: nat)
    requires VTableAt(b, v) && VTableAt(b, w) && SameVTable(b, v, w) && IsField(field)
    ensures Entry(b, w, field) == Entry(b, v, field)
  {
    hide ReadBack;
    if field < ReadBack(b, v, 2) {
      assert field + 2 <= ReadBack(b, v, 2);
      assert forall i :: v - field - 2 <= i < v - field ==> b[i] == b[i - v + w];
      ReadBackSame(b, v - field, b, w - field, 2);
    }
  }

  /** Bytes outside a vtable do not matter to it. */
  lemma VTableKept(a: seq<byte>, b: seq<byte>, v: nat, fs: Fields, o: nat)
    requires VTableHolds(a, v, fs, o) && v <= |b|
    requires forall i :: v - ReadBack(a, v, 2) <= i < v ==> a[i] == b[i]
    ensures VTableHolds(b, v, fs, o) && ReadBack(b, v, 2) == ReadBack(a, v, 2)
  {
    hide ReadBack, PosOf;
    ReadBackSame(a, v, b, v, 2);
    forall field: nat | IsField(field) ensures Entry(b, v, field) == Entry(a, v, field) {
      if field < ReadBack(a, v, 2) {
        ReadBackSame(a, v - field, b, v - field, 2);
      }
    }
  }

  /** Filling in one more entry. */
  lemma VTableFilled(a: seq<byte>, b: seq<byte>, v: nat, fs: Fields, o: nat)
    requires fs.More? && VTableHolds(a, v, fs.rest, o) && |a| == |b|
    requires IsField(fs.last.id) && fs.last.id + 2 <= ReadBack(a, v, 2)
    requires ReadBack(b, v - fs.last.id, 2) == o - fs.last.off
    requires forall i :: 0 <= i < |a| && !(v - fs.last.id - 2 <= i < v - fs.last.id) ==> b[i] == a[i]
    ensures VTableHolds(b, v, fs, o) && ReadBack(b, v, 2) == ReadBack(a, v, 2)
  {
    var f := fs.last;
    ReadBackSame(a, v, b, v, 2);
    forall field: nat | IsField(field) ensures Entry(b, v, field) == PosOf(fs, field, o) {
      if field != f.id && field < ReadBack(a, v, 2) {
        assert field + 2 <= f.id || f.id + 2 <= field;
        ReadBackSame(a, v - field, b, v - field, 2);
      }
    }
  }

  lemma EmptyVTable(b: seq<byte>, v: nat, o: nat)
    requires VTableAt(b, v) && forall i :: v - ReadBack(b, v, 2) <= i < v - 4 ==> b[i] == 0
    ensures VTableHolds(b, v, NoFields, o)
  {
    forall field: nat | IsField(field) ensures Entry(b, v, field) == 0 {
      if field < ReadBack(b, v, 2) {
        assert field + 2 <= ReadBack(b, v, 2);
        assert b[v - field - 1] == 0 && b[v - field - 2] == 0;
        assert ReadBack(b, v - field - 1, 1) == b[v - field - 2] + 256 * ReadBack(b, v - field - 2, 0);
      }
    }
  }

  // ----- The open table -----

  function SlotMap(fs: Fields): map<nat, Slot> {
    if fs.NoFields? then map[] else SlotMap(fs.rest)[fs.last.id := fs.slot]
  }

  /** Each field once, and stored where its location says. */
  ghost predicate OpenTable(b: seq<byte>, start: nat, fs: Fields, maxVoffset: nat) {
    fs.NoFields? || (
      && OpenTable(b, start, fs.rest, maxVoffset)
      && fs.last.id !in SlotMap(fs.rest)
      && FieldOk(b, start, fs.last, fs.slot, maxVoffset))
  }

  predicate FieldOk(b: seq<byte>, start: nat, f: FieldLoc, slot: Slot, maxVoffset: nat) {
    IsField(f.id) && f.id <= maxVoffset && start < f.off <= |b| && SlotAt(b, f.off, slot)
  }

  lemma {:induction false} OpenTableGrows(a: seq<byte>, b: seq<byte>, start: nat, fs: Fields, m: nat, n: nat)
    requires a <= b && m <= n && OpenTable(a, start, fs, m)
    ensures OpenTable(b, start, fs, n)
    decreases fs
  {
    if fs.More? {
      OpenTableGrows(a, b, start, fs.rest, m, n);
      SlotGrows(a, b, fs.last.off, fs.slot);
    }
  }

  lemma FieldAdded(a: seq<byte>, b: seq<byte>, start: nat, fs: Fields, m: nat, field: nat, slot: Slot)
    requires a <= b && OpenTable(a, start, fs, m) && start < |b|
    requires IsField(field) && field !in SlotMap(fs) && SlotAt(b, |b|, slot)
    ensures OpenTable(b, start, More(fs, FieldLoc(|b|, field), slot), if field > m then field else m)
  {
    OpenTableGrows(a, b, start, fs, m, if field > m then field else m);
  }

  lemma {:induction false} FirstOpen(b: seq<byte>, start: nat, fs: Fields, m: nat, k: nat)
    requires OpenTable(b, start, fs, m)
    ensures OpenTable(b, start, First(fs, k), m)
    decreases fs
  {
    if Count(fs) > k {
      FirstOpen(b, start, fs.rest, m, k);
    }
  }

  /** What a vtable entry leads to. */
  lemma {:induction false} OpenField(b: seq<byte>, start: nat, fs: Fields, m: nat, field: nat, o: nat)
    requires OpenTable(b, start, fs, m) && |b| < o
    ensures var e := PosOf(fs, field, o);
      if field in SlotMap(fs) then IsField(field) && 0 < e < o && SlotAt(b, o - e, SlotMap(fs)[field]) else e == 0
    decreases fs
  {
    if fs.More? && fs.last.id != field {
      OpenField(b, start, fs.rest, m, field, o);
    }
  }

  lemma {:induction false} OpenEncodable(b: seq<byte>, start: nat, fs: Fields, m: nat)
    requires OpenTable(b, start, fs, m) && |b| < U32 && m < 0x1_0000
    ensures Encodable(fs)
    decreases fs
  {
    if fs.More? {
      OpenEncodable(b, start, fs.rest, m);
    }
  }

  /** A table whose first word leads to a vtable of its fields is the table of those fields. */
  lemma TableBuilt(a: seq<byte>, b: seq<byte>, o: nat, start: nat, fs: Fields, m: nat, v: nat)
    requires a <= b && |a| < o && OpenTable(a, start, fs, m)
    requires 4 <= o <= |b| && IsAligned(o, 4) && VTableOf(b, o) == v && VTableHolds(b, v, fs, o)
    ensures TableAt(b, o, SlotMap(fs))
  {
    var slots := SlotMap(fs);
    forall field | field in slots ensures IsField(field) {
      OpenField(a, start, fs, m, field, o);
    }
    forall field: nat | IsField(field) ensures FieldAt(b, o, v, field, slots) {
      OpenField(a, start, fs, m, field, o);
      if field in slots {
        SlotGrows(a, b, o - PosOf(fs, field, o), slots[field]);
      }
    }
  }
}
