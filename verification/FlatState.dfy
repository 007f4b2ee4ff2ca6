/** What holds of a FlatBuffer builder between operations. */
module FlatState {
  import opened Bytes
  import opened Widths
  import opened Backward
  import opened VectorDownward
  import opened FlatFormat
  import opened FlatObjects
  import opened FlatVTable

  predicate AlignedTo(n: nat, a: Alignment) {
    if a <= 8 then IsAligned(n, a) else if a == 16 then n % 16 == 0 else n % 32 == 0
  }

  /** PaddingBytes for any alignment. */
  function PaddingTo(n: nat, a: Alignment): (p: nat)
    ensures p < a && AlignedTo(n + p, a)
  {
    if a <= 8 then Padding(n, a) else PaddingBytes(n, a)
  }

  lemma PaddingToIsPaddingBytes(n: nat, a: Alignment)
    ensures PaddingTo(n, a) == PaddingBytes(n, a)
  {
    if a <= 8 {
      PaddingIsPaddingBytes(n, a);
    }
  }

  function Larger(a: Alignment, b: Alignment): (m: Alignment)
    ensures a <= m && b <= m && (m == a || m == b)
  {
    if b > a then b else a
  }

  /** The alignment an object asks for is at most a. */
  ghost predicate NeedsAtMost(x: Obj, a: Alignment) {
    && 4 <= a
    && (x.Scalars? && x.values != [] ==> x.width <= a)
    && (x.Table? ==> SlotsNeedAtMost(x.slots, a))
  }

  ghost predicate SlotsNeedAtMost(slots: map<nat, Slot>, a: Alignment) {
    forall field :: field in slots && slots[field].Num? ==> slots[field].width <= a
  }

  ghost predicate AllNeedAtMost(objects: map<nat, Obj>, a: Alignment) {
    forall o :: o in objects ==> NeedsAtMost(objects[o], a)
  }

  ghost predicate VTablesAt(b: seq<byte>, vtables: seq<nat>) {
    forall k :: 0 <= k < |vtables| ==> VTableAt(b, vtables[k])
  }

  ghost predicate VTablesDiffer(b: seq<byte>, vtables: seq<nat>)
    requires VTablesAt(b, vtables)
  {
    forall i, j :: 0 <= i < j < |vtables| ==> !SameVTable(b, vtables[i], vtables[j])
  }

  /** The shared strings: each is one of the objects, and no two have the same contents. */
  ghost predicate PoolOk(objects: map<nat, Obj>, pool: map<nat, seq<byte>>) {
    && (forall p :: p in pool ==> p in objects && objects[p] == Str(pool[p]))
    && forall p, q :: p in pool && q in pool && pool[p] == pool[q] ==> p == q
  }

  /** The data, its alignment, what was built by its distance from the end, the vtables
      remembered, whether no two of those are the same, and the pool of shared strings. */
  datatype State = State(back: seq<byte>, minalign: Alignment, objects: map<nat, Obj>, vtables: seq<nat>, differ: bool,
                         pool: map<nat, seq<byte>>)

  ghost predicate Placed(s: State) {
    && |s.back| < MAX_BUFFER_SIZE && AllAt(s.back, s.objects) && AllNeedAtMost(s.objects, s.minalign)
    && VTablesAt(s.back, s.vtables) && (s.differ ==> VTablesDiffer(s.back, s.vtables)) && PoolOk(s.objects, s.pool)
  }

  /** `static_cast<uint32_t>` of a soffset_t. */
  function ToUint32(i: int): (u: nat)
    requires -0x8000_0000 <= i < 0x8000_0000
    ensures u < U32 && Signed32(u) == i
  {
    if i < 0 then i + U32 else i
  }

  lemma SameVTableKept(a: seq<byte>, b: seq<byte>, v: nat, w: nat)
    requires VTableAt(a, v) && VTableAt(a, w) && VTableAt(b, v) && VTableAt(b, w)
    requires forall i :: v - ReadBack(a, v, 2) <= i < v ==> a[i] == b[i]
    requires forall i :: w - ReadBack(a, w, 2) <= i < w ==> a[i] == b[i]
    ensures SameVTable(a, v, w) <==> SameVTable(b, v, w)
  {
    ReadBackSame(a, v, b, v, 2);
    ReadBackSame(a, w, b, w, 2);
  }

  lemma VTablesGrow(a: seq<byte>, b: seq<byte>, vtables: seq<nat>)
    requires a <= b && VTablesAt(a, vtables)
    ensures VTablesAt(b, vtables) && (VTablesDiffer(a, vtables) ==> VTablesDiffer(b, vtables))
  {
    forall k | 0 <= k < |vtables| ensures VTableAt(b, vtables[k]) {
      VTableGrows(a, b, vtables[k]);
    }
    forall i, j | 0 <= i < j < |vtables|
      ensures SameVTable(a, vtables[i], vtables[j]) <==> SameVTable(b, vtables[i], vtables[j])
    {
      SameVTableKept(a, b, vtables[i], vtables[j]);
    }
  }

  lemma NeedsMore(objects: map<nat, Obj>, a: Alignment, b: Alignment)
    requires AllNeedAtMost(objects, a) && a <= b
    ensures AllNeedAtMost(objects, b)
  {
    forall o | o in objects ensures NeedsAtMost(objects[o], b) {
      assert NeedsAtMost(objects[o], a);
    }
  }

  lemma PlacedGrows(s: State, b: seq<byte>, m: Alignment)
    requires s.back <= b && |b| < MAX_BUFFER_SIZE && s.minalign <= m && Placed(s)
    ensures Placed(s.(back := b, minalign := m))
  {
    AllGrow(s.back, b, s.objects);
    NeedsMore(s.objects, s.minalign, m);
    VTablesGrow(s.back, b, s.vtables);
  }

  lemma ObjectPlaced(s: State, o: nat, x: Obj)
    requires Placed(s) && ObjAt(s.back, o, x) && NeedsAtMost(x, s.minalign) && o !in s.objects
    ensures Placed(s.(objects := s.objects[o := x]))
  {
    var after := s.objects[o := x];
    forall p | p in after ensures ObjAt(s.back, p, after[p]) && NeedsAtMost(after[p], s.minalign) {
      assert p != o ==> ObjAt(s.back, p, s.objects[p]) && NeedsAtMost(s.objects[p], s.minalign);
    }
  }

  /** A vtable different from those remembered can be remembered with them. */
  lemma VTableRemembered(s: State, v: nat)
    requires Placed(s) && VTableAt(s.back, v) && VTablesAt(s.back, s.vtables)
    requires s.differ ==> forall k :: 0 <= k < |s.vtables| ==> !SameVTable(s.back, s.vtables[k], v)
    ensures Placed(s.(vtables := s.vtables + [v]))
  {
  }

  /** The table at o, finished: y is x with the first word of the table leading to vtable v. */
  lemma TableFinished(b: seq<byte>, x: seq<byte>, y: seq<byte>, o: nat, start: nat, fs: Fields, m: nat, v: nat)
    requires b <= x && |b| + 4 <= o <= |x| == |y| < MAX_BUFFER_SIZE && IsAligned(o, 4)
    requires forall i :: 0 <= i < |x| && !(o - 4 <= i < o) ==> y[i] == x[i]
    requires VTableHolds(x, v, fs, o) && (v <= o - 4 || o <= v - ReadBack(x, v, 2))
    requires ReadBack(y, o, 4) == ToUint32(v - o) && OpenTable(b, start, fs, m)
    ensures b <= y && TableAt(y, o, SlotMap(fs)) && VTableHolds(y, v, fs, o) && VTableOf(y, o) == v
  {
    VTableKept(x, y, v, fs, o);
    TableBuilt(b, y, o, start, fs, m, v);
  }

  /** A finished table joins what is placed, and its vtable, if new, those remembered. */
  lemma TablePlaced(s: State, b: seq<byte>, m: Alignment, vtables: seq<nat>, o: nat, v: nat, x: seq<byte>,
                    slots: map<nat, Slot>)
    requires Placed(s) && s.back <= b && |b| < MAX_BUFFER_SIZE && s.minalign <= m && |s.back| + 4 <= o
    requires TableAt(b, o, slots) && NeedsAtMost(Table(slots), m) && VTableAt(b, v)
    requires |x| == |b| && forall i :: 0 <= i < |x| && !(o - 4 <= i < o) ==> b[i] == x[i]
    requires VTablesAt(s.back, s.vtables) && VTableAt(x, v) && s.back <= x
    requires vtables == s.vtables || (vtables == s.vtables + [v] && o <= v - ReadBack(x, v, 2)
      && VTablesAt(x, s.vtables) && (s.differ ==> forall k :: 0 <= k < |s.vtables| ==> !SameVTable(x, s.vtables[k], v)))
    ensures Placed(State(b, m, s.objects[o := Table(slots)], vtables, s.differ, s.pool))
  {
    var s1 := s.(back := b, minalign := m);
    PlacedGrows(s, b, m);
    VTablesGrow(s.back, b, s.vtables);
    VTablesGrow(s.back, x, s.vtables);
    if vtables != s.vtables {
      forall k | 0 <= k < |s.vtables| && s.differ ensures !SameVTable(b, s.vtables[k], v) {
        assert s.vtables[k] <= |s.back|;
        SameVTableKept(x, b, s.vtables[k], v);
      }
      VTableRemembered(s1, v);
    }
    if o in s.objects {
      PlacedInside(s.back, s.objects, o);
    }
    ObjectPlaced(s1.(vtables := vtables), o, Table(slots));
  }

  lemma PlacedAnyway(s: State)
    requires Placed(s)
    ensures Placed(s.(differ := false))
  {
  }

  /** Nothing is placed beyond what has been written. */
  lemma PlacedInside(b: seq<byte>, objects: map<nat, Obj>, o: nat)
    requires AllAt(b, objects) && o in objects
    ensures o <= |b|
  {
    assert ObjAt(b, o, objects[o]);
  }

  lemma PoolInsert(objects: map<nat, Obj>, pool: map<nat, seq<byte>>, o: nat, s: seq<byte>)
    requires PoolOk(objects, pool) && o !in objects && s !in pool.Values
    ensures PoolOk(objects[o := Str(s)], pool[o := s])
  {
    assert forall p :: p in pool ==> pool[p] in pool.Values;
  }

  // ----- The open table -----

  /** The table being built, in the data: where it began, and its fields. */
  datatype Open = Open(back: seq<byte>, minalign: Alignment, start: nat, fields: Fields, maxVoffset: nat)

  ghost predicate TableOk(t: Open) {
    && t.start <= |t.back| && t.maxVoffset <= 0xFFFC && t.maxVoffset % 2 == 0
    && OpenTable(t.back, t.start, t.fields, t.maxVoffset)
    && SlotsNeedAtMost(SlotMap(t.fields), t.minalign)
  }

  lemma TableGains(t: Open, b: seq<byte>, m: Alignment, field: nat, slot: Slot)
    requires TableOk(t) && t.back <= b && t.start < |b| && t.minalign <= m
    requires IsField(field) && field <= 0xFFFC && SlotAt(b, |b|, slot) && (slot.Num? ==> slot.width <= m)
    requires field !in SlotMap(t.fields)
    ensures TableOk(Open(b, m, t.start, More(t.fields, FieldLoc(|b|, field), slot),
                 if field > t.maxVoffset then field else t.maxVoffset))
  {
    FieldAdded(t.back, b, t.start, t.fields, t.maxVoffset, field, slot);
  }

  // ----- The whole builder -----

  /** Everything a builder holds. */
  datatype Snapshot = Snapshot(state: State, dedup: bool, stringPool: set<nat>, scratch: seq<byte>, numFieldLoc: nat,
                               pending: seq<nat>, nested: bool, inTable: bool, open: Open)

  ghost predicate Sound(x: Snapshot) {
    && Placed(x.state) && (x.state.differ ==> x.dedup) && x.state.pool.Keys == x.stringPool
    && x.scratch == Words(x.state.vtables + x.pending) + Locs(x.open.fields) && x.numFieldLoc == Count(x.open.fields)
    && if x.inTable then x.nested && x.pending == [] && TableOk(x.open)
       else x.open.fields == NoFields && x.open.maxVoffset == 0
  }

  lemma FieldRecorded(x: Snapshot, y: Snapshot, field: nat, slot: Slot)
    requires Sound(x) && x.inTable && x.open.back == x.state.back && x.open.minalign == x.state.minalign
    requires |y.state.back| < MAX_BUFFER_SIZE && x.state.back <= y.state.back && x.open.start < |y.state.back|
    requires x.state.minalign <= y.state.minalign && (slot.Num? ==> slot.width <= y.state.minalign)
    requires IsField(field) && field <= 0xFFFC && SlotAt(y.state.back, |y.state.back|, slot)
      && field !in SlotMap(x.open.fields)
    requires var off := |y.state.back|; var m := y.state.minalign;
      y == x.(state := x.state.(back := y.state.back, minalign := m), numFieldLoc := x.numFieldLoc + 1,
              scratch := x.scratch + LocBytes(FieldLoc(off, field)),
              open := Open(y.state.back, m, x.open.start, More(x.open.fields, FieldLoc(off, field), slot),
                           if field > x.open.maxVoffset then field else x.open.maxVoffset))
    ensures Sound(y)
  {
    hide Placed, TableOk;
    PlacedGrows(x.state, y.state.back, y.state.minalign);
    TableGains(x.open, y.state.back, y.state.minalign, field, slot);
  }

  /** The table at o and then its vtable, unless it shares an older one, are the last of the data. */
  predicate BuiltLast(b: seq<byte>, o: nat) {
    4 <= o <= |b| <= o + 0xFFFF && 0 <= VTableOf(b, o) && |b| == Max(o, VTableOf(b, o))
  }

  /** The vtable of the table at o says where these fields of it are, and has no other. */
  ghost predicate VTableUsed(b: seq<byte>, o: nat, fs: Fields) {
    4 <= o <= |b| && 0 <= VTableOf(b, o) && VTableHolds(b, VTableOf(b, o), fs, o)
  }

  /** The data u holds the open table t up to its first word, at o, and the vtable at v, which is one
      of those remembered before or new. */
  ghost predicate VTableChosen(t: Open, before: seq<nat>, dedup: bool, u: seq<byte>, vtables: seq<nat>, o: nat,
                               v: nat) {
    && t.back <= u && |t.back| + 4 <= o <= |u| < 0x8000_0000 && IsAligned(o, 4)
    && VTablesAt(t.back, before) && VTablesAt(u, before) && VTableHolds(u, v, t.fields, o)
    && if vtables == before then v <= |t.back| && |u| == o
       else
         && vtables == before + [v] && ReadBack(u, v, 2) <= v - o && v == |u| <= o + 0xFFFF
         && (dedup ==> forall k :: 0 <= k < |before| ==> !SameVTable(u, before[k], v))
  }

  lemma VTableInside(t: Open, before: seq<nat>, dedup: bool, u: seq<byte>, vtables: seq<nat>, o: nat, v: nat)
    requires VTableChosen(t, before, dedup, u, vtables, o, v)
    ensures 4 <= o <= |u| && 4 <= v <= |u| && (v <= o - 4 || o <= v - 4)
  {
  }

  /** The first word of the table at o leads to its vtable, which says how large it is. */
  lemma SizeLinked(u: seq<byte>, b: seq<byte>, o: nat, v: nat, n: nat)
    requires SaysSize(u, v, n) && |b| == |u| < 0x8000_0000 && 4 <= o <= |u| && (v <= o - 4 || o <= v - 4)
    requires forall i :: 0 <= i < |u| && !(o - 4 <= i < o) ==> b[i] == u[i]
    requires ReadBack(b, o, 4) == ToUint32(v - o)
    ensures TableTakes(b, o, n)
  {
    SizeKept(u, b, v, n);
  }

  /** The builder when its table has been finished at o. */
  function Closed(x: Snapshot, b: seq<byte>, m: Alignment, vtables: seq<nat>, o: nat): Snapshot {
    x.(state := x.state.(back := b, minalign := m, vtables := vtables,
                         objects := x.state.objects[o := Table(SlotMap(x.open.fields))]),
       scratch := Words(vtables), numFieldLoc := 0, nested := false, inTable := false,
       open := Open(b, m, x.open.start, NoFields, 0))
  }

  /** u is the data before the table's first word was filled in, b after, v the vtable used. */
  lemma TableClosed(x: Snapshot, b: seq<byte>, m: Alignment, vtables: seq<nat>, u: seq<byte>, o: nat, v: nat)
    requires Sound(x) && x.inTable && x.open.back == x.state.back && x.open.minalign == x.state.minalign
    requires |b| == |u| < MAX_BUFFER_SIZE && VTableChosen(x.open, x.state.vtables, x.dedup, u, vtables, o, v)
    requires forall i :: 0 <= i < |u| && !(o - 4 <= i < o) ==> b[i] == u[i]
    requires ReadBack(b, o, 4) == ToUint32(v - o)
    requires x.state.minalign <= m && 4 <= m
    ensures Sound(Closed(x, b, m, vtables, o)) && x.state.back <= b && BuiltLast(b, o) && o !in x.state.objects
    ensures VTableUsed(b, o, x.open.fields)
  {
    hide Sound, VTableChosen, BuiltLast, SlotMap, ToUint32, ReadBack, Words, VTableUsed;
    ClosedIsSound(x, Closed(x, b, m, vtables, o), u, o, v);
  }

  lemma ClosedIsSound(x: Snapshot, y: Snapshot, u: seq<byte>, o: nat, v: nat)
    requires Sound(x) && x.inTable && x.open.back == x.state.back && x.open.minalign == x.state.minalign
    requires |y.state.back| == |u| < MAX_BUFFER_SIZE
    requires VTableChosen(x.open, x.state.vtables, x.dedup, u, y.state.vtables, o, v)
    requires forall i :: 0 <= i < |u| && !(o - 4 <= i < o) ==> y.state.back[i] == u[i]
    requires ReadBack(y.state.back, o, 4) == ToUint32(v - o)
    requires x.state.minalign <= y.state.minalign && 4 <= y.state.minalign
    requires y == Closed(x, y.state.back, y.state.minalign, y.state.vtables, o)
    ensures Sound(y) && x.state.back <= y.state.back && BuiltLast(y.state.back, o) && o !in x.state.objects
    ensures VTableUsed(y.state.back, o, x.open.fields)
  {
    TableFinished(x.state.back, u, y.state.back, o, x.open.start, x.open.fields, x.open.maxVoffset, v);
    TablePlaced(x.state, y.state.back, y.state.minalign, y.state.vtables, o, v, u, SlotMap(x.open.fields));
    ScratchAtRest(y.state.vtables, y.pending);
    if o in x.state.objects {
      PlacedInside(x.state.back, x.state.objects, o);
    }
  }

  /** Whatever is written outside tables, what was placed stays placed. */
  lemma TableStartInside(x: Snapshot)
    requires Sound(x) && x.inTable && x.open.back == x.state.back
    ensures x.open.start <= |x.state.back|
  {
  }

  lemma Grown(x: Snapshot, b: seq<byte>, m: Alignment)
    requires Sound(x) && !x.inTable && x.state.back <= b && |b| < MAX_BUFFER_SIZE && x.state.minalign <= m
    ensures Sound(x.(state := x.state.(back := b, minalign := m), open := x.open.(back := b, minalign := m)))
  {
    hide Placed, TableOk;
    PlacedGrows(x.state, b, m);
  }

  /** A string or vector has been written at o. */
  lemma ObjectAdded(x: Snapshot, b: seq<byte>, m: Alignment, o: nat, obj: Obj)
    requires Sound(x) && !x.inTable && x.state.back <= b && |b| < MAX_BUFFER_SIZE && x.state.minalign <= m
    requires |x.state.back| < o && ObjAt(b, o, obj) && NeedsAtMost(obj, m)
    ensures Sound(x.(state := x.state.(back := b, minalign := m, objects := x.state.objects[o := obj]),
               open := x.open.(back := b, minalign := m)))
    ensures o !in x.state.objects
  {
    hide TableOk;
    PlacedGrows(x.state, b, m);
    if o in x.state.objects {
      PlacedInside(x.state.back, x.state.objects, o);
    }
    ObjectPlaced(x.state.(back := b, minalign := m), o, obj);
  }

  /** A shared string has been written at o for the first time. */
  lemma StringShared(x: Snapshot, b: seq<byte>, m: Alignment, o: nat, str: seq<byte>)
    requires Sound(x) && !x.inTable && x.state.back <= b && |b| < MAX_BUFFER_SIZE && x.state.minalign <= m
    requires |x.state.back| < o && StrAt(b, o, str) && 4 <= m && str !in x.state.pool.Values
    ensures Sound(x.(state := x.state.(back := b, minalign := m, objects := x.state.objects[o := Str(str)],
                                 pool := x.state.pool[o := str]),
               stringPool := x.stringPool + {o}, open := x.open.(back := b, minalign := m)))
    ensures o !in x.state.objects
  {
    ObjectAdded(x, b, m, o, Str(str));
    PoolInsert(x.state.objects, x.state.pool, o, str);
  }

  lemma PoolReads(x: Snapshot)
    requires Sound(x)
    ensures x.state.pool.Keys == x.stringPool && PoolOk(x.state.objects, x.state.pool)
    ensures forall p :: p in x.state.pool ==> StrAt(x.state.back, p, x.state.pool[p])
  {
    forall p | p in x.state.pool ensures StrAt(x.state.back, p, x.state.pool[p]) {
      assert ObjAt(x.state.back, p, x.state.objects[p]);
    }
  }

  /** String offsets pushed on the scratch space, and popped again. */
  lemma PendingPushed(x: Snapshot, o: nat)
    requires Sound(x) && !x.inTable
    ensures Sound(x.(pending := x.pending + [o], scratch := x.scratch + LittleEndian(o, 4)))
  {
    hide Placed, TableOk;
    WordsAppend(x.state.vtables + x.pending, o);
    assert x.state.vtables + (x.pending + [o]) == x.state.vtables + x.pending + [o];
  }

  lemma PendingPopped(x: Snapshot)
    requires Sound(x) && !x.inTable
    ensures 4 * |x.pending| <= |x.scratch|
    ensures Sound(x.(pending := [], scratch := x.scratch[..|x.scratch| - 4 * |x.pending|]))
  {
    hide Placed, TableOk;
    WordsPrefix(x.state.vtables, x.pending);
    assert x.state.vtables + [] == x.state.vtables;
  }

  /** The i-th pending offset from the last. */
  lemma PendingRead(x: Snapshot, i: nat)
    requires Sound(x) && !x.inTable && 1 <= i <= |x.pending| && x.pending[|x.pending| - i] < U32
    ensures 4 * i <= |x.scratch|
    ensures ReadUnsigned(x.scratch, |x.scratch| - 4 * i, 4) == x.pending[|x.pending| - i]
  {
    hide Placed, TableOk;
    var all := x.state.vtables + x.pending;
    WordRead(all, x.scratch, |all| - i);
    assert |x.scratch| == 4 * |all| && 4 * (|all| - i) == |x.scratch| - 4 * i;
  }

  /** Clearing the scratch space forgets the vtables. */
  lemma ScratchForgotten(x: Snapshot)
    requires Sound(x) && !x.inTable
    ensures Sound(x.(state := x.state.(vtables := []), pending := [], scratch := []))
  {
    ScratchAtRest([], []);
  }

  /** Outside tables it does not matter whether a vector has been started. */
  lemma NestedFreely(x: Snapshot, nested: bool)
    requires Sound(x) && !x.inTable
    ensures Sound(x.(nested := nested))
  {
    hide Placed, TableOk;
  }

  // ----- A finished buffer -----

  /** Where the root offset is. */
  function RootAt(b: seq<byte>, sizePrefix: bool): int {
    if sizePrefix then |b| - 4 else |b|
  }

  function IdSize(id: Option<seq<byte>>): nat {
    if id.Some? then 4 else 0
  }

  /** b is the data a, finished: padded with zeros, the identifier if any, the root offset, and the
      size of all that if asked for. */
  ghost predicate IsFinished(a: seq<byte>, b: seq<byte>, minalign: Alignment, root: nat, id: Option<seq<byte>>,
                             sizePrefix: bool) {
    && a <= b && AlignedTo(|b|, minalign)
    && var r := RootAt(b, sizePrefix);
    && |a| <= r - 4 - IdSize(id) < |a| + minalign
    && SlotAt(b, r, Ref(root))
    && (forall i :: |a| <= i < r - 4 - IdSize(id) ==> b[i] == 0)
    && (id.Some? ==> |id.value| == 4 && HoldsBack(b, r - 4, id.value))
    && (sizePrefix ==> ReadBack(b, |b|, 4) == r)
  }

  lemma FourAligned(n: nat, a: Alignment)
    requires 4 <= a && AlignedTo(n, a)
    ensures IsAligned(n, 4)
  {
    if a == 8 {
      ModAddMultiple(2 * (n / 8), 0, 4);
    } else if a == 16 {
      ModAddMultiple(4 * (n / 16), 0, 4);
    } else if a == 32 {
      ModAddMultiple(8 * (n / 32), 0, 4);
    }
  }

  /** A builder that holds an object is aligned to at least 4. */
  lemma HoldingAligns(x: Snapshot, o: nat)
    requires Sound(x) && o in x.state.objects
    ensures 4 <= x.state.minalign && 0 < o <= |x.state.back|
  {
    assert NeedsAtMost(x.state.objects[o], x.state.minalign) && ObjAt(x.state.back, o, x.state.objects[o]);
  }
}
