/** What a FlatBuffer under construction holds.  Positions are distances from the end of the
    buffer: back[i] is the byte i + 1 from the end, so growing the buffer appends to back and what
    was laid out stays laid out.  `ObjAt(back, o, x)` says that the object x starts o from the
    end; the lemmas say that the accessors then read x. */
module FlatObjects {
  import opened Bytes
  import opened Widths
  import opened FlatFormat
  import opened Backward

  /** What a table stores for a field: a scalar, or the offset of an object. */
  datatype Slot = Num(width: Width, value: nat) | Ref(target: nat)

  datatype Obj =
    | Str(str: seq<byte>)
    | Scalars(width: Width, values: seq<nat>)
    | Offsets(targets: seq<nat>)
    | Table(slots: map<nat, Slot>)

  // ----- Objects -----

  predicate SlotAt(b: seq<byte>, o: nat, slot: Slot) {
    match slot
    case Num(w, v) => w <= o <= |b| && IsAligned(o, w) && ReadBack(b, o, w) == v
    case Ref(t) => 4 <= o <= |b| && IsAligned(o, 4) && 0 < t <= o - 4 && ReadBack(b, o, 4) == o - t
  }

  predicate StrAt(b: seq<byte>, o: nat, s: seq<byte>) {
    && |s| + 5 <= o <= |b| && IsAligned(o, 4) && ReadBack(b, o, 4) == |s|
    && HoldsBack(b, o - 4, s) && b[o - 5 - |s|] == 0
  }

  /** An empty vector may leave its end unaligned for its elements. */
  predicate ScalarsAt(b: seq<byte>, o: nat, w: Width, vs: seq<nat>) {
    && 4 + Times(|vs|, w) <= o <= |b| && IsAligned(o, 4) && ReadBack(b, o, 4) == |vs|
    && (vs != [] ==> IsAligned(o - 4, w))
    && forall i :: 0 <= i < |vs| ==> ElementAt(b, o, w, i, vs[i])
  }

  predicate ElementAt(b: seq<byte>, o: nat, w: Width, i: nat, v: nat) {
    4 + Times(i, w) + w <= o <= |b| && ReadBack(b, o - 4 - Times(i, w), w) == v
  }

  predicate OffsetsAt(b: seq<byte>, o: nat, ts: seq<nat>) {
    && 4 + 4 * |ts| <= o <= |b| && IsAligned(o, 4) && ReadBack(b, o, 4) == |ts|
    && forall i :: 0 <= i < |ts| ==> SlotAt(b, o - 4 - 4 * i, Ref(ts[i]))
  }

  function VTableOf(b: seq<byte>, o: nat): int
    requires 4 <= o <= |b|
  {
    o + Signed32(ReadBack(b, o, 4))
  }

  predicate VTableAt(b: seq<byte>, v: int) {
    && 4 <= v <= |b| && v % 2 == 0 && 4 <= ReadBack(b, v, 2) <= v && ReadBack(b, v, 2) % 2 == 0
  }

  /** What the vtable at v says about a field. */
  function Entry(b: seq<byte>, v: nat, field: nat): nat
    requires VTableAt(b, v) && IsField(field)
  {
    if field < ReadBack(b, v, 2) then ReadBack(b, v - field, 2) else 0
  }

  /** The table at o has exactly the fields in slots. */
  ghost predicate TableAt(b: seq<byte>, o: nat, slots: map<nat, Slot>) {
    && 4 <= o <= |b| && IsAligned(o, 4) && VTableAt(b, VTableOf(b, o))
    && (forall field :: field in slots ==> IsField(field))
    && forall field: nat :: IsField(field) ==> FieldAt(b, o, VTableOf(b, o), field, slots)
  }

  /** The vtable at v says that its tables take n bytes. */
  predicate SaysSize(b: seq<byte>, v: int, n: nat) {
    4 <= v <= |b| && ReadBack(b, v - 2, 2) == n
  }

  /** The table at o takes n bytes, its vtable says. */
  predicate TableTakes(b: seq<byte>, o: nat, n: nat) {
    4 <= o <= |b| && SaysSize(b, VTableOf(b, o), n)
  }

  predicate FieldAt(b: seq<byte>, o: nat, v: nat, field: nat, slots: map<nat, Slot>)
    requires VTableAt(b, v) && IsField(field)
  {
    var e := Entry(b, v, field);
    if field in slots then 0 < e < o && SlotAt(b, o - e, slots[field]) else e == 0
  }

  ghost predicate ObjAt(b: seq<byte>, o: nat, x: Obj) {
    match x
    case Str(s) => StrAt(b, o, s)
    case Scalars(w, vs) => ScalarsAt(b, o, w, vs)
    case Offsets(ts) => OffsetsAt(b, o, ts)
    case Table(slots) => TableAt(b, o, slots)
  }

  /** objects maps every distance at which something was built to what was built there. */
  ghost predicate AllAt(b: seq<byte>, objects: map<nat, Obj>) {
    forall o :: o in objects ==> ObjAt(b, o, objects[o])
  }

  // ----- Growing the buffer changes nothing in it -----

  lemma SlotGrows(a: seq<byte>, b: seq<byte>, o: nat, slot: Slot)
    requires a <= b && SlotAt(a, o, slot)
    ensures SlotAt(b, o, slot)
  {
    ReadBackGrows(a, b, o, if slot.Num? then slot.width else 4);
  }

  lemma ScalarsGrow(a: seq<byte>, b: seq<byte>, o: nat, w: Width, vs: seq<nat>)
    requires a <= b && ScalarsAt(a, o, w, vs)
    ensures ScalarsAt(b, o, w, vs)
  {
    ReadBackGrows(a, b, o, 4);
    forall i | 0 <= i < |vs| ensures ElementAt(b, o, w, i, vs[i]) {
      assert ElementAt(a, o, w, i, vs[i]);
      ReadBackGrows(a, b, o - 4 - Times(i, w), w);
    }
  }

  lemma OffsetsGrow(a: seq<byte>, b: seq<byte>, o: nat, ts: seq<nat>)
    requires a <= b && OffsetsAt(a, o, ts)
    ensures OffsetsAt(b, o, ts)
  {
    ReadBackGrows(a, b, o, 4);
    forall i | 0 <= i < |ts| ensures SlotAt(b, o - 4 - 4 * i, Ref(ts[i])) {
      SlotGrows(a, b, o - 4 - 4 * i, Ref(ts[i]));
    }
  }

  lemma VTableGrows(a: seq<byte>, b: seq<byte>, v: nat)
    requires a <= b && VTableAt(a, v)
    ensures VTableAt(b, v) && ReadBack(b, v, 2) == ReadBack(a, v, 2)
    ensures forall field: nat :: IsField(field) ==> Entry(b, v, field) == Entry(a, v, field)
  {
    ReadBackGrows(a, b, v, 2);
    forall field: nat | IsField(field) ensures Entry(b, v, field) == Entry(a, v, field) {
      if field < ReadBack(a, v, 2) {
        ReadBackGrows(a, b, v - field, 2);
      }
    }
  }

  lemma TableGrows(a: seq<byte>, b: seq<byte>, o: nat, slots: map<nat, Slot>)
    requires a <= b && TableAt(a, o, slots)
    ensures TableAt(b, o, slots)
  {
    hide ReadBack, SlotAt;
    ReadBackGrows(a, b, o, 4);
    var v := VTableOf(a, o);
    VTableGrows(a, b, v);
    forall field: nat | IsField(field) ensures FieldAt(b, o, v, field, slots) {
      assert FieldAt(a, o, v, field, slots);
      if field in slots {
        SlotGrows(a, b, o - Entry(a, v, field), slots[field]);
      }
    }
  }

  lemma ObjGrows(a: seq<byte>, b: seq<byte>, o: nat, x: Obj)
    requires a <= b && ObjAt(a, o, x)
    ensures ObjAt(b, o, x)
  {
    match x
    case Str(s) => ReadBackGrows(a, b, o, 4);
    case Scalars(w, vs) => ScalarsGrow(a, b, o, w, vs);
    case Offsets(ts) => OffsetsGrow(a, b, o, ts);
    case Table(slots) => TableGrows(a, b, o, slots);
  }

  lemma AllGrow(a: seq<byte>, b: seq<byte>, objects: map<nat, Obj>)
    requires a <= b && AllAt(a, objects)
    ensures AllAt(b, objects)
  {
    forall o | o in objects ensures ObjAt(b, o, objects[o]) {
      ObjGrows(a, b, o, objects[o]);
    }
  }

  // ----- Reading what was laid out -----

  /** The accessors read a laid out table: its vtable is inside the buffer, and each field's entry
      is where the layout says. */
  lemma TableEntries(back: seq<byte>, buf: seq<byte>, o: nat, slots: map<nat, Slot>, field: nat)
    requires buf == Reversed(back) && TableAt(back, o, slots) && IsField(field)
    ensures HasVTable(buf, |buf| - o)
    ensures GetVTable(buf, |buf| - o) == |buf| - VTableOf(back, o)
    ensures GetOptionalFieldOffset(buf, |buf| - o, field) == Entry(back, VTableOf(back, o), field)
  {
    var v := VTableOf(back, o);
    ReadForward(back, buf, o, 4);
    ReadForward(back, buf, v, 2);
    if field < ReadBack(back, v, 2) {
      ReadForward(back, buf, v - field, 2);
    }
  }

  lemma TableTakesGrows(a: seq<byte>, b: seq<byte>, o: nat, n: nat)
    requires a <= b && TableTakes(a, o, n)
    ensures TableTakes(b, o, n)
  {
    ReadBackGrows(a, b, o, 4);
    ReadBackGrows(a, b, VTableOf(a, o) - 2, 2);
  }

  /** In the finished buffer the second word of the vtable is the number of bytes of the table. */
  lemma TableSizeReads(before: seq<byte>, back: seq<byte>, buf: seq<byte>, o: nat, n: nat)
    requires TableTakes(before, o, n) && before <= back && buf == Reversed(back)
    ensures var vtable := GetVTable(buf, |buf| - o);
      0 <= vtable && vtable + 4 <= |buf| && ReadU16(buf, vtable + 2) == n
  {
    TableTakesGrows(before, back, o, n);
    var v := VTableOf(back, o);
    ReadForward(back, buf, o, 4);
    ReadForward(back, buf, v - 2, 2);
    assert GetVTable(buf, |buf| - o) == |buf| - v;
  }

  /** A scalar field reads as the value stored, or as its default if it is not stored. */
  lemma FieldReads(back: seq<byte>, buf: seq<byte>, o: nat, slots: map<nat, Slot>, field: nat, w: Width, default: nat)
    requires buf == Reversed(back) && TableAt(back, o, slots) && IsField(field)
    requires field in slots ==> slots[field].Num? && slots[field].width == w
    ensures FieldInside(buf, |buf| - o, field, w)
    ensures GetField(buf, |buf| - o, field, w, default) == if field in slots then slots[field].value else default
  {
    TableEntries(back, buf, o, slots, field);
    assert FieldAt(back, o, VTableOf(back, o), field, slots);
    if field in slots {
      ReadForward(back, buf, o - Entry(back, VTableOf(back, o), field), w);
    }
  }

  /** An offset field leads to the object stored, or is null if it is not stored. */
  lemma PointerReads(back: seq<byte>, buf: seq<byte>, o: nat, slots: map<nat, Slot>, field: nat)
    requires buf == Reversed(back) && TableAt(back, o, slots) && IsField(field)
    requires field in slots ==> slots[field].Ref?
    ensures FieldInside(buf, |buf| - o, field, 4)
    ensures GetPointer(buf, |buf| - o, field)
         == if field in slots then Some((|buf| - slots[field].target) as nat) else None
  {
    TableEntries(back, buf, o, slots, field);
    assert FieldAt(back, o, VTableOf(back, o), field, slots);
    if field in slots {
      ReadForward(back, buf, o - Entry(back, VTableOf(back, o), field), 4);
    }
  }

  lemma StringReads(back: seq<byte>, buf: seq<byte>, o: nat, s: seq<byte>)
    requires buf == Reversed(back) && StrAt(back, o, s)
    ensures var p := |buf| - o;
      && p + 4 <= |buf| && p + 4 + ReadU32(buf, p) < |buf|
      && GetString(buf, p) == s && buf[p + 4 + ReadU32(buf, p)] == 0
  {
    ReadForward(back, buf, o, 4);
  }

  lemma ScalarsRead(back: seq<byte>, buf: seq<byte>, o: nat, w: Width, vs: seq<nat>)
    requires buf == Reversed(back) && ScalarsAt(back, o, w, vs)
    ensures ReadU32(buf, |buf| - o) == |vs| && |buf| - o + 4 + Times(|vs|, w) <= |buf|
    ensures forall i :: 0 <= i < |vs| ==>
      |buf| - o + 4 + Times(i, w) + w <= |buf| && GetScalar(buf, |buf| - o, w, i) == vs[i]
  {
    ReadForward(back, buf, o, 4);
    forall i | 0 <= i < |vs|
      ensures |buf| - o + 4 + Times(i, w) + w <= |buf| && GetScalar(buf, |buf| - o, w, i) == vs[i]
    {
      assert ElementAt(back, o, w, i, vs[i]);
      ReadForward(back, buf, o - 4 - Times(i, w), w);
    }
  }

  lemma OffsetsRead(back: seq<byte>, buf: seq<byte>, o: nat, ts: seq<nat>)
    requires buf == Reversed(back) && OffsetsAt(back, o, ts)
    ensures ReadU32(buf, |buf| - o) == |ts| && |buf| - o + 4 + 4 * |ts| <= |buf|
    ensures forall i :: 0 <= i < |ts| ==> GetIndirect(buf, |buf| - o, i) == |buf| - ts[i]
  {
    ReadForward(back, buf, o, 4);
    forall i | 0 <= i < |ts| ensures GetIndirect(buf, |buf| - o, i) == |buf| - ts[i] {
      assert SlotAt(back, o - 4 - 4 * i, Ref(ts[i]));
      ReadForward(back, buf, o - 4 - 4 * i, 4);
    }
  }
}
