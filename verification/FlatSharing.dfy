/** What two builders made of the same calls reads the same, whatever vtables and strings they share
    and wherever things have landed. */
module FlatSharing {
  import opened Bytes
  import opened Widths
  import opened Backward
  import opened FlatFormat
  import opened FlatObjects
  import opened FlatTables

  // ----- The same contents -----

  /** What a holds at p and b at q has the same contents, all that it refers to included. */
  predicate Alike(a: map<nat, Obj>, p: nat, b: map<nat, Obj>, q: nat)
    decreases p, 2
  {
    p in a && q in b &&
    match a[p]
    case Str(_) => a[p] == b[q]
    case Scalars(_, _) => a[p] == b[q]
    case Offsets(ts) =>
      && b[q].Offsets? && |ts| == |b[q].targets|
      && forall i :: 0 <= i < |ts| ==> ts[i] < p && Alike(a, ts[i], b, b[q].targets[i])
    case Table(slots) => b[q].Table? && SlotsAlike(a, p, slots, b, b[q].slots)
  }

  predicate SlotsAlike(a: map<nat, Obj>, p: nat, s: map<nat, Slot>, b: map<nat, Obj>, t: map<nat, Slot>)
    decreases p, 1
  {
    s.Keys == t.Keys && forall f :: f in s ==> SlotAlike(a, p, s[f], b, t[f])
  }

  predicate SlotAlike(a: map<nat, Obj>, p: nat, x: Slot, b: map<nat, Obj>, y: Slot)
    decreases p, 0
  {
    if x.Num? then x == y else y.Ref? && x.target < p && Alike(a, x.target, b, y.target)
  }

  /** Arguments of two calls: the same, offsets being of the same contents. */
  predicate MembersAlike(a: map<nat, Obj>, p: nat, ms: seq<Member>, b: map<nat, Obj>, ns: seq<Member>) {
    |ms| == |ns| && forall k :: 0 <= k < |ms| ==> MemberAlike(a, p, ms[k], b, ns[k])
  }

  predicate MemberAlike(a: map<nat, Obj>, p: nat, m: Member, b: map<nat, Obj>, n: Member) {
    if m.Number? then m == n
    else
      && n.Pointer? && m.field == n.field && (m.off == 0 <==> n.off == 0)
      && (m.off != 0 ==> m.off < p && Alike(a, m.off, b, n.off))
  }

  /** Tables created by the same call are alike. */
  lemma {:induction false} CreatedAlike(a: map<nat, Obj>, p: nat, ms: seq<Member>, b: map<nat, Obj>, q: nat,
                                        ns: seq<Member>, forceDefaults: bool)
    requires p in a && a[p] == Table(Stored(ms, forceDefaults)) && q in b && b[q] == Table(Stored(ns, forceDefaults))
    requires MembersAlike(a, p, ms, b, ns)
    ensures Alike(a, p, b, q)
  {
    StoredAlike(a, p, ms, b, ns, forceDefaults);
  }

  lemma {:induction false} StoredAlike(a: map<nat, Obj>, p: nat, ms: seq<Member>, b: map<nat, Obj>, ns: seq<Member>,
                                       forceDefaults: bool)
    requires MembersAlike(a, p, ms, b, ns)
    ensures SlotsAlike(a, p, Stored(ms, forceDefaults), b, Stored(ns, forceDefaults))
    decreases |ms|
  {
    if ms != [] {
      var m, n := ms[|ms| - 1], ns[|ns| - 1];
      assert MemberAlike(a, p, m, b, n);
      StoredAlike(a, p, ms[..|ms| - 1], b, ns[..|ns| - 1], forceDefaults);
      var s, t := Stored(ms[..|ms| - 1], forceDefaults), Stored(ns[..|ns| - 1], forceDefaults);
      assert Skipped(m, forceDefaults) == Skipped(n, forceDefaults);
      if !Skipped(m, forceDefaults) {
        SlotAdded(a, p, s, b, t, m.field, SlotOf(m), SlotOf(n));
      }
    }
  }

  lemma {:induction false} SlotAdded(a: map<nat, Obj>, p: nat, s: map<nat, Slot>, b: map<nat, Obj>, t: map<nat, Slot>,
                                     field: nat, x: Slot, y: Slot)
    requires SlotsAlike(a, p, s, b, t) && SlotAlike(a, p, x, b, y)
    ensures SlotsAlike(a, p, s[field := x], b, t[field := y])
  {
    hide SlotAlike;
  }

  // ----- The same readings -----

  /** The accessors for what a has at p, used at p in the first buffer and at q in the second, give the
      same: characters, lengths, elements, fields, and so on along every pointer. */
  ghost predicate ReadAlike(a: map<nat, Obj>, p: nat, buf1: seq<byte>, b: map<nat, Obj>, q: nat, buf2: seq<byte>)
    decreases p, 2
  {
    p in a && q in b && p <= |buf1| && q <= |buf2| &&
    match a[p]
    case Str(_) => StringsReadAlike(buf1, |buf1| - p, buf2, |buf2| - q)
    case Scalars(w, vs) => ScalarsReadAlike(buf1, |buf1| - p, buf2, |buf2| - q, w, |vs|)
    case Offsets(ts) =>
      && b[q].Offsets? && |b[q].targets| == |ts| && OffsetsReadAs(buf1, |buf1| - p, ts)
        && OffsetsReadAs(buf2, |buf2| - q, b[q].targets)
      && forall i :: 0 <= i < |ts| ==> ts[i] < p && ReadAlike(a, ts[i], buf1, b, b[q].targets[i], buf2)
    case Table(slots) =>
      b[q].Table? && forall field: nat :: IsField(field) ==>
        FieldReadAlike(a, p, slots, buf1, b, q, b[q].slots, buf2, field)
  }

  predicate StringsReadAlike(buf1: seq<byte>, p: nat, buf2: seq<byte>, q: nat) {
    && p + 4 <= |buf1| && p + 4 + ReadU32(buf1, p) <= |buf1|
    && q + 4 <= |buf2| && q + 4 + ReadU32(buf2, q) <= |buf2|
    && GetString(buf1, p) == GetString(buf2, q)
  }

  predicate ScalarsReadAlike(buf1: seq<byte>, p: nat, buf2: seq<byte>, q: nat, w: Width, n: nat) {
    && p + 4 + Times(n, w) <= |buf1| && q + 4 + Times(n, w) <= |buf2| && ReadU32(buf1, p) == n == ReadU32(buf2, q)
    && forall i :: 0 <= i < n ==> GetScalar(buf1, p, w, i) == GetScalar(buf2, q, w, i)
  }

  predicate OffsetsReadAs(buf: seq<byte>, p: nat, ts: seq<nat>) {
    && p + 4 + 4 * |ts| <= |buf| && ReadU32(buf, p) == |ts|
    && forall i :: 0 <= i < |ts| ==> GetIndirect(buf, p, i) == |buf| - ts[i]
  }

  /** A field of the tables at p and q: a scalar reads the same whatever the default, a pointer is null
      in both or leads to what reads alike. */
  ghost predicate FieldReadAlike(a: map<nat, Obj>, p: nat, s: map<nat, Slot>, buf1: seq<byte>,
                           b: map<nat, Obj>, q: nat, t: map<nat, Slot>, buf2: seq<byte>, field: nat)
    requires IsField(field) && p <= |buf1| && q <= |buf2|
    decreases p, 1
  {
    if field in s && s[field].Ref? then
      && field in t && t[field].Ref? && s[field].target < p
      && FieldInside(buf1, |buf1| - p, field, 4) && FieldInside(buf2, |buf2| - q, field, 4)
      && s[field].target <= |buf1| && GetPointer(buf1, |buf1| - p, field) == Some((|buf1| - s[field].target) as nat)
      && t[field].target <= |buf2| && GetPointer(buf2, |buf2| - q, field) == Some((|buf2| - t[field].target) as nat)
      && ReadAlike(a, s[field].target, buf1, b, t[field].target, buf2)
    else
      NumbersReadAlike(s, buf1, |buf1| - p, buf2, |buf2| - q, field)
  }

  ghost predicate NumbersReadAlike(s: map<nat, Slot>, buf1: seq<byte>, p: nat, buf2: seq<byte>, q: nat, field: nat)
    requires field in s ==> s[field].Num?
  {
    forall w: Width, default: nat :: FitsSlot(s, field, w) ==> NumberReadsAlike(buf1, p, buf2, q, field, w, default)
  }

  predicate FitsSlot(s: map<nat, Slot>, field: nat, w: Width)
    requires field in s ==> s[field].Num?
  {
    field in s ==> s[field].width == w
  }

  predicate NumberReadsAlike(buf1: seq<byte>, p: nat, buf2: seq<byte>, q: nat, field: nat, w: Width, default: nat) {
    && FieldInside(buf1, p, field, w) && FieldInside(buf2, q, field, w)
    && GetField(buf1, p, field, w, default) == GetField(buf2, q, field, w, default)
  }

  lemma StringsAlike(back1: seq<byte>, p: nat, back2: seq<byte>, q: nat, s: seq<byte>)
    requires ObjAt(back1, p, Str(s)) && ObjAt(back2, q, Str(s))
    ensures p <= |back1| && q <= |back2|
    ensures StringsReadAlike(Reversed(back1), |back1| - p, Reversed(back2), |back2| - q)
  {
    StringReads(back1, Reversed(back1), p, s);
    StringReads(back2, Reversed(back2), q, s);
  }

  lemma ScalarsAlike(back1: seq<byte>, p: nat, back2: seq<byte>, q: nat, w: Width, vs: seq<nat>)
    requires ObjAt(back1, p, Scalars(w, vs)) && ObjAt(back2, q, Scalars(w, vs))
    ensures p <= |back1| && q <= |back2|
    ensures ScalarsReadAlike(Reversed(back1), |back1| - p, Reversed(back2), |back2| - q, w, |vs|)
  {
    ScalarsRead(back1, Reversed(back1), p, w, vs);
    ScalarsRead(back2, Reversed(back2), q, w, vs);
  }

  lemma OffsetsReadBack(back: seq<byte>, p: nat, ts: seq<nat>)
    requires ObjAt(back, p, Offsets(ts))
    ensures p <= |back| && OffsetsReadAs(Reversed(back), |back| - p, ts)
  {
    OffsetsRead(back, Reversed(back), p, ts);
  }

  lemma TablesInside(back: seq<byte>, o: nat, slots: map<nat, Slot>)
    requires ObjAt(back, o, Table(slots))
    ensures o <= |back| && TableAt(back, o, slots)
  {
  }

  /** Sharing cannot be observed: what is alike reads alike, through every pointer. */
  lemma {:induction false} SharingIsInvisible(back1: seq<byte>, a: map<nat, Obj>, p: nat, back2: seq<byte>,
                                              b: map<nat, Obj>, q: nat)
    requires AllAt(back1, a) && AllAt(back2, b) && Alike(a, p, b, q)
    ensures ReadAlike(a, p, Reversed(back1), b, q, Reversed(back2))
    decreases p, 1
  {
    hide ObjAt, StringsReadAlike, ScalarsReadAlike, OffsetsReadAs, FieldReadAlike, FieldInside;
    var buf1, buf2 := Reversed(back1), Reversed(back2);
    assert ObjAt(back1, p, a[p]) && ObjAt(back2, q, b[q]);
    match a[p] {
      case Str(s) =>
        StringsAlike(back1, p, back2, q, s);
      case Scalars(w, vs) =>
        ScalarsAlike(back1, p, back2, q, w, vs);
      case Offsets(ts) =>
        OffsetsReadBack(back1, p, ts);
        OffsetsReadBack(back2, q, b[q].targets);
        forall i | 0 <= i < |ts| ensures ReadAlike(a, ts[i], buf1, b, b[q].targets[i], buf2) {
          SharingIsInvisible(back1, a, ts[i], back2, b, b[q].targets[i]);
        }
      case Table(slots) =>
        TablesInside(back1, p, slots);
        TablesInside(back2, q, b[q].slots);
        forall field: nat | IsField(field) ensures FieldReadAlike(a, p, slots, buf1, b, q, b[q].slots, buf2, field) {
          FieldIsAlike(back1, a, p, slots, back2, b, q, b[q].slots, field);
        }
    }
  }

  lemma {:induction false} FieldIsAlike(back1: seq<byte>, a: map<nat, Obj>, p: nat, s: map<nat, Slot>,
                                        back2: seq<byte>, b: map<nat, Obj>, q: nat, t: map<nat, Slot>, field: nat)
    requires AllAt(back1, a) && AllAt(back2, b) && ObjAt(back1, p, Table(s)) && ObjAt(back2, q, Table(t))
    requires SlotsAlike(a, p, s, b, t) && IsField(field)
    ensures FieldReadAlike(a, p, s, Reversed(back1), b, q, t, Reversed(back2), field)
    decreases p, 0
  {
    hide TableAt, AllAt, ObjAt, Alike, ReadAlike, FieldInside;
    TablesInside(back1, p, s);
    TablesInside(back2, q, t);
    var buf1, buf2 := Reversed(back1), Reversed(back2);
    if field in s && s[field].Ref? {
      assert SlotAlike(a, p, s[field], b, t[field]);
      PointerReads(back1, buf1, p, s, field);
      PointerReads(back2, buf2, q, t, field);
      SharingIsInvisible(back1, a, s[field].target, back2, b, t[field].target);
    } else {
      if field in s {
        assert SlotAlike(a, p, s[field], b, t[field]);
      }
      var x, y := |buf1| - p, |buf2| - q;
      forall w: Width, default: nat | FitsSlot(s, field, w)
        ensures NumberReadsAlike(buf1, x, buf2, y, field, w, default) {
        FieldReads(back1, buf1, p, s, field, w, default);
        FieldReads(back2, buf2, q, t, field, w, default);
      }
    }
  }
}
