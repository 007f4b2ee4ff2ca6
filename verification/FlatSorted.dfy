/** Vectors of tables sorted by a key field, and looking tables up in them.  Sorting compares strings
    with their lengths, looking up with `strcmp`; on keys without zero bytes the two agree. */
module FlatSorted {
  import opened Bytes
  import opened Order
  import opened Search
  import opened Backward
  import opened FlatFormat
  import opened FlatObjects
  import opened VectorDownward
  import opened FlatState
  import opened FlatBuilder

  /** The key field of a table type: a string, like KeyValue's, or an int64, like EnumVal's. */
  datatype KeyField = StringKey(field: nat) | IntKey(field: nat)

  datatype Key = Text(text: seq<byte>) | Number(number: int)

  predicate Before(a: Key, b: Key) {
    match (a, b)
    case (Text(s), Text(t)) => Less(s, t)
    case (Number(m), Number(n)) => m < n
    case _ => false
  }

  /** The key can be read from the table at p. */
  predicate Keyed(buf: seq<byte>, kf: KeyField, p: nat) {
    if kf.StringKey? then
      && FieldInside(buf, p, kf.field, 4) && GetPointer(buf, p, kf.field).Some?
      && var q := GetPointer(buf, p, kf.field).value;
         q + 4 <= |buf| && q + 4 + ReadU32(buf, q) <= |buf| && 0 in buf[q + 4..]
    else FieldInside(buf, p, kf.field, 8)
  }

  function KeyOf(buf: seq<byte>, kf: KeyField, p: nat): Key
    requires Keyed(buf, kf, p)
  {
    if kf.StringKey? then Text(GetString(buf, GetPointer(buf, p, kf.field).value))
    else Number(Signed(GetField(buf, p, kf.field, 8, 0), 8))
  }

  /** `KeyCompareLessThan` of the table at a, given the one at b. */
  predicate KeyCompareLessThan(buf: seq<byte>, kf: KeyField, a: nat, b: nat)
    requires Keyed(buf, kf, a) && Keyed(buf, kf, b)
  {
    if kf.StringKey? then
      StringLessThan(GetString(buf, GetPointer(buf, a, kf.field).value),
        GetString(buf, GetPointer(buf, b, kf.field).value))
    else Signed(GetField(buf, a, kf.field, 8, 0), 8) < Signed(GetField(buf, b, kf.field, 8, 0), 8)
  }

  lemma LessThanIsBefore(buf: seq<byte>, kf: KeyField, a: nat, b: nat)
    requires Keyed(buf, kf, a) && Keyed(buf, kf, b)
    ensures KeyCompareLessThan(buf, kf, a, b) <==> Before(KeyOf(buf, kf, a), KeyOf(buf, kf, b))
  {
    if kf.StringKey? {
      StringLessThanIsLess(KeyOf(buf, kf, a).text, KeyOf(buf, kf, b).text);
    }
  }

  /** What a lookup is given: the memory at a character pointer, or a number. */
  datatype Sought = Pointer(memory: seq<byte>) | Value(value: int)

  predicate CanSeek(kf: KeyField, sought: Sought) {
    if kf.StringKey? then sought.Pointer? && 0 in sought.memory else sought.Value?
  }

  function SoughtKey(sought: Sought): Key {
    if sought.Pointer? then Text(CString(sought.memory)) else Number(sought.value)
  }

  function KeyCompareWithValue(buf: seq<byte>, kf: KeyField, p: nat, sought: Sought): int
    requires Keyed(buf, kf, p) && CanSeek(kf, sought)
  {
    if kf.StringKey? then Strcmp(buf[GetPointer(buf, p, kf.field).value + 4..], sought.memory)
    else
      var v := Signed(GetField(buf, p, kf.field, 8, 0), 8);
      (if v > sought.value then 1 else 0) - (if v < sought.value then 1 else 0)
  }

  /** A string key is terminated, as all strings are. */
  predicate Terminated(buf: seq<byte>, kf: KeyField, p: nat)
    requires Keyed(buf, kf, p)
  {
    kf.StringKey? ==>
      var q := GetPointer(buf, p, kf.field).value; q + 4 + ReadU32(buf, q) < |buf| && buf[q + 4 + ReadU32(buf, q)] == 0
  }

  /** What `strcmp` sees of a key. */
  function Cut(k: Key): Key {
    if k.Text? then Text(CString(k.text)) else k
  }

  lemma CompareIsBefore(buf: seq<byte>, kf: KeyField, p: nat, sought: Sought)
    requires Keyed(buf, kf, p) && Terminated(buf, kf, p) && CanSeek(kf, sought)
    ensures KeyCompareWithValue(buf, kf, p, sought) < 0 <==> Before(Cut(KeyOf(buf, kf, p)), SoughtKey(sought))
    ensures KeyCompareWithValue(buf, kf, p, sought) == 0 <==> Cut(KeyOf(buf, kf, p)) == SoughtKey(sought)
    ensures KeyCompareWithValue(buf, kf, p, sought) > 0 <==> Before(SoughtKey(sought), Cut(KeyOf(buf, kf, p)))
  {
    hide FieldInside, Less, GetString, CString, GetPointer, GetField;
    if kf.StringKey? {
      var q := GetPointer(buf, p, kf.field).value;
      CharactersAre(buf, q);
      StrcmpOrders(buf[q + 4..], sought.memory);
    }
  }

  lemma CharactersAre(buf: seq<byte>, q: nat)
    requires q + 4 <= |buf| && q + 4 + ReadU32(buf, q) < |buf| && buf[q + 4 + ReadU32(buf, q)] == 0
    ensures CString(buf[q + 4..]) == CString(GetString(buf, q))
  {
    var text, all := GetString(buf, q), buf[q + 4..];
    var c := CString(text);
    assert text + [0] == all[..|text| + 1];
    assert c + [0] <= text + [0];
    CStringUnique(all, c);
  }

  // ----- Keys of what was built -----

  /** The table built at o has key k: a string, or a number, 0 by default. */
  ghost predicate HasKey(objects: map<nat, Obj>, kf: KeyField, o: nat, k: Key) {
    && IsField(kf.field) && o in objects && objects[o].Table?
    && var slots := objects[o].slots;
    if kf.StringKey? then
      && kf.field in slots && slots[kf.field].Ref? && slots[kf.field].target in objects
      && objects[slots[kf.field].target].Str?
      && k == Text(objects[slots[kf.field].target].str)
    else
      && (kf.field in slots ==> slots[kf.field].Num? && slots[kf.field].width == 8)
      && k == Number(if kf.field in slots then Signed(slots[kf.field].value, 8) else 0)
  }

  lemma TerminatorInside(buf: seq<byte>, at: nat, end: nat)
    requires at <= end < |buf| && buf[end] == 0
    ensures 0 in buf[at..]
  {
    assert buf[at..][end - at] == 0;
  }

  /** The key of the table at p reads as k. */
  predicate KeyReadsAs(buf: seq<byte>, kf: KeyField, p: nat, k: Key) {
    Keyed(buf, kf, p) && Terminated(buf, kf, p) && KeyOf(buf, kf, p) == k
  }

  lemma KeyReads(back: seq<byte>, buf: seq<byte>, objects: map<nat, Obj>, kf: KeyField, o: nat, k: Key)
    requires buf == Reversed(back) && AllAt(back, objects) && HasKey(objects, kf, o, k)
    ensures o <= |buf| && KeyReadsAs(buf, kf, |buf| - o, k)
  {
    hide TableAt, StrAt, FieldInside, GetPointer;
    var slots := objects[o].slots;
    TableInside(back, objects, o);
    if kf.StringKey? {
      PointerReads(back, buf, o, slots, kf.field);
      TextReads(back, buf, objects, slots[kf.field].target);
    } else {
      FieldReads(back, buf, o, slots, kf.field, 8, 0);
      LimitValues();
    }
  }

  lemma TableInside(back: seq<byte>, objects: map<nat, Obj>, o: nat)
    requires AllAt(back, objects) && o in objects && objects[o].Table?
    ensures TableAt(back, o, objects[o].slots) && o <= |back|
  {
    assert ObjAt(back, o, objects[o]);
  }

  lemma TextReads(back: seq<byte>, buf: seq<byte>, objects: map<nat, Obj>, o: nat)
    requires buf == Reversed(back) && AllAt(back, objects) && o in objects && objects[o].Str?
    ensures o <= |buf| && var q := |buf| - o;
      && q + 4 <= |buf| && q + 4 + ReadU32(buf, q) < |buf| && buf[q + 4 + ReadU32(buf, q)] == 0
      && GetString(buf, q) == objects[o].str && 0 in buf[q + 4..]
  {
    assert ObjAt(back, o, objects[o]);
    StringReads(back, buf, o, objects[o].str);
    TerminatorInside(buf, |buf| - o + 4, |buf| - o + 4 + ReadU32(buf, |buf| - o));
  }

  // ----- Sorting -----

  lemma BeforeTransitive(a: Key, b: Key, c: Key)
    requires Before(a, b) && !Before(c, b) && (a.Text? <==> c.Text?)
    ensures Before(a, c)
  {
    if a.Text? {
      LessTotal(b.text, c.text);
      if Less(b.text, c.text) {
        LessTransitive(a.text, b.text, c.text);
      }
    }
  }

  lemma BeforeAsymmetric(a: Key, b: Key)
    requires Before(a, b)
    ensures !Before(b, a) && a != b
  {
    if a.Text? {
      LessAsymmetric(a.text, b.text);
    }
  }

  predicate AllKeyed(buf: seq<byte>, kf: KeyField, ts: seq<nat>) {
    forall i :: 0 <= i < |ts| ==> ts[i] <= |buf| && Keyed(buf, kf, |buf| - ts[i])
  }

  /** The keys of the tables at ts, counted from the end of buf. */
  function KeysOf(buf: seq<byte>, kf: KeyField, ts: seq<nat>): (ks: seq<Key>)
    requires AllKeyed(buf, kf, ts)
    ensures |ks| == |ts|
  {
    seq(|ts|, i requires 0 <= i < |ts| => KeyOf(buf, kf, |buf| - ts[i]))
  }

  /** No key comes after a larger one. */
  ghost predicate Ordered(ks: seq<Key>) {
    forall i, j :: 0 <= i < j < |ks| ==> !Before(ks[j], ks[i])
  }

  predicate OneKind(kf: KeyField, ks: seq<Key>) {
    forall i :: 0 <= i < |ks| ==> (ks[i].Text? <==> kf.StringKey?)
  }

  /** Those of ts whose key is k, in order. */
  function WithKey(ts: seq<nat>, ks: seq<Key>, k: Key): (r: seq<nat>)
    requires |ts| == |ks|
  {
    if ts == [] then []
    else
      var n := |ts| - 1;
      WithKey(ts[..n], ks[..n], k) + if ks[n] == k then [ts[n]] else []
  }

  /** The same tables as in v, those with equal keys in the same order. */
  ghost predicate SameOrder(ts: seq<nat>, ks: seq<Key>, v: seq<nat>, keys: seq<Key>) {
    |ts| == |ks| && |v| == |keys| && forall k :: WithKey(ts, ks, k) == WithKey(v, keys, k)
  }

  lemma {:induction false} WithKeyConcat(ts: seq<nat>, ks: seq<Key>, us: seq<nat>, ls: seq<Key>, k: Key)
    requires |ts| == |ks| && |us| == |ls|
    ensures WithKey(ts + us, ks + ls, k) == WithKey(ts, ks, k) + WithKey(us, ls, k)
    decreases |us|
  {
    if us == [] {
      assert ts + us == ts && ks + ls == ks;
    } else {
      var n := |us| - 1;
      WithKeyConcat(ts, ks, us[..n], ls[..n], k);
      assert (ts + us)[..|ts| + n] == ts + us[..n] && (ks + ls)[..|ts| + n] == ks + ls[..n];
    }
  }

  lemma {:induction false} WithKeyNone(ts: seq<nat>, ks: seq<Key>, k: Key)
    requires |ts| == |ks| && forall i :: 0 <= i < |ks| ==> ks[i] != k
    ensures WithKey(ts, ks, k) == []
    decreases |ts|
  {
    if ts != [] {
      WithKeyNone(ts[..|ts| - 1], ks[..|ts| - 1], k);
    }
  }

  /** Inserting t after all tables with its key keeps the order that a stable sort keeps. */
  lemma {:induction false} InsertedInOrder(ts: seq<nat>, ks: seq<Key>, v: seq<nat>, keys: seq<Key>, t: nat, key: Key,
                                           n: nat)
    requires SameOrder(ts, ks, v, keys) && n <= |ts| && forall i :: n <= i < |ks| ==> ks[i] != key
    ensures SameOrder(ts[..n] + [t] + ts[n..], ks[..n] + [key] + ks[n..], v + [t], keys + [key])
  {
    hide WithKey;
    forall k {
      InsertedWithKey(ts, ks, v, keys, t, key, n, k);
    }
  }

  lemma {:induction false} InsertedWithKey(ts: seq<nat>, ks: seq<Key>, v: seq<nat>, keys: seq<Key>, t: nat, key: Key,
                                           n: nat, k: Key)
    requires |ts| == |ks| && |v| == |keys| && n <= |ts| && forall i :: n <= i < |ks| ==> ks[i] != key
    requires WithKey(ts, ks, k) == WithKey(v, keys, k)
    ensures WithKey(ts[..n] + [t] + ts[n..], ks[..n] + [key] + ks[n..], k) == WithKey(v + [t], keys + [key], k)
  {
    hide WithKey;
    WithKeyConcat(ts[..n] + [t], ks[..n] + [key], ts[n..], ks[n..], k);
    WithKeyConcat(ts[..n], ks[..n], [t], [key], k);
    WithKeyConcat(ts[..n], ks[..n], ts[n..], ks[n..], k);
    WithKeyConcat(v, keys, [t], [key], k);
    assert ts[..n] + ts[n..] == ts && ks[..n] + ks[n..] == ks;
    if k == key {
      WithKeyNone(ts[n..], ks[n..], k);
    } else {
      WithKeyNone([t], [key], k);
    }
  }
  /** `std::stable_sort` of table offsets with `TableKeyComparator`. */
  method StableSort(buf: seq<byte>, kf: KeyField, v: seq<nat>) returns (ts: seq<nat>)
    requires AllKeyed(buf, kf, v)
    ensures AllKeyed(buf, kf, ts) && multiset(ts) == multiset(v) && Ordered(KeysOf(buf, kf, ts))
    ensures SameOrder(ts, KeysOf(buf, kf, ts), v, KeysOf(buf, kf, v))
  {
    hide Keyed, KeyOf, Before, KeysOf, Ordered, SameOrder;
    ts := [];
    NothingOrdered(buf, kf);
    for n := 0 to |v|
      invariant |ts| == n && AllKeyed(buf, kf, ts) && multiset(ts) == multiset(v[..n]) && Ordered(KeysOf(buf, kf, ts))
      invariant AllKeyed(buf, kf, v[..n]) && SameOrder(ts, KeysOf(buf, kf, ts), v[..n], KeysOf(buf, kf, v[..n]))
    {
      var k := PlaceFor(buf, kf, ts, v[n]);
      TableInserted(buf, kf, ts, v[..n], v[n], k);
      assert v[..n + 1] == v[..n] + [v[n]];
      ts := ts[..k] + [v[n]] + ts[k..];
    }
    assert v[..|v|] == v;
  }

  lemma NothingOrdered(buf: seq<byte>, kf: KeyField)
    ensures Ordered(KeysOf(buf, kf, [])) && SameOrder([], KeysOf(buf, kf, []), [], KeysOf(buf, kf, []))
  {
  }

  method PlaceFor(buf: seq<byte>, kf: KeyField, ts: seq<nat>, t: nat) returns (k: nat)
    requires AllKeyed(buf, kf, ts) && t <= |buf| && Keyed(buf, kf, |buf| - t)
    ensures k <= |ts| && forall i :: k <= i < |ts| ==> Before(KeyOf(buf, kf, |buf| - t), KeysOf(buf, kf, ts)[i])
    ensures k > 0 ==> !Before(KeyOf(buf, kf, |buf| - t), KeysOf(buf, kf, ts)[k - 1])
  {
    hide Keyed, KeyOf, KeyCompareLessThan, Before;
    k := |ts|;
    while k > 0
      invariant k <= |ts| && forall i :: k <= i < |ts| ==> Before(KeyOf(buf, kf, |buf| - t), KeysOf(buf, kf, ts)[i])
    {
      LessThanIsBefore(buf, kf, |buf| - t, |buf| - ts[k - 1]);
      if !KeyCompareLessThan(buf, kf, |buf| - t, |buf| - ts[k - 1]) {
        return;
      }
      k := k - 1;
    }
  }

  /** Place k is after all keys that are not after this one. */
  predicate IsPlace(keys: seq<Key>, key: Key, k: nat) {
    && k <= |keys| && (forall i :: k <= i < |keys| ==> Before(key, keys[i]))
    && (k > 0 ==> !Before(key, keys[k - 1]))
  }

  lemma TableInserted(buf: seq<byte>, kf: KeyField, ts: seq<nat>, v: seq<nat>, t: nat, k: nat)
    requires AllKeyed(buf, kf, ts) && t <= |buf| && Keyed(buf, kf, |buf| - t) && Ordered(KeysOf(buf, kf, ts))
    requires AllKeyed(buf, kf, v) && SameOrder(ts, KeysOf(buf, kf, ts), v, KeysOf(buf, kf, v))
    requires IsPlace(KeysOf(buf, kf, ts), KeyOf(buf, kf, |buf| - t), k)
    ensures var r := ts[..k] + [t] + ts[k..];
      && AllKeyed(buf, kf, r) && multiset(r) == multiset(ts) + multiset{t} && Ordered(KeysOf(buf, kf, r))
      && AllKeyed(buf, kf, v + [t]) && SameOrder(r, KeysOf(buf, kf, r), v + [t], KeysOf(buf, kf, v + [t]))
  {
    hide Keyed, KeyOf, Before, SameOrder, KeysOf, Ordered;
    KeysInserted(buf, kf, ts, t, k);
    KeysInserted(buf, kf, v, t, |v|);
    assert v[..|v|] + [t] + v[|v|..] == v + [t];
    var keys, key := KeysOf(buf, kf, v), KeyOf(buf, kf, |buf| - t);
    assert keys[..|v|] + [key] + keys[|v|..] == keys + [key];
    forall i | k <= i < |ts| ensures KeysOf(buf, kf, ts)[i] != key {
      BeforeAsymmetric(key, KeysOf(buf, kf, ts)[i]);
    }
    InsertedInOrder(ts, KeysOf(buf, kf, ts), v, keys, t, key, k);
    OneKindOfKey(buf, kf, ts, t);
    Inserted(KeysOf(buf, kf, ts), KeyOf(buf, kf, |buf| - t), k, kf);
    assert ts == ts[..k] + ts[k..];
  }

  lemma KeysInserted(buf: seq<byte>, kf: KeyField, ts: seq<nat>, t: nat, k: nat)
    requires AllKeyed(buf, kf, ts) && t <= |buf| && Keyed(buf, kf, |buf| - t) && k <= |ts|
    ensures AllKeyed(buf, kf, ts[..k] + [t] + ts[k..])
    ensures KeysOf(buf, kf, ts[..k] + [t] + ts[k..])
         == KeysOf(buf, kf, ts)[..k] + [KeyOf(buf, kf, |buf| - t)] + KeysOf(buf, kf, ts)[k..]
  {
    hide Keyed, KeyOf;
  }

  lemma OneKindOfKey(buf: seq<byte>, kf: KeyField, ts: seq<nat>, t: nat)
    requires AllKeyed(buf, kf, ts) && t <= |buf| && Keyed(buf, kf, |buf| - t)
    ensures OneKind(kf, KeysOf(buf, kf, ts) + [KeyOf(buf, kf, |buf| - t)])
  {
    hide Keyed, GetPointer, GetString, GetField;
  }

  lemma Inserted(ks: seq<Key>, key: Key, k: nat, kf: KeyField)
    requires Ordered(ks) && k <= |ks| && OneKind(kf, ks + [key])
    requires (forall i :: k <= i < |ks| ==> Before(key, ks[i])) && (k > 0 ==> !Before(key, ks[k - 1]))
    ensures Ordered(ks[..k] + [key] + ks[k..])
  {
    var r := ks[..k] + [key] + ks[k..];
    assert forall i :: 0 <= i < |ks| ==> (ks + [key])[i] == ks[i];
    assert (ks + [key])[|ks|] == key;
    forall i, j | 0 <= i < j < |r| ensures !Before(r[j], r[i]) {
      if i == k {
        BeforeAsymmetric(key, ks[j - 1]);
      } else if j == k && i < k - 1 && Before(key, ks[i]) {
        BeforeTransitive(key, ks[i], ks[k - 1]);
      }
    }
  }

  /** Build a vector of tables in key order. */
  method CreateVectorOfSortedTables(b: FlatBufferBuilder, v: seq<nat>, kf: KeyField, ghost keys: seq<Key>)
    returns (o: nat, ghost ts: seq<nat>, ghost ks: seq<Key>)
    requires b.Valid() && !b.nested && !b.inTable && |b.back| + 4 * |v| + 17 < MAX_BUFFER_SIZE
    requires |keys| == |v| && forall i :: 0 <= i < |v| ==> HasKey(b.objects, kf, v[i], keys[i])
    modifies b`back, b`minalign, b`nested, b`objects
    ensures b.Valid() && !b.nested && old(b.back) <= b.back && o in b.objects && b.objects[o] == Offsets(ts)
    ensures |old(b.back)| < o <= |b.back| <= |old(b.back)| + 4 * |v| + 17
    ensures b.objects == old(b.objects)[o := Offsets(ts)] && o !in old(b.objects) && multiset(ts) == multiset(v)
    ensures |ks| == |ts| && Ordered(ks) && forall i :: 0 <= i < |ts| ==> HasKey(b.objects, kf, ts[i], ks[i])
    ensures SameOrder(ts, ks, v, keys)
  {
    hide Sound, AllAt, AllKeyed, Keyed, Ordered, SameOrder;
    var buf := Reversed(b.back);
    ghost var objects := b.objects;
    ObjectsAt(b.Snap());
    TablesKeyed(b.back, buf, objects, kf, v, keys);
    var sorted := StableSort(buf, kf, v);
    ts, ks := sorted, KeysOf(buf, kf, sorted);
    SortedHaveKeys(b.back, buf, objects, kf, v, keys, ts);
    o := b.CreateOffsets(sorted);
    forall i | 0 <= i < |ts| ensures HasKey(b.objects, kf, ts[i], ks[i]) {
      assert o !in objects && b.objects == objects[o := Offsets(ts)];
    }
  }

  lemma ObjectsAt(x: Snapshot)
    requires Sound(x)
    ensures AllAt(x.state.back, x.state.objects)
    ensures forall o :: o in x.state.objects ==> 0 < o <= |x.state.back|
  {
    forall o | o in x.state.objects ensures 0 < o <= |x.state.back| {
      assert ObjAt(x.state.back, o, x.state.objects[o]);
    }
  }

  lemma TablesKeyed(back: seq<byte>, buf: seq<byte>, objects: map<nat, Obj>, kf: KeyField, v: seq<nat>, keys: seq<Key>)
    requires buf == Reversed(back) && AllAt(back, objects) && |keys| == |v|
    requires forall i :: 0 <= i < |v| ==> HasKey(objects, kf, v[i], keys[i])
    ensures AllKeyed(buf, kf, v) && KeysOf(buf, kf, v) == keys
  {
    hide AllAt, HasKey, Keyed, Terminated, KeyOf;
    forall i | 0 <= i < |v|
      ensures v[i] <= |buf| && Keyed(buf, kf, |buf| - v[i]) && KeyOf(buf, kf, |buf| - v[i]) == keys[i]
    {
      KeyReads(back, buf, objects, kf, v[i], keys[i]);
    }
  }

  lemma HasKeyInside(objects: map<nat, Obj>, kf: KeyField, o: nat, k: Key)
    requires HasKey(objects, kf, o, k)
    ensures o in objects
  {
  }

  lemma SortedHaveKeys(back: seq<byte>, buf: seq<byte>, objects: map<nat, Obj>, kf: KeyField, v: seq<nat>,
                       keys: seq<Key>, ts: seq<nat>)
    requires buf == Reversed(back) && AllAt(back, objects) && |keys| == |v| && multiset(ts) == multiset(v)
    requires forall i :: 0 <= i < |v| ==> HasKey(objects, kf, v[i], keys[i])
    requires AllKeyed(buf, kf, ts)
    ensures |ts| == |v|
    ensures forall i :: 0 <= i < |ts| ==> ts[i] in objects && HasKey(objects, kf, ts[i], KeysOf(buf, kf, ts)[i])
  {
    hide AllAt, HasKey, Keyed, Terminated, KeyOf;
    assert |multiset(ts)| == |multiset(v)|;
    forall i | 0 <= i < |ts| ensures ts[i] in objects && HasKey(objects, kf, ts[i], KeysOf(buf, kf, ts)[i]) {
      assert ts[i] in multiset(v);
      var j :| 0 <= j < |v| && v[j] == ts[i];
      KeyReads(back, buf, objects, kf, v[j], keys[j]);
      HasKeyInside(objects, kf, v[j], keys[j]);
    }
  }

  // ----- Looking up -----

  /** The elements of the vector can be compared by key. */
  predicate Searchable(buf: seq<byte>, vec: nat, kf: KeyField) {
    && vec + 4 <= |buf| && vec + 4 + 4 * ReadU32(buf, vec) <= |buf|
    && forall i :: 0 <= i < ReadU32(buf, vec) ==> Keyed(buf, kf, GetIndirect(buf, vec, i))
  }

  /** `KeyCompare`: the comparison with each element, negated for `bsearch`. */
  function Comparisons(buf: seq<byte>, vec: nat, kf: KeyField, sought: Sought): (r: seq<int>)
    requires Searchable(buf, vec, kf) && CanSeek(kf, sought)
    ensures |r| == ReadU32(buf, vec)
  {
    seq(ReadU32(buf, vec), i requires 0 <= i < ReadU32(buf, vec) =>
      -KeyCompareWithValue(buf, kf, GetIndirect(buf, vec, i), sought))
  }

  function LookupByKey(buf: seq<byte>, vec: nat, kf: KeyField, sought: Sought): Option<nat>
    requires Searchable(buf, vec, kf) && CanSeek(kf, sought)
  {
    var found := BinarySearch(Comparisons(buf, vec, kf, sought), 0, ReadU32(buf, vec));
    if found.None? then None else Some(GetIndirect(buf, vec, found.value))
  }

  lemma VectorSearchable(back: seq<byte>, buf: seq<byte>, objects: map<nat, Obj>, kf: KeyField, o: nat, ts: seq<nat>,
                         ks: seq<Key>)
    requires buf == Reversed(back) && AllAt(back, objects) && o in objects && objects[o] == Offsets(ts) && |ks| == |ts|
    requires forall i :: 0 <= i < |ts| ==> HasKey(objects, kf, ts[i], ks[i])
    ensures o <= |buf| && Searchable(buf, |buf| - o, kf) && ReadU32(buf, |buf| - o) == |ts|
    ensures forall i :: 0 <= i < |ts| ==> GetIndirect(buf, |buf| - o, i) == |buf| - ts[i] >= 0
    ensures forall i :: 0 <= i < |ts| ==> KeyReadsAs(buf, kf, |buf| - ts[i], ks[i])
  {
    hide Keyed, KeyOf, Terminated, HasKey;
    assert ObjAt(back, o, objects[o]);
    OffsetsRead(back, buf, o, ts);
    forall i | 0 <= i < |ts| ensures ts[i] <= |buf| && KeyReadsAs(buf, kf, |buf| - ts[i], ks[i]) {
      KeyReads(back, buf, objects, kf, ts[i], ks[i]);
    }
    var vec := |buf| - o;
    forall i | 0 <= i < ReadU32(buf, vec) ensures Keyed(buf, kf, GetIndirect(buf, vec, i)) {
      assert GetIndirect(buf, vec, i) == |buf| - ts[i];
    }
  }

  lemma NotAmong(ks: seq<Key>, k: Key, p: nat, kf: KeyField)
    requires Ordered(ks) && OneKind(kf, ks) && p <= |ks|
    requires (p > 0 ==> Before(ks[p - 1], k)) && (p < |ks| ==> Before(k, ks[p]))
    ensures k !in ks
  {
    if k in ks {
      var i :| 0 <= i < |ks| && ks[i] == k;
      if p > 0 {
        BeforeAsymmetric(ks[p - 1], k);
      }
      if p < |ks| {
        BeforeAsymmetric(k, ks[p]);
      }
    }
  }

  function Cuts(ks: seq<Key>): (r: seq<Key>)
    ensures |r| == |ks|
  {
    seq(|ks|, i requires 0 <= i < |ks| => Cut(ks[i]))
  }

  /** Keys in order are in order as `strcmp` sees them. */
  lemma CutsOrdered(ks: seq<Key>, kf: KeyField)
    requires Ordered(ks) && OneKind(kf, ks)
    ensures Ordered(Cuts(ks)) && OneKind(kf, Cuts(ks))
  {
    forall i, j | 0 <= i < j < |ks| ensures !Before(Cuts(ks)[j], Cuts(ks)[i]) {
      if Before(Cuts(ks)[j], Cuts(ks)[i]) {
        CutMonotone(ks[j], ks[i]);
      }
    }
  }

  lemma CutMonotone(a: Key, b: Key)
    requires Before(Cut(a), Cut(b))
    ensures Before(a, b)
  {
    if a.Text? {
      CStringMonotone(a.text, b.text);
    }
  }

  predicate IsPlain(k: Key) {
    k.Text? ==> 0 !in k.text
  }

  /** Looking up in a sorted vector finds a table exactly if the key of one is what is sought up to its
      first zero byte, and then such a table. */
  lemma LookupFinds(back: seq<byte>, buf: seq<byte>, objects: map<nat, Obj>, kf: KeyField, o: nat, ts: seq<nat>,
                    ks: seq<Key>, sought: Sought) returns (i: nat)
    requires buf == Reversed(back) && AllAt(back, objects) && o in objects && objects[o] == Offsets(ts) && |ks| == |ts|
    requires forall i :: 0 <= i < |ts| ==> HasKey(objects, kf, ts[i], ks[i])
    requires Ordered(ks) && CanSeek(kf, sought)
    ensures o <= |buf| && Searchable(buf, |buf| - o, kf)
    ensures var r := LookupByKey(buf, |buf| - o, kf, sought);
      if SoughtKey(sought) in Cuts(ks) then
        i < |ts| && Cut(ks[i]) == SoughtKey(sought) && r == Some((|buf| - ts[i]) as nat)
      else r == None
  {
    hide Keyed, KeyOf, Terminated, Before, AllAt, HasKey, KeyCompareWithValue, SignTells, GetIndirect, Ordered, Cut;
    VectorSearchable(back, buf, objects, kf, o, ts, ks);
    var vec := |buf| - o;
    var comparisons := Comparisons(buf, vec, kf, sought);
    forall j | 0 <= j < |ts| ensures SignTells(comparisons[j], SoughtKey(sought), Cuts(ks)[j]) {
      assert comparisons[j] == -KeyCompareWithValue(buf, kf, |buf| - ts[j], sought);
      ComparisonTells(buf, kf, |buf| - ts[j], sought);
    }
    KeysOneKind(objects, kf, ts, ks);
    CutsOrdered(ks, kf);
    i := SearchTells(comparisons, Cuts(ks), SoughtKey(sought), kf);
  }

  /** A lookup finds something for the keys that tables have, and for no others. */
  ghost predicate LookupAgrees(buf: seq<byte>, vec: nat, kf: KeyField, ks: seq<Key>)
    requires Searchable(buf, vec, kf)
  {
    forall sought :: CanSeek(kf, sought) ==> (LookupByKey(buf, vec, kf, sought).Some? <==> SoughtKey(sought) in ks)
  }

  /** So it is exactly if every key, cut at its first zero byte, is some table's key. */
  lemma LookupAgreesExactly(back: seq<byte>, buf: seq<byte>, objects: map<nat, Obj>, kf: KeyField, o: nat,
                            ts: seq<nat>, ks: seq<Key>)
    requires buf == Reversed(back) && AllAt(back, objects) && o in objects && objects[o] == Offsets(ts) && |ks| == |ts|
    requires (forall i :: 0 <= i < |ts| ==> HasKey(objects, kf, ts[i], ks[i])) && Ordered(ks)
    ensures o <= |buf| && Searchable(buf, |buf| - o, kf)
    ensures LookupAgrees(buf, |buf| - o, kf, ks) <==> forall i :: 0 <= i < |ks| ==> Cut(ks[i]) in ks
  {
    hide AllAt, HasKey, LookupByKey, Searchable, Ordered, CanSeek, SoughtKey;
    var _ := LookupFinds(back, buf, objects, kf, o, ts, ks, SomeSought(kf));
    KeysOneKind(objects, kf, ts, ks);
    var vec := |buf| - o;
    if forall i :: 0 <= i < |ks| ==> Cut(ks[i]) in ks {
      forall sought | CanSeek(kf, sought)
        ensures LookupByKey(buf, vec, kf, sought).Some? <==> SoughtKey(sought) in ks
      {
        var i := LookupFinds(back, buf, objects, kf, o, ts, ks, sought);
        SoughtIsCut(ks, sought);
      }
    }
    if LookupAgrees(buf, vec, kf, ks) {
      forall i | 0 <= i < |ks| ensures Cut(ks[i]) in ks {
        if ks[i].Text? {
          var sought := CutSought(ks, kf, i);
          var _ := LookupFinds(back, buf, objects, kf, o, ts, ks, sought);
        }
      }
    }
  }

  function SomeSought(kf: KeyField): (sought: Sought)
    ensures CanSeek(kf, sought)
  {
    if kf.StringKey? then Sought.Pointer([0]) else Sought.Value(0)
  }

  /** A key that can be sought is the same when cut. */
  lemma SoughtIsCut(ks: seq<Key>, sought: Sought)
    requires forall i :: 0 <= i < |ks| ==> Cut(ks[i]) in ks
    ensures SoughtKey(sought) in Cuts(ks) <==> SoughtKey(sought) in ks
  {
    if SoughtKey(sought) in ks {
      var i :| 0 <= i < |ks| && ks[i] == SoughtKey(sought);
      assert Cuts(ks)[i] == SoughtKey(sought);
    }
  }

  /** Any key, cut, can be sought. */
  lemma CutSought(ks: seq<Key>, kf: KeyField, i: nat) returns (sought: Sought)
    requires OneKind(kf, ks) && i < |ks| && ks[i].Text?
    ensures CanSeek(kf, sought) && SoughtKey(sought) == Cut(ks[i]) == Cuts(ks)[i]
  {
    var text := CString(ks[i].text);
    sought := Sought.Pointer(text + [0]);
    assert (text + [0])[|text|] == 0;
    CStringUnique(text + [0], text);
  }

  /** So with keys free of zero bytes it finds a table exactly if one has the key, and then one that has
      it: the one that does, if keys differ. */
  lemma LookupFindsKey(back: seq<byte>, buf: seq<byte>, objects: map<nat, Obj>, kf: KeyField, o: nat, ts: seq<nat>,
                       ks: seq<Key>, sought: Sought) returns (i: nat)
    requires buf == Reversed(back) && AllAt(back, objects) && o in objects && objects[o] == Offsets(ts) && |ks| == |ts|
    requires forall i :: 0 <= i < |ts| ==> HasKey(objects, kf, ts[i], ks[i]) && IsPlain(ks[i])
    requires Ordered(ks) && CanSeek(kf, sought)
    ensures o <= |buf| && Searchable(buf, |buf| - o, kf)
    ensures var r := LookupByKey(buf, |buf| - o, kf, sought);
      if SoughtKey(sought) in ks then i < |ts| && ks[i] == SoughtKey(sought)
        && r == Some((|buf| - ts[i]) as nat) else r == None
  {
    hide AllAt, HasKey, LookupByKey, Searchable, Ordered;
    i := LookupFinds(back, buf, objects, kf, o, ts, ks, sought);
    assert Cuts(ks) == ks by {
      forall j | 0 <= j < |ks| ensures Cuts(ks)[j] == ks[j] {
        assert IsPlain(ks[j]);
      }
    }
  }

  /** A key with a zero byte is found by what precedes that, which no table has for its key. */
  lemma ZeroByteKeyFound(back: seq<byte>, buf: seq<byte>, objects: map<nat, Obj>, kf: KeyField, o: nat, t: nat)
    requires buf == Reversed(back) && AllAt(back, objects) && o in objects && objects[o] == Offsets([t])
      && kf.StringKey?
    requires HasKey(objects, kf, t, Text([0x61, 0x00, 0x62]))
    ensures o <= |buf| && t <= |buf| && Searchable(buf, |buf| - o, kf)
    ensures LookupByKey(buf, |buf| - o, kf, Sought.Pointer([0x61, 0x00])) == Some((|buf| - t) as nat)
    ensures SoughtKey(Sought.Pointer([0x61, 0x00])) == Text([0x61]) != Text([0x61, 0x00, 0x62])
  {
    hide AllAt, HasKey, LookupByKey, Searchable;
    var key: seq<byte> := [0x61, 0x00, 0x62];
    CStringUnique(key, [0x61]);
    CStringUnique([0x61, 0x00], [0x61]);
    assert Cuts([Text(key)])[0] == Text([0x61]);
    var i := LookupFinds(back, buf, objects, kf, o, [t], [Text(key)], Sought.Pointer([0x61, 0x00]));
  }

  lemma ComparisonTells(buf: seq<byte>, kf: KeyField, p: nat, sought: Sought)
    requires Keyed(buf, kf, p) && Terminated(buf, kf, p) && CanSeek(kf, sought)
    ensures SignTells(-KeyCompareWithValue(buf, kf, p, sought), SoughtKey(sought), Cut(KeyOf(buf, kf, p)))
  {
    hide Keyed, Terminated, KeyCompareWithValue;
    CompareIsBefore(buf, kf, p, sought);
  }

  lemma KeysOneKind(objects: map<nat, Obj>, kf: KeyField, ts: seq<nat>, ks: seq<Key>)
    requires |ks| == |ts| && forall i :: 0 <= i < |ts| ==> HasKey(objects, kf, ts[i], ks[i])
    ensures OneKind(kf, ks)
  {
    forall i | 0 <= i < |ks| ensures ks[i].Text? <==> kf.StringKey? {
      assert HasKey(objects, kf, ts[i], ks[i]);
    }
  }

  predicate SignTells(comparison: int, k: Key, l: Key) {
    (comparison < 0 <==> Before(k, l)) && (comparison == 0 <==> k == l) && (comparison > 0 <==> Before(l, k))
  }

  lemma SearchTells(comparisons: seq<int>, ks: seq<Key>, k: Key, kf: KeyField) returns (i: nat)
    requires |comparisons| == |ks| && Ordered(ks) && OneKind(kf, ks)
    requires forall j :: 0 <= j < |ks| ==> SignTells(comparisons[j], k, ks[j])
    ensures var r := BinarySearch(comparisons, 0, |ks|);
      if k in ks then r == Some(i) && i < |ks| && ks[i] == k else r == None
  {
    var r := BinarySearch(comparisons, 0, |ks|);
    i := if r.Some? then r.value else 0;
    if r.Some? {
      assert SignTells(comparisons[i], k, ks[i]);
    } else {
      var p := BinarySearchStops(comparisons, 0, |ks|);
      assert p > 0 ==> SignTells(comparisons[p - 1], k, ks[p - 1]);
      assert p < |ks| ==> SignTells(comparisons[p], k, ks[p]);
      NotAmong(ks, k, p, kf);
    }
  }
}
