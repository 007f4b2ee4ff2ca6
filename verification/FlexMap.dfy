/** Looking up a key in a map: binary search of the key vector with `strcmp`, then the value at
    the same index. */
module FlexMap {
  import opened Bytes
  import opened Order
  import opened Search
  import opened Widths
  import opened FlexFormat
  import opened FlexTree
  import opened FlexSort
  import opened FlexCost
  import opened FlexBuilder

  /** The key vector at loc can be searched: each element leads to a terminated string. */
  predicate Searchable(buf: seq<byte>, loc: nat, w: Width, len: nat) {
    && loc + Times(len, w) <= |buf|
    && forall i :: 0 <= i < len ==> KeyMemoryAt(buf, loc, w, i)
  }

  predicate KeyMemoryAt(buf: seq<byte>, loc: nat, w: Width, i: nat) {
    var r := TypedElement(loc, w, FBT_KEY, i);
    r.data + w <= |buf| && 0 <= Indirect(buf, r) <= |buf| && 0 in Memory(buf, Indirect(buf, r))
  }

  /** `KeyCompare`: the key sought against element i. */
  function KeyCompare(buf: seq<byte>, loc: nat, w: Width, i: nat, key: seq<byte>): int
    requires KeyMemoryAt(buf, loc, w, i) && 0 in key
  {
    Strcmp(key, Memory(buf, Indirect(buf, TypedElement(loc, w, FBT_KEY, i))))
  }

  function Comparisons(buf: seq<byte>, loc: nat, w: Width, len: nat, key: seq<byte>): (r: seq<int>)
    requires Searchable(buf, loc, w, len) && 0 in key
    ensures |r| == len
  {
    seq(len, i requires 0 <= i < len => assert KeyMemoryAt(buf, loc, w, i); KeyCompare(buf, loc, w, i, key))
  }

  /** The map at loc can be searched, and its values indexed. */
  predicate Navigable(buf: seq<byte>, loc: nat, w: Width) {
    && 3 * w <= loc <= |buf| && loc + Times(ReadSize(buf, loc, w), w) + ReadSize(buf, loc, w) <= |buf|
    && var (at, keyWidth) := MapKeys(buf, loc, w);
      IsWidth(keyWidth) && keyWidth <= at <= |buf| && Searchable(buf, at, keyWidth, ReadSize(buf, at, keyWidth))
  }

  /** `Map::operator[]` on the map at loc of width w; key is what the key pointer points to. */
  function Lookup(buf: seq<byte>, loc: nat, w: Width, key: seq<byte>): Reference
    requires Navigable(buf, loc, w) && 0 in key
  {
    var (at, keyWidth) := MapKeys(buf, loc, w);
    var len := ReadSize(buf, at, keyWidth);
    var res := BinarySearch(Comparisons(buf, at, keyWidth, len, key), 0, len);
    if res.None? then NULL_REFERENCE else VectorElement(buf, loc, w, res.value)
  }

  lemma KeyElementMemory(buf: seq<byte>, loc: nat, w: Width, ks: seq<seq<byte>>, i: nat)
    requires KeysAt(buf, loc, w, ks) && i < |ks|
    ensures KeyMemoryAt(buf, loc, w, i)
    ensures CString(Memory(buf, Indirect(buf, TypedElement(loc, w, FBT_KEY, i)))) == ks[i]
  {
    var r := TypedElement(loc, w, FBT_KEY, i);
    assert KeyElementReads(buf, r, ks[i]);
    KeyInMemory(buf, Indirect(buf, r), ks[i]);
  }

  lemma KeysSearchable(buf: seq<byte>, loc: nat, w: Width, ks: seq<seq<byte>>)
    requires KeysAt(buf, loc, w, ks)
    ensures Searchable(buf, loc, w, |ks|)
  {
    forall i | 0 <= i < |ks| ensures KeyMemoryAt(buf, loc, w, i) {
      KeyElementMemory(buf, loc, w, ks, i);
    }
  }

  lemma KeyCompareOrders(buf: seq<byte>, loc: nat, w: Width, ks: seq<seq<byte>>, i: nat, key: seq<byte>)
    requires KeysAt(buf, loc, w, ks) && i < |ks| && 0 in key
    ensures KeyMemoryAt(buf, loc, w, i)
    ensures KeyCompare(buf, loc, w, i, key) < 0 <==> Less(CString(key), ks[i])
    ensures KeyCompare(buf, loc, w, i, key) == 0 <==> CString(key) == ks[i]
    ensures KeyCompare(buf, loc, w, i, key) > 0 <==> Less(ks[i], CString(key))
  {
    KeyElementMemory(buf, loc, w, ks, i);
    StrcmpOrders(key, Memory(buf, Indirect(buf, TypedElement(loc, w, FBT_KEY, i))));
  }

  lemma NotBetween(ks: seq<seq<byte>>, k: seq<byte>, p: nat)
    requires Sorted(ks) && p <= |ks| && (p > 0 ==> Less(ks[p - 1], k)) && (p < |ks| ==> Less(k, ks[p]))
    ensures k !in ks
  {
    if k in ks {
      var i :| 0 <= i < |ks| && ks[i] == k;
      LessIrreflexive(k);
    }
  }

  /** comparisons[i] says how k compares to ks[i]. */
  ghost predicate Compares(comparisons: seq<int>, ks: seq<seq<byte>>, k: seq<byte>) {
    |comparisons| == |ks| && forall i :: 0 <= i < |ks| ==> ComparesTo(comparisons[i], k, ks[i])
  }

  predicate ComparesTo(comparison: int, k: seq<byte>, l: seq<byte>) {
    (comparison < 0 <==> Less(k, l)) && (comparison == 0 <==> k == l) && (comparison > 0 <==> Less(l, k))
  }

  /** On sorted keys the search finds the key if it is there, and finds nothing else. */
  lemma SearchFinds(comparisons: seq<int>, ks: seq<seq<byte>>, k: seq<byte>)
    requires Compares(comparisons, ks, k) && Sorted(ks)
    ensures var r := BinarySearch(comparisons, 0, |ks|);
      if r.Some? then ks[r.value] == k else k !in ks
  {
    var r := BinarySearch(comparisons, 0, |ks|);
    if r.Some? {
      assert ComparesTo(comparisons[r.value], k, ks[r.value]);
    } else {
      var p := BinarySearchStops(comparisons, 0, |ks|);
      NotBetween(ks, k, p);
    }
  }

  lemma KeysCompare(buf: seq<byte>, loc: nat, w: Width, ks: seq<seq<byte>>, key: seq<byte>)
    requires KeysAt(buf, loc, w, ks) && 0 in key && Searchable(buf, loc, w, |ks|)
    ensures Compares(Comparisons(buf, loc, w, |ks|, key), ks, CString(key))
  {
    forall i | 0 <= i < |ks| ensures ComparesTo(Comparisons(buf, loc, w, |ks|, key)[i], CString(key), ks[i]) {
      KeyCompareOrders(buf, loc, w, ks, i, key);
    }
  }

  /** A map object with keys in order: looking up a key gives a value paired with it, and null
      exactly when there is none. */
  lemma LookupReads(buf: seq<byte>, loc: nat, w: Width, t: Tree, key: seq<byte>) returns (i: nat)
    requires t.Map? && ObjectAt(buf, loc, w, FBT_MAP, t) && Sorted(t.keys) && 0 in key
    ensures Navigable(buf, loc, w)
    ensures var r := Lookup(buf, loc, w, key);
      if CString(key) in t.keys then i < |t.keys| && t.keys[i] == CString(key) && RefReads(buf, r, t.vals[i])
      else r == NULL_REFERENCE
  {
    var (at, keyWidth) := MapKeys(buf, loc, w);
    assert KeysAt(buf, at, keyWidth, t.keys);
    KeysSearchable(buf, at, keyWidth, t.keys);
    KeysCompare(buf, at, keyWidth, t.keys, key);
    SearchFinds(Comparisons(buf, at, keyWidth, |t.keys|, key), t.keys, CString(key));
    var res := BinarySearch(Comparisons(buf, at, keyWidth, |t.keys|, key), 0, |t.keys|);
    i := if res.Some? then res.value else 0;
  }

  /** What EndMap made of entries with different keys is the map a reader expects: its keys are
      strictly increasing, and every entry is found under its key. */
  lemma MapOfDistinctKeys(t: Tree, entries: seq<Tree>, j: nat) returns (i: nat)
    requires EntriesAreKeys(entries) && IsMapOf(t, entries) && Distinct(EntryKeys(entries))
    requires j < |entries| / 2
    ensures |t.keys| == |t.vals| == |entries| / 2 && StrictlySorted(t.keys)
    ensures i < |t.keys| && t.keys[i] == entries[2 * j].key && t.vals[i] == entries[2 * j + 1]
    ensures forall k :: k in t.keys ==> k in EntryKeys(entries)
  {
    var perm :| IsSortedMap(t, entries, perm);
    var n := |entries| / 2;
    ArrangementHits(perm, n);
    ArrangementOnce(perm, n);
    var ks := EntryKeys(entries);
    forall a, b | 0 <= a < b < n ensures Less(t.keys[a], t.keys[b]) {
      assert ks[perm[a]] != ks[perm[b]];
      LessTotal(t.keys[a], t.keys[b]);
    }
    assert j in perm;
    i :| 0 <= i < n && perm[i] == j;
    assert Odd(entries)[j] == entries[2 * j + 1];
  }

  lemma {:induction false} ArrangementOnce(perm: seq<nat>, n: nat)
    requires IsArrangement(perm, n)
    ensures |perm| == n && forall i, j :: 0 <= i < j < n ==> perm[i] != perm[j]
  {
    if n == 0 {
      ArrangementHits(perm, 0);
    } else {
      var p := ArrangementWithoutLast(perm, n);
      var rest := perm[..p] + perm[p + 1..];
      ArrangementOnce(rest, n - 1);
      ArrangementHits(rest, n - 1);
      forall i, j | 0 <= i < j < n ensures perm[i] != perm[j] {
        var a, b := if i < p then i else i - 1, if j < p then j else j - 1;
        assert i != p ==> rest[a] == perm[i];
        assert j != p ==> rest[b] == perm[j];
      }
    }
  }

  /** Building a map of entries with different keys and looking up any key in the bytes is looking
      it up in the entries: the value paired with it, or null if no entry has it. */
  lemma BuiltMapFinds(buf: seq<byte>, loc: nat, w: Width, t: Tree, entries: seq<Tree>, key: seq<byte>)
    requires EntriesAreKeys(entries) && IsMapOf(t, entries) && Distinct(EntryKeys(entries))
    requires ObjectAt(buf, loc, w, FBT_MAP, t) && 0 in key
    ensures Navigable(buf, loc, w)
    ensures forall j :: 0 <= j < |entries| / 2 && entries[2 * j].key == CString(key) ==>
      RefReads(buf, Lookup(buf, loc, w, key), entries[2 * j + 1])
    ensures CString(key) !in EntryKeys(entries) ==> Lookup(buf, loc, w, key) == NULL_REFERENCE
  {
    var i := LookupReads(buf, loc, w, t, key);
    forall j | 0 <= j < |entries| / 2 && entries[2 * j].key == CString(key)
      ensures CString(key) in t.keys && t.vals[i] == entries[2 * j + 1]
    {
      EntryAt(t, entries, j, i);
    }
    KeysAreEntries(t, entries);
  }

  lemma EntryAt(t: Tree, entries: seq<Tree>, j: nat, i: nat)
    requires EntriesAreKeys(entries) && IsMapOf(t, entries) && Distinct(EntryKeys(entries))
    requires j < |entries| / 2
    ensures entries[2 * j].key in t.keys && |t.keys| == |t.vals|
    ensures i < |t.keys| && t.keys[i] == entries[2 * j].key ==> t.vals[i] == entries[2 * j + 1]
  {
    var k := MapOfDistinctKeys(t, entries, j);
    LessIrreflexive(t.keys[k]);
  }

  lemma KeysAreEntries(t: Tree, entries: seq<Tree>)
    requires EntriesAreKeys(entries) && IsMapOf(t, entries)
    ensures forall k :: k in t.keys ==> k in EntryKeys(entries)
  {
    var perm :| IsSortedMap(t, entries, perm);
    forall i | 0 <= i < |t.keys| ensures t.keys[i] in EntryKeys(entries) {
      assert t.keys[i] == EntryKeys(entries)[perm[i]];
    }
  }

  // ----- Equal keys -----

  /** Entries with equal keys have equal values. */
  predicate ValuesAgree(entries: seq<Tree>)
    requires EntriesAreKeys(entries)
  {
    forall i, j :: 0 <= i < j < |entries| / 2 && entries[2 * i].key == entries[2 * j].key ==>
      entries[2 * i + 1] == entries[2 * j + 1]
  }

  /** Looking up the key of entry j in the map at loc gives its value. */
  ghost predicate IsFound(buf: seq<byte>, loc: nat, w: Width, entries: seq<Tree>, j: nat)
    requires EntriesAreKeys(entries) && j < |entries| / 2 && Navigable(buf, loc, w)
  {
    RefReads(buf, Lookup(buf, loc, w, entries[2 * j].key + [0]), entries[2 * j + 1])
  }

  /** A map gives back the value of every entry it was built of exactly if entries with equal keys have
      equal values. */
  lemma EveryEntryFound(buf: seq<byte>, loc: nat, w: Width, t: Tree, entries: seq<Tree>)
    requires EntriesAreKeys(entries) && IsMapOf(t, entries) && ObjectAt(buf, loc, w, FBT_MAP, t)
    ensures Navigable(buf, loc, w)
    ensures (forall j :: 0 <= j < |entries| / 2 ==> IsFound(buf, loc, w, entries, j)) <==> ValuesAgree(entries)
  {
    hide ObjectAt, Navigable, Lookup, RefReads;
    var _ := LookupReads(buf, loc, w, t, [0]);
    if ValuesAgree(entries) {
      forall j | 0 <= j < |entries| / 2 ensures IsFound(buf, loc, w, entries, j) {
        var i := FoundEntry(buf, loc, w, t, entries, j);
      }
    }
    forall i, j | 0 <= i < j < |entries| / 2 && entries[2 * i].key == entries[2 * j].key
      && IsFound(buf, loc, w, entries, i) && IsFound(buf, loc, w, entries, j)
      ensures entries[2 * i + 1] == entries[2 * j + 1]
    {
      var r := Lookup(buf, loc, w, entries[2 * i].key + [0]);
      ReadsUnique(buf, r, entries[2 * i + 1], entries[2 * j + 1]);
    }
  }

  /** Looking up the key of entry j gives the value of an entry with that key. */
  lemma FoundEntry(buf: seq<byte>, loc: nat, w: Width, t: Tree, entries: seq<Tree>, j: nat) returns (i: nat)
    requires EntriesAreKeys(entries) && IsMapOf(t, entries) && ObjectAt(buf, loc, w, FBT_MAP, t)
    requires j < |entries| / 2
    ensures Navigable(buf, loc, w)
    ensures i < |entries| / 2 && entries[2 * i].key == entries[2 * j].key
    ensures RefReads(buf, Lookup(buf, loc, w, entries[2 * j].key + [0]), entries[2 * i + 1])
  {
    hide ObjectAt, Navigable, Lookup, RefReads;
    var key := entries[2 * j].key + [0];
    var perm :| IsSortedMap(t, entries, perm);
    ArrangementHits(perm, |entries| / 2);
    assert j in perm;
    var k :| 0 <= k < |perm| && perm[k] == j;
    KeyHasNoZero(buf, loc, w, t, k);
    assert t.keys[k] == EntryKeys(entries)[j] == entries[2 * j].key;
    assert key[|key| - 1] == 0;
    CStringUnique(key, entries[2 * j].key);
    var m := LookupReads(buf, loc, w, t, key);
    i := perm[m];
    assert t.keys[m] == EntryKeys(entries)[i] && t.vals[m] == Odd(entries)[i];
  }

  lemma KeyHasNoZero(buf: seq<byte>, loc: nat, w: Width, t: Tree, k: nat)
    requires t.Map? && ObjectAt(buf, loc, w, FBT_MAP, t) && k < |t.keys|
    ensures 0 !in t.keys[k]
  {
    var (at, keyWidth) := MapKeys(buf, loc, w);
    assert KeyElementReads(buf, TypedElement(at, keyWidth, FBT_KEY, k), t.keys[k]);
  }
}
