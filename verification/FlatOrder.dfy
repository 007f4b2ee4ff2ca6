/** Sorted vectors in two builders: the same tables, sorted in each by their own bytes, come in the same
    order. */
module FlatOrder {
  import opened Order
  import opened FlatObjects
  import opened FlatSharing
  import opened FlatSorted

  /** ts are the tables v in key order, those with equal keys in the order given. */
  ghost predicate IsSortOf(objects: map<nat, Obj>, kf: KeyField, v: seq<nat>, ts: seq<nat>) {
    exists keys, ks :: IsSortBy(objects, kf, v, keys, ts, ks)
  }

  ghost predicate IsSortBy(objects: map<nat, Obj>, kf: KeyField, v: seq<nat>, keys: seq<Key>, ts: seq<nat>,
                           ks: seq<Key>) {
    && |keys| == |v| && |ks| == |ts| && Ordered(ks) && SameOrder(ts, ks, v, keys)
    && (forall i :: 0 <= i < |v| ==> HasKey(objects, kf, v[i], keys[i]))
    && forall i :: 0 <= i < |ts| ==> HasKey(objects, kf, ts[i], ks[i])
  }

  ghost predicate AllAlike(a: map<nat, Obj>, ts: seq<nat>, b: map<nat, Obj>, us: seq<nat>) {
    |ts| == |us| && forall i :: 0 <= i < |ts| ==> Alike(a, ts[i], b, us[i])
  }

  /** Sorting what is alike gives what is alike, in the same order. */
  lemma SortsAlike(a: map<nat, Obj>, kf: KeyField, v: seq<nat>, ts: seq<nat>, b: map<nat, Obj>, w: seq<nat>,
                   us: seq<nat>)
    requires IsSortOf(a, kf, v, ts) && IsSortOf(b, kf, w, us) && AllAlike(a, v, b, w)
    ensures AllAlike(a, ts, b, us)
  {
    hide AllAlike, HasKey, Ordered;
    var keys, ks :| IsSortBy(a, kf, v, keys, ts, ks);
    var keys', ls :| IsSortBy(b, kf, w, keys', us, ls);
    SameKeys(a, kf, v, keys, b, w, keys');
    forall k ensures AllAlike(a, WithKey(ts, ks, k), b, WithKey(us, ls, k)) {
      WithKeyAlike(a, v, b, w, keys, k);
    }
    KeysOneKind(a, kf, ts, ks);
    KeysOneKind(b, kf, us, ls);
    OneOrder(a, kf, ts, ks, b, us, ls);
  }

  /** Tables that are alike have the same key. */
  lemma SameKey(a: map<nat, Obj>, kf: KeyField, p: nat, k: Key, b: map<nat, Obj>, q: nat, l: Key)
    requires HasKey(a, kf, p, k) && HasKey(b, kf, q, l) && Alike(a, p, b, q)
    ensures k == l
  {
    var s, t := a[p].slots, b[q].slots;
    assert SlotsAlike(a, p, s, b, t) && (kf.field in s <==> kf.field in t);
    if kf.field in s {
      assert SlotAlike(a, p, s[kf.field], b, t[kf.field]);
      assert s[kf.field].Ref? ==> Alike(a, s[kf.field].target, b, t[kf.field].target);
    }
  }

  lemma SameKeys(a: map<nat, Obj>, kf: KeyField, v: seq<nat>, keys: seq<Key>, b: map<nat, Obj>, w: seq<nat>,
                 keys': seq<Key>)
    requires AllAlike(a, v, b, w) && |keys| == |v| && |keys'| == |w|
    requires forall i :: 0 <= i < |v| ==> HasKey(a, kf, v[i], keys[i])
    requires forall i :: 0 <= i < |w| ==> HasKey(b, kf, w[i], keys'[i])
    ensures keys == keys'
  {
    hide HasKey, Alike;
    forall i | 0 <= i < |v| ensures keys[i] == keys'[i] {
      SameKey(a, kf, v[i], keys[i], b, w[i], keys'[i]);
    }
  }

  /** Picking those with one key from what is alike gives what is alike. */
  lemma {:induction false} WithKeyAlike(a: map<nat, Obj>, v: seq<nat>, b: map<nat, Obj>, w: seq<nat>, keys: seq<Key>,
                                        k: Key)
    requires AllAlike(a, v, b, w) && |keys| == |v|
    ensures AllAlike(a, WithKey(v, keys, k), b, WithKey(w, keys, k))
    decreases |v|
  {
    hide Alike;
    if v != [] {
      var n := |v| - 1;
      WithKeyAlike(a, v[..n], b, w[..n], keys[..n], k);
    }
  }

  lemma {:induction false} KeyOccurs(ts: seq<nat>, ks: seq<Key>, k: Key)
    requires |ts| == |ks|
    ensures WithKey(ts, ks, k) != [] <==> k in ks
    decreases |ts|
  {
    if ts != [] {
      var n := |ts| - 1;
      KeyOccurs(ts[..n], ks[..n], k);
      assert ks == ks[..n] + [ks[n]];
    }
  }

  /** The last table is the last of those with its key. */
  lemma LastWithKey(ts: seq<nat>, ks: seq<Key>, k: Key)
    requires |ts| == |ks| > 0
    ensures var n := |ts| - 1;
      WithKey(ts, ks, k) == WithKey(ts[..n], ks[..n], k) + if ks[n] == k then [ts[n]] else []
  {
  }

  lemma OccurAlike(a: map<nat, Obj>, ts: seq<nat>, ks: seq<Key>, b: map<nat, Obj>, us: seq<nat>, ls: seq<Key>, k: Key)
    requires |ts| == |ks| && |us| == |ls| && AllAlike(a, WithKey(ts, ks, k), b, WithKey(us, ls, k))
    ensures k in ks <==> k in ls
  {
    KeyOccurs(ts, ks, k);
    KeyOccurs(us, ls, k);
  }

  /** The last keys are both the largest there are. */
  lemma LastKeys(a: map<nat, Obj>, kf: KeyField, ts: seq<nat>, ks: seq<Key>, b: map<nat, Obj>, us: seq<nat>,
                 ls: seq<Key>)
    requires |ks| == |ts| && |ls| == |us| && Ordered(ks) && Ordered(ls) && OneKind(kf, ks) && OneKind(kf, ls)
    requires (forall k :: AllAlike(a, WithKey(ts, ks, k), b, WithKey(us, ls, k))) && ts != []
    ensures us != [] && ls[|us| - 1] == ks[|ts| - 1]
  {
    hide AllAlike, WithKey, Ordered;
    var k := ks[|ts| - 1];
    assert AllAlike(a, WithKey(ts, ks, k), b, WithKey(us, ls, k));
    OccurAlike(a, ts, ks, b, us, ls, k);
    var l := ls[|us| - 1];
    assert AllAlike(a, WithKey(ts, ks, l), b, WithKey(us, ls, l));
    OccurAlike(a, ts, ks, b, us, ls, l);
    NotAfterLast(ls, k);
    NotAfterLast(ks, l);
    if k.Text? {
      LessTotal(k.text, l.text);
    }
  }

  lemma NotAfterLast(ks: seq<Key>, k: Key)
    requires Ordered(ks) && k in ks
    ensures !Before(ks[|ks| - 1], k)
  {
    var i :| 0 <= i < |ks| && ks[i] == k;
    if i == |ks| - 1 && Before(k, k) {
      BeforeAsymmetric(k, k);
    }
  }

  /** Sequences in key order that are alike key by key are alike. */
  lemma {:induction false} OneOrder(a: map<nat, Obj>, kf: KeyField, ts: seq<nat>, ks: seq<Key>, b: map<nat, Obj>,
                                    us: seq<nat>, ls: seq<Key>)
    requires |ks| == |ts| && |ls| == |us| && Ordered(ks) && Ordered(ls) && OneKind(kf, ks) && OneKind(kf, ls)
    requires forall k :: AllAlike(a, WithKey(ts, ks, k), b, WithKey(us, ls, k))
    ensures AllAlike(a, ts, b, us)
    decreases |ts|
  {
    hide Alike, WithKey, AllAlike, Ordered;
    if ts == [] {
      NothingLeft(a, ts, ks, b, us, ls);
      NothingAlike(a, b);
    } else {
      var n, m := |ts| - 1, |us| - 1;
      LastKeys(a, kf, ts, ks, b, us, ls);
      forall k ensures AllAlike(a, WithKey(ts[..n], ks[..n], k), b, WithKey(us[..m], ls[..m], k)) {
        assert AllAlike(a, WithKey(ts, ks, k), b, WithKey(us, ls, k));
        WithoutLast(a, ts, ks, b, us, ls, k);
      }
      FewerOrdered(ks);
      FewerOrdered(ls);
      OneOrder(a, kf, ts[..n], ks[..n], b, us[..m], ls[..m]);
      assert AllAlike(a, WithKey(ts, ks, ks[n]), b, WithKey(us, ls, ks[n]));
      LastAlike(a, ts, ks, b, us, ls);
    }
  }

  lemma NothingLeft(a: map<nat, Obj>, ts: seq<nat>, ks: seq<Key>, b: map<nat, Obj>, us: seq<nat>, ls: seq<Key>)
    requires ts == [] && |ks| == |ts| && |ls| == |us|
    requires forall k :: AllAlike(a, WithKey(ts, ks, k), b, WithKey(us, ls, k))
    ensures us == []
  {
    hide AllAlike, WithKey;
    var l := if us == [] then Number(0) else ls[0];
    assert AllAlike(a, WithKey(ts, ks, l), b, WithKey(us, ls, l));
    OccurAlike(a, ts, ks, b, us, ls, l);
  }

  lemma NothingAlike(a: map<nat, Obj>, b: map<nat, Obj>)
    ensures AllAlike(a, [], b, [])
  {
  }

  lemma WithoutLast(a: map<nat, Obj>, ts: seq<nat>, ks: seq<Key>, b: map<nat, Obj>, us: seq<nat>, ls: seq<Key>, k: Key)
    requires |ks| == |ts| > 0 && |ls| == |us| > 0 && ks[|ts| - 1] == ls[|us| - 1]
    requires AllAlike(a, WithKey(ts, ks, k), b, WithKey(us, ls, k))
    ensures AllAlike(a, WithKey(ts[..|ts| - 1], ks[..|ts| - 1], k), b, WithKey(us[..|us| - 1], ls[..|us| - 1], k))
  {
    hide Alike, WithKey;
    LastWithKey(ts, ks, k);
    LastWithKey(us, ls, k);
    var x, y := WithKey(ts, ks, k), WithKey(us, ls, k);
    var s, t := WithKey(ts[..|ts| - 1], ks[..|ts| - 1], k), WithKey(us[..|us| - 1], ls[..|us| - 1], k);
    assert s == x[..|s|] && t == y[..|t|];
  }

  lemma FewerOrdered(ks: seq<Key>)
    requires Ordered(ks) && ks != []
    ensures Ordered(ks[..|ks| - 1])
  {
  }

  lemma LastAlike(a: map<nat, Obj>, ts: seq<nat>, ks: seq<Key>, b: map<nat, Obj>, us: seq<nat>, ls: seq<Key>)
    requires |ks| == |ts| > 0 && |ls| == |us| > 0 && ks[|ts| - 1] == ls[|us| - 1]
    requires AllAlike(a, ts[..|ts| - 1], b, us[..|us| - 1])
    requires AllAlike(a, WithKey(ts, ks, ks[|ts| - 1]), b, WithKey(us, ls, ks[|ts| - 1]))
    ensures AllAlike(a, ts, b, us)
  {
    hide Alike, WithKey;
    var k := ks[|ts| - 1];
    LastWithKey(ts, ks, k);
    LastWithKey(us, ls, k);
    var x, y := WithKey(ts, ks, k), WithKey(us, ls, k);
    assert x[|x| - 1] == ts[|ts| - 1] && y[|y| - 1] == us[|us| - 1];
    assert Alike(a, x[|x| - 1], b, y[|x| - 1]);
    forall i | 0 <= i < |ts| ensures Alike(a, ts[i], b, us[i]) {
      if i < |ts| - 1 {
        assert ts[..|ts| - 1][i] == ts[i] && us[..|us| - 1][i] == us[i];
      }
    }
  }
}
