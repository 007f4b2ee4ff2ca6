/** Sorting of map entries: `std::sort` with the builder's `strcmp` comparator, as an arrangement
    of entry numbers. */
module FlexSort {
  import opened Bytes
  import opened Order

  function Identity(n: nat): (s: seq<nat>)
    ensures |s| == n
  {
    seq(n, i => i)
  }

  /** perm lists each of 0..n-1 once. */
  ghost predicate IsArrangement(perm: seq<nat>, n: nat) {
    multiset(perm) == multiset(Identity(n))
  }

  lemma ArrangementHits(perm: seq<nat>, n: nat)
    requires IsArrangement(perm, n)
    ensures |perm| == n
    ensures forall i :: 0 <= i < n ==> 0 <= perm[i] < n
    ensures forall j :: 0 <= j < n ==> j in perm
  {
    assert |multiset(perm)| == |multiset(Identity(n))|;
    forall i | 0 <= i < n ensures 0 <= perm[i] < n {
      assert perm[i] in multiset(perm);
      assert perm[i] in Identity(n);
    }
    forall j | 0 <= j < n ensures j in perm {
      assert Identity(n)[j] == j;
      assert j in multiset(Identity(n));
    }
  }

  lemma {:induction false} IdentityGrows(n: nat)
    ensures Identity(n + 1) == Identity(n) + [n]
  {
  }

  /** Where n - 1 is in an arrangement of 0..n-1; the rest arranges 0..n-2. */
  lemma ArrangementWithoutLast(perm: seq<nat>, n: nat) returns (p: nat)
    requires n > 0 && IsArrangement(perm, n)
    ensures |perm| == n && p < n && perm[p] == n - 1
    ensures IsArrangement(perm[..p] + perm[p + 1..], n - 1)
  {
    hide Identity;
    ArrangementHits(perm, n);
    assert n - 1 in perm;
    p :| 0 <= p < n && perm[p] == n - 1;
    WithoutOne(perm, p);
    LastOfIdentity(n - 1);
    Cancel(multiset(perm[..p] + perm[p + 1..]), multiset(Identity(n - 1)), multiset{n - 1});
  }

  lemma WithoutOne(s: seq<nat>, p: nat)
    requires p < |s|
    ensures multiset(s) == multiset(s[..p] + s[p + 1..]) + multiset{s[p]}
  {
    assert s == s[..p] + [s[p]] + s[p + 1..];
  }

  lemma LastOfIdentity(n: nat)
    ensures multiset(Identity(n + 1)) == multiset(Identity(n)) + multiset{n}
  {
    hide Identity;
    IdentityGrows(n);
  }

  lemma Cancel(a: multiset<nat>, b: multiset<nat>, c: multiset<nat>)
    requires a + c == b + c
    ensures a == b
  {
    assert a == (a + c) - c;
  }

  function Permute<T>(s: seq<T>, perm: seq<nat>): (r: seq<T>)
    requires forall i :: 0 <= i < |perm| ==> perm[i] < |s|
    ensures |r| == |perm|
  {
    seq(|perm|, i requires 0 <= i < |perm| => s[perm[i]])
  }

  /** No key comes after a larger one. */
  ghost predicate Sorted(keys: seq<seq<byte>>) {
    forall i, j :: 0 <= i < j < |keys| ==> !Less(keys[j], keys[i])
  }

  function CStrings(memory: seq<seq<byte>>): (keys: seq<seq<byte>>)
    ensures |keys| == |memory|
  {
    seq(|memory|, i requires 0 <= i < |memory| => CString(memory[i]))
  }

  /** perm arranges the first n keys in order. */
  ghost predicate Arranged(keys: seq<seq<byte>>, perm: seq<nat>, n: nat) {
    && |perm| == n <= |keys| && IsArrangement(perm, n)
    && (forall i :: 0 <= i < n ==> perm[i] < n)
    && forall i, j :: 0 <= i < j < n ==> !Less(keys[perm[j]], keys[perm[i]])
  }

  /** memory[i] is what the i-th key pointer points to.  `std::sort` promises no more than this
      contract; the insertion sort is one way to meet it. */
  method SortKeys(memory: seq<seq<byte>>) returns (perm: seq<nat>, duplicates: bool)
    requires forall i :: 0 <= i < |memory| ==> 0 in memory[i]
    ensures Arranged(CStrings(memory), perm, |memory|)
    ensures duplicates <==> !Distinct(CStrings(memory))
  {
    perm := [];
    assert IsArrangement(perm, 0);
    duplicates := false;
    ghost var keys := CStrings(memory);
    for n := 0 to |memory|
      invariant Arranged(keys, perm, n)
      invariant duplicates <==> !Distinct(keys[..n])
    {
      var k, equal := InsertionPoint(memory, perm, n);
      InsertSorted(keys, perm, n, k);
      DuplicateFound(keys, perm, n, k);
      perm := perm[..k] + [n] + perm[k..];
      duplicates := duplicates || equal;
    }
    assert keys[..|memory|] == keys;
  }

  method InsertionPoint(memory: seq<seq<byte>>, perm: seq<nat>, n: nat) returns (k: nat, equal: bool)
    requires forall i :: 0 <= i < |memory| ==> 0 in memory[i]
    requires n < |memory| && |perm| == n && forall i :: 0 <= i < n ==> perm[i] < n
    ensures k <= n
    ensures forall i :: k <= i < n ==> Less(CStrings(memory)[n], CStrings(memory)[perm[i]])
    ensures k > 0 ==> !Less(CStrings(memory)[n], CStrings(memory)[perm[k - 1]])
    ensures equal <==> k > 0 && CStrings(memory)[perm[k - 1]] == CStrings(memory)[n]
  {
    ghost var keys := CStrings(memory);
    k := n;
    equal := false;
    while k > 0
      invariant k <= n && !equal
      invariant forall i :: k <= i < n ==> Less(keys[n], keys[perm[i]])
    {
      var comp := Strcmp(memory[n], memory[perm[k - 1]]);
      StrcmpOrders(memory[n], memory[perm[k - 1]]);
      if comp >= 0 {
        equal := comp == 0;
        return;
      }
      k := k - 1;
    }
  }

  /** Inserting n between the keys not above it and the keys above it keeps the order. */
  lemma InsertSorted(keys: seq<seq<byte>>, perm: seq<nat>, n: nat, k: nat)
    requires n < |keys| && Arranged(keys, perm, n) && k <= n
    requires forall i :: k <= i < n ==> Less(keys[n], keys[perm[i]])
    requires k > 0 ==> !Less(keys[n], keys[perm[k - 1]])
    ensures Arranged(keys, perm[..k] + [n] + perm[k..], n + 1)
  {
    var p := perm[..k] + [n] + perm[k..];
    forall i, j | 0 <= i < j < n + 1 ensures !Less(keys[p[j]], keys[p[i]]) {
      if i == k {
        LessAsymmetric(keys[n], keys[perm[j - 1]]);
      } else if j == k && i < k - 1 && Less(keys[n], keys[perm[i]]) {
        LessOrEqualTransitive(keys[n], keys[perm[i]], keys[perm[k - 1]]);
      }
    }
    InsertArrangement(perm, n, k);
  }

  lemma InsertArrangement(perm: seq<nat>, n: nat, k: nat)
    requires IsArrangement(perm, n) && k <= |perm|
    ensures IsArrangement(perm[..k] + [n] + perm[k..], n + 1)
  {
    IdentityGrows(n);
    assert perm == perm[..k] + perm[k..];
  }

  lemma LessOrEqualTransitive(a: seq<byte>, b: seq<byte>, c: seq<byte>)
    requires Less(a, b) && !Less(c, b)
    ensures Less(a, c)
  {
    LessTotal(b, c);
    if Less(b, c) {
      LessTransitive(a, b, c);
    }
  }

  /** Only the neighbour below can equal the inserted key. */
  lemma DuplicateFound(keys: seq<seq<byte>>, perm: seq<nat>, n: nat, k: nat)
    requires n < |keys| && Arranged(keys, perm, n) && k <= n
    requires forall i :: k <= i < n ==> Less(keys[n], keys[perm[i]])
    requires k > 0 ==> !Less(keys[n], keys[perm[k - 1]])
    ensures Distinct(keys[..n + 1]) <==>
      Distinct(keys[..n]) && !(k > 0 && keys[perm[k - 1]] == keys[n])
  {
    ArrangementHits(perm, n);
    if k > 0 && keys[perm[k - 1]] == keys[n] {
      assert keys[..n + 1][perm[k - 1]] == keys[..n + 1][n];
    }
    if Distinct(keys[..n]) && !(k > 0 && keys[perm[k - 1]] == keys[n]) {
      forall i, j | 0 <= i < j < n + 1 ensures keys[i] != keys[j] {
        if j < n {
          assert keys[..n][i] != keys[..n][j];
        } else {
          assert i in perm;
          var m :| 0 <= m < n && perm[m] == i;
          if m >= k {
            LessIrreflexive(keys[n]);
          } else if m < k - 1 && keys[i] == keys[n] {
            LessTotal(keys[n], keys[perm[k - 1]]);
          }
        }
      }
    }
    if Distinct(keys[..n + 1]) {
      forall i, j | 0 <= i < j < n ensures keys[..n][i] != keys[..n][j] {
        assert keys[..n + 1][i] != keys[..n + 1][j];
      }
    }
  }

  /** s with its pairs from start on put in the order perm. */
  function Rearranged<T>(s: seq<T>, start: nat, perm: seq<nat>): (r: seq<T>)
    requires start + 2 * |perm| == |s| && forall i :: 0 <= i < |perm| ==> perm[i] < |perm|
    ensures |r| == |s|
  {
    seq(|s|, i requires 0 <= i < |s| =>
      if i < start then s[i] else s[start + 2 * perm[(i - start) / 2] + (i - start) % 2])
  }

  lemma RearrangedStart<T>(s: seq<T>, start: nat, perm: seq<nat>)
    requires start + 2 * |perm| == |s| && forall i :: 0 <= i < |perm| ==> perm[i] < |perm|
    ensures Rearranged(s, start, perm)[..start] == s[..start]
  {
  }

  lemma RearrangedPair<T>(s: seq<T>, start: nat, perm: seq<nat>, k: nat)
    requires start + 2 * |perm| == |s| && k < |perm| && forall i :: 0 <= i < |perm| ==> perm[i] < |perm|
    ensures Rearranged(s, start, perm)[start + 2 * k] == s[start + 2 * perm[k]]
    ensures Rearranged(s, start, perm)[start + 2 * k + 1] == s[start + 2 * perm[k] + 1]
  {
    assert (2 * k) / 2 == k && (2 * k) % 2 == 0 && (2 * k + 1) / 2 == k && (2 * k + 1) % 2 == 1;
  }
}
