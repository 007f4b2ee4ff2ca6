/** Lexicographic order of byte strings, and the C library comparisons that the builders, the
    lookups and the string pools use.  Each comparison is shown to be the same order. */
module Order {
  import opened Bytes

  /** a comes strictly before b, bytes compared as unsigned. */
  predicate Less(a: seq<byte>, b: seq<byte>) {
    b != [] && (a == [] || a[0] < b[0] || (a[0] == b[0] && Less(a[1..], b[1..])))
  }

  lemma SameFirst(a: seq<byte>, b: seq<byte>, k: nat)
    ensures 0 < k <= |a| && k <= |b| && a[..k] == b[..k] ==> a[0] == b[0]
  {
    if 0 < k <= |a| && k <= |b| {
      assert a[..k][0] == a[0] && b[..k][0] == b[0];
    }
  }

  /** a comes before b exactly if it is a proper prefix of b, or smaller at the first byte where they differ. */
  lemma {:induction false} LessMeans(a: seq<byte>, b: seq<byte>)
    ensures Less(a, b) <==>
      exists k: nat :: k <= |a| && k < |b| && a[..k] == b[..k] && (k == |a| || a[k] < b[k])
  {
    if a == [] || b == [] {
      assert b != [] ==> a[..0] == b[..0];
    } else if a[0] < b[0] {
      assert a[..0] == b[..0];
    } else if a[0] > b[0] {
      forall k: nat ensures !(0 < k <= |a| && k < |b| && a[..k] == b[..k]) {
        SameFirst(a, b, k);
      }
    } else {
      LessMeans(a[1..], b[1..]);
      if k: nat :|
        k < |a| && k < |b| - 1 && a[1..][..k] == b[1..][..k] && (k == |a| - 1 || a[1..][k] < b[1..][k]) {
        assert a[..k + 1] == [a[0]] + a[1..][..k] && b[..k + 1] == [b[0]] + b[1..][..k];
      }
      if k: nat :| k <= |a| && k < |b| && a[..k] == b[..k] && (k == |a| || a[k] < b[k]) {
        assert a[1..][..k - 1] == a[..k][1..] && b[1..][..k - 1] == b[..k][1..];
      }
    }
  }

  lemma {:induction false} LessIrreflexive(a: seq<byte>)
    ensures !Less(a, a)
  {
    if a != [] {
      LessIrreflexive(a[1..]);
    }
  }

  lemma {:induction false} LessTotal(a: seq<byte>, b: seq<byte>)
    ensures Less(a, b) || a == b || Less(b, a)
  {
    if a != [] && b != [] && a[0] == b[0] {
      LessTotal(a[1..], b[1..]);
      assert a == [a[0]] + a[1..] && b == [b[0]] + b[1..];
    }
  }

  lemma {:induction false} LessTransitive(a: seq<byte>, b: seq<byte>, c: seq<byte>)
    requires Less(a, b) && Less(b, c)
    ensures Less(a, c)
  {
    if a != [] && a[0] == b[0] && b[0] == c[0] {
      LessTransitive(a[1..], b[1..], c[1..]);
    }
  }

  lemma LessAsymmetric(a: seq<byte>, b: seq<byte>)
    requires Less(a, b)
    ensures !Less(b, a) && a != b
  {
    LessIrreflexive(a);
    if Less(b, a) {
      LessTransitive(a, b, a);
    }
  }

  ghost predicate StrictlySorted(keys: seq<seq<byte>>) {
    forall i, j :: 0 <= i < j < |keys| ==> Less(keys[i], keys[j])
  }

  ghost predicate Distinct(keys: seq<seq<byte>>) {
    forall i, j :: 0 <= i < j < |keys| ==> keys[i] != keys[j]
  }

  // ----- C strings -----

  /** The C string that a pointer to s denotes: everything before the first zero byte. */
  function CString(s: seq<byte>): (c: seq<byte>)
    ensures c <= s && 0 !in c
    ensures 0 in s ==> |c| < |s| && s[|c|] == 0
    ensures 0 !in s ==> c == s
  {
    if s == [] || s[0] == 0 then [] else [s[0]] + CString(s[1..])
  }

  /** Cutting two strings at their first zero byte keeps their order. */
  lemma {:induction false} CStringMonotone(a: seq<byte>, b: seq<byte>)
    requires Less(CString(a), CString(b))
    ensures Less(a, b)
  {
    if CString(a) != [] && a[0] == b[0] {
      assert CString(a)[1..] == CString(a[1..]) && CString(b)[1..] == CString(b[1..]);
      CStringMonotone(a[1..], b[1..]);
    }
  }

  lemma {:induction false} CStringUnique(s: seq<byte>, c: seq<byte>)
    requires c + [0] <= s && 0 !in c
    ensures CString(s) == c
  {
    assert s[|c|] == (c + [0])[|c|];
    if c == [] {
    } else {
      assert s[0] == (c + [0])[0] == c[0];
      assert c[1..] + [0] == (c + [0])[1..] <= s[1..];
      CStringUnique(s[1..], c[1..]);
    }
  }

  /** The sign-carrying result of `strcmp` on two terminated strings. */
  function Strcmp(a: seq<byte>, b: seq<byte>): int
    requires 0 in a && 0 in b
  {
    if a[0] != b[0] then a[0] - b[0]
    else if a[0] == 0 then 0
    else Strcmp(a[1..], b[1..])
  }

  lemma {:induction false} StrcmpOrders(a: seq<byte>, b: seq<byte>)
    requires 0 in a && 0 in b
    ensures Strcmp(a, b) < 0 <==> Less(CString(a), CString(b))
    ensures Strcmp(a, b) == 0 <==> CString(a) == CString(b)
    ensures Strcmp(a, b) > 0 <==> Less(CString(b), CString(a))
  {
    if a[0] == b[0] && a[0] != 0 {
      StrcmpOrders(a[1..], b[1..]);
      assert CString(a) == [a[0]] + CString(a[1..]);
      assert CString(b) == [b[0]] + CString(b[1..]);
      assert CString(a)[1..] == CString(a[1..]) && CString(b)[1..] == CString(b[1..]);
    }
  }

  // ----- Counted strings -----

  function Memcmp(a: seq<byte>, b: seq<byte>, n: nat): int
    requires n <= |a| && n <= |b|
    decreases n
  {
    if n == 0 then 0
    else if a[0] != b[0] then a[0] - b[0]
    else Memcmp(a[1..], b[1..], n - 1)
  }

  function Min(a: nat, b: nat): nat {
    if a < b then a else b
  }

  /** `StringLessThan` of FlatBuffers: compare the common length, then the lengths. */
  predicate StringLessThan(a: seq<byte>, b: seq<byte>) {
    var cmp := Memcmp(a, b, Min(|a|, |b|));
    if cmp == 0 then |a| < |b| else cmp < 0
  }

  lemma {:induction false} StringLessThanIsLess(a: seq<byte>, b: seq<byte>)
    ensures StringLessThan(a, b) <==> Less(a, b)
  {
    if a != [] && b != [] && a[0] == b[0] {
      StringLessThanIsLess(a[1..], b[1..]);
    }
  }

  /** The comparator of the FlexBuffers string pool: it compares one byte more, the terminator
      of the shorter string, so a and b come with their terminators. */
  predicate PooledStringLessThan(a: seq<byte>, b: seq<byte>)
    requires a != [] && b != []
  {
    var cr := Memcmp(a, b, Min(|a| - 1, |b| - 1) + 1);
    cr < 0 || (cr == 0 && |a| < |b|)
  }

  lemma {:induction false} PooledStringLessThanIsLess(a: seq<byte>, b: seq<byte>)
    ensures PooledStringLessThan(a + [0], b + [0]) <==> Less(a, b)
  {
    var s, t := a + [0], b + [0];
    if a == [] || b == [] {
      assert Memcmp(s[1..], t[1..], 0) == 0;
    } else if a[0] == b[0] {
      PooledStringLessThanIsLess(a[1..], b[1..]);
      assert s[1..] == a[1..] + [0] && t[1..] == b[1..] + [0];
    }
  }
}
