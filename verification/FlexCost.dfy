/** What verifying a tree costs: how many times the verifier enters a vector, and how deep. */
module FlexCost {
  import opened Bytes
  import opened FlexTree
  import opened FlexSort

  function Cost(t: Tree): (cost: nat)
    decreases t, 0
  {
    match t
    case Str(_) => 1
    case Blob(_) => 1
    case Vector(es) => 1 + TotalCost(es)
    case TypedVector(_, _) => 1
    case Map(_, vs) => 2 + TotalCost(vs)
    case _ => 0
  }

  function TotalCost(ts: seq<Tree>): (cost: nat)
    decreases ts, 1
  {
    if ts == [] then 0 else Cost(ts[0]) + TotalCost(ts[1..])
  }

  function Depth(t: Tree): (depth: nat)
    decreases t, 0
  {
    match t
    case Str(_) => 1
    case Blob(_) => 1
    case Vector(es) => 1 + MaxDepth(es)
    case TypedVector(_, _) => 1
    case Map(_, vs) => 1 + MaxDepth(vs)
    case _ => 0
  }

  function MaxDepth(ts: seq<Tree>): (depth: nat)
    decreases ts, 1
  {
    if ts == [] then 0 else Max(Depth(ts[0]), MaxDepth(ts[1..]))
  }

  lemma {:induction false} TotalCostAppend(a: seq<Tree>, b: seq<Tree>)
    ensures TotalCost(a + b) == TotalCost(a) + TotalCost(b)
  {
    if a == [] {
      assert a + b == b;
    } else {
      assert (a + b)[1..] == a[1..] + b;
      TotalCostAppend(a[1..], b);
    }
  }

  lemma TotalCostSplit(ts: seq<Tree>, at: nat)
    requires at <= |ts|
    ensures TotalCost(ts) == TotalCost(ts[..at]) + TotalCost(ts[at..])
  {
    assert ts[..at] + ts[at..] == ts;
    TotalCostAppend(ts[..at], ts[at..]);
  }

  lemma SuffixCost(ts: seq<Tree>, i: nat)
    requires i < |ts|
    ensures TotalCost(ts[i..]) == Cost(ts[i]) + TotalCost(ts[i + 1..])
    ensures Depth(ts[i]) <= MaxDepth(ts[i..]) && MaxDepth(ts[i + 1..]) <= MaxDepth(ts[i..])
  {
    assert ts[i..][0] == ts[i] && ts[i..][1..] == ts[i + 1..];
  }

  /** Every other tree from the second on. */
  function Odd(ts: seq<Tree>): (r: seq<Tree>)
    ensures |r| == |ts| / 2
  {
    seq(|ts| / 2, k requires 0 <= k < |ts| / 2 => ts[2 * k + 1])
  }

  /** Keys cost nothing. */
  lemma {:induction false} TotalCostOdd(ts: seq<Tree>)
    requires |ts| % 2 == 0 && forall i :: 0 <= i < |ts| / 2 ==> ts[2 * i].Key?
    ensures TotalCost(Odd(ts)) == TotalCost(ts)
  {
    if |ts| >= 2 {
      var rest := ts[2..];
      assert ts[2 * 0].Key?;
      assert forall i :: 0 <= i < |rest| / 2 ==> rest[2 * i] == ts[2 * (i + 1)];
      assert ts[1..][1..] == rest;
      assert Odd(ts)[0] == ts[1] && Odd(ts)[1..] == Odd(rest);
      TotalCostOdd(rest);
    }
  }

  /** The cost of trees does not depend on their order. */
  lemma {:induction false} TotalCostPermuted(ts: seq<Tree>, perm: seq<nat>, n: nat)
    requires n <= |ts| && IsArrangement(perm, n) && (forall i :: 0 <= i < |perm| ==> perm[i] < n)
    ensures TotalCost(Permute(ts, perm)) == TotalCost(ts[..n])
  {
    hide IsArrangement;
    if n == 0 {
      ArrangementHits(perm, 0);
      assert Permute(ts, perm) == ts[..0];
    } else {
      var p := ArrangementWithoutLast(perm, n);
      var rest := perm[..p] + perm[p + 1..];
      ArrangementHits(rest, n - 1);
      TotalCostPermuted(ts, rest, n - 1);
      TotalCostMoved(ts, perm, p);
      assert ts[..n] == ts[..n - 1] + [ts[n - 1]];
      TotalCostAppend(ts[..n - 1], [ts[n - 1]]);
    }
  }

  lemma TotalCostMoved(ts: seq<Tree>, perm: seq<nat>, p: nat)
    requires p < |perm| && forall i :: 0 <= i < |perm| ==> perm[i] < |ts|
    ensures TotalCost(Permute(ts, perm)) == TotalCost(Permute(ts, perm[..p] + perm[p + 1..])) + Cost(ts[perm[p]])
  {
    var a, b := Permute(ts, perm[..p]), Permute(ts, perm[p + 1..]);
    assert Permute(ts, perm) == a + ([ts[perm[p]]] + b);
    assert Permute(ts, perm[..p] + perm[p + 1..]) == a + b;
    TotalCostAppend(a, [ts[perm[p]]] + b);
    TotalCostAppend(a, b);
  }
}
