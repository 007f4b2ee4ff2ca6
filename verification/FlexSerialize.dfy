/** Any tree, built and finished: the round trip of the builder and the accessors. */
module FlexSerialize {
  import opened Bytes
  import opened Order
  import opened Widths
  import opened FlexFormat
  import opened FlexTree
  import opened FlexValue
  import opened FlexCost
  import opened FlexSort
  import opened FlexBuilder
  import opened FlexMap
  import opened FlexVerifier
  import opened FlexLimits

  predicate HasType(t: Tree, e: Type) {
    match t
    case Bool(_) => e == FBT_BOOL
    case Int(_) => e == FBT_INT
    case UInt(_) => e == FBT_UINT
    case Key(_) => e == FBT_KEY
    case Str(_) => e == FBT_STRING
    case _ => false
  }

  /** The builder's operations can build t. */
  ghost predicate Buildable(t: Tree) {
    match t
    case Null => true
    case Bool(_) => true
    case Int(i) => IsInt64(i)
    case UInt(u) => u < U64
    case IndirectInt(i) => IsInt64(i)
    case IndirectUInt(u) => u < U64
    case Key(k) => 0 !in k
    case Str(_) => true
    case Blob(_) => true
    case Vector(es) => forall i :: 0 <= i < |es| ==> Buildable(es[i])
    case TypedVector(e, es) =>
      && IsTypedVectorElementType(e) && forall i :: 0 <= i < |es| ==> HasType(es[i], e) && Buildable(es[i])
    case FixedTypedVector(e, es) =>
      && FBT_INT <= e <= FBT_FLOAT && 2 <= |es| <= 4
      && forall i :: 0 <= i < |es| ==> HasType(es[i], e) && Buildable(es[i])
    case Map(ks, vs) =>
      && |ks| == |vs| && Distinct(ks)
      && (forall i :: 0 <= i < |ks| ==> 0 !in ks[i]) && forall i :: 0 <= i < |vs| ==> Buildable(vs[i])
  }

  /** u is t with its maps in key order; a typed vector of strings is one of keys, and an empty
      one has forgotten its element type. */
  ghost predicate Same(t: Tree, u: Tree)
    decreases t, 0
  {
    match t
    case Vector(es) => u.Vector? && |es| == |u.elems| && forall i :: 0 <= i < |es| ==> Same(es[i], u.elems[i])
    case TypedVector(e, es) => u == Tree.TypedVector(if es == [] then FBT_KEY else e, AsTypedAll(es))
    case Map(ks, vs) =>
      && u.Map? && |ks| == |vs| == |u.keys| == |u.vals| && StrictlySorted(u.keys)
      && (forall i :: 0 <= i < |ks| ==> IsPaired(ks[i], vs[i], u.keys, u.vals))
      && forall j :: 0 <= j < |ks| ==> ComesFrom(ks, vs, u.keys[j], u.vals[j])
    case _ => u == t
  }

  /** The pair of k and v is among these. */
  ghost predicate IsPaired(k: seq<byte>, v: Tree, ks: seq<seq<byte>>, vs: seq<Tree>)
    requires |ks| == |vs|
    decreases v, 1
  {
    exists j :: 0 <= j < |ks| && ks[j] == k && Same(v, vs[j])
  }

  /** One of these pairs has become the pair of k and v. */
  ghost predicate ComesFrom(ks: seq<seq<byte>>, vs: seq<Tree>, k: seq<byte>, v: Tree)
    requires |ks| == |vs|
    decreases vs, 1
  {
    exists i :: 0 <= i < |ks| && k == ks[i] && Same(vs[i], v)
  }

  ghost function Rebuilt(t: Tree): iset<Tree> {
    iset u | Same(t, u)
  }

  /** What building t adds to the buffer at most. */
  function Size(t: Tree): nat
    decreases t, 0
  {
    match t
    case IndirectInt(_) => 16
    case IndirectUInt(_) => 16
    case Key(k) => |k| + 1
    case Str(s) => |s| + 17
    case Blob(s) => |s| + 17
    case Vector(es) => TotalSize(es) + 9 * |es| + 39
    case TypedVector(_, es) => TotalSize(es) + 9 * |es| + 39
    case FixedTypedVector(_, es) => TotalSize(es) + 9 * |es| + 39
    case Map(ks, vs) => KeysSize(ks) + TotalSize(vs) + 18 * |ks| + 78
    case _ => 0
  }

  function TotalSize(ts: seq<Tree>): nat
    decreases ts, 1
  {
    if ts == [] then 0 else TotalSize(ts[..|ts| - 1]) + Size(ts[|ts| - 1])
  }

  function KeysSize(ks: seq<seq<byte>>): nat {
    if ks == [] then 0 else KeysSize(ks[..|ks| - 1]) + |ks[|ks| - 1]| + 1
  }

  lemma {:induction false} NextSize(ts: seq<Tree>, i: nat)
    requires i < |ts|
    ensures TotalSize(ts[..i + 1]) == TotalSize(ts[..i]) + Size(ts[i])
    ensures TotalSize(ts[..i + 1]) <= TotalSize(ts)
    decreases |ts| - i
  {
    assert ts[..i + 1][..i] == ts[..i];
    if i + 1 < |ts| {
      NextSize(ts, i + 1);
    } else {
      assert ts[..i + 1] == ts;
    }
  }

  lemma {:induction false} NextKeySize(ks: seq<seq<byte>>, i: nat)
    requires i < |ks|
    ensures KeysSize(ks[..i + 1]) == KeysSize(ks[..i]) + |ks[i]| + 1
    ensures KeysSize(ks[..i + 1]) <= KeysSize(ks)
    decreases |ks| - i
  {
    assert ks[..i + 1][..i] == ks[..i];
    if i + 1 < |ks| {
      NextKeySize(ks, i + 1);
    } else {
      assert ks[..i + 1] == ks;
    }
  }

  function Strings(ss: seq<seq<byte>>): (ts: seq<Tree>)
    ensures |ts| == |ss|
  {
    seq(|ss|, k requires 0 <= k < |ss| => Tree.Str(ss[k]))
  }

  lemma TypedStrings(ss: seq<seq<byte>>, u: Tree)
    requires Same(Tree.TypedVector(FBT_STRING, Strings(ss)), u)
    ensures u.TypedVector? && |u.elems| == |ss| && (ss != [] ==> u.elementType == FBT_STRING)
    ensures forall k :: 0 <= k < |ss| ==> u.elems[k] == Tree.Key(CString(ss[k]))
  {
    forall k | 0 <= k < |ss| ensures u.elems[k] == Tree.Key(CString(ss[k])) {
      assert u.elems[k] == AsTyped(Strings(ss)[k]);
    }
  }

  lemma NoSize()
    ensures TotalSize([]) == 0 && KeysSize([]) == 0
  {
  }

  /** Sorting a map does not change how deep it is. */
  lemma {:induction false} SameDepth(t: Tree, u: Tree)
    requires Same(t, u)
    ensures Depth(t) == Depth(u)
    decreases t, 0
  {
    hide IsPaired, ComesFrom;
    if t.Vector? {
      SameDepths(t.elems, u.elems);
    } else if t.Map? {
      DeepestPaired(t.vals, t.keys, u.keys, u.vals);
      DeepestComesFrom(t.vals, t.keys, u.keys, u.vals);
    }
  }

  lemma {:induction false} SameDepths(ts: seq<Tree>, us: seq<Tree>)
    requires |ts| == |us| && forall i :: 0 <= i < |ts| ==> Same(ts[i], us[i])
    ensures MaxDepth(ts) == MaxDepth(us)
    decreases ts, 1
  {
    if ts != [] {
      SameDepth(ts[0], us[0]);
      SameDepths(ts[1..], us[1..]);
    }
  }

  lemma {:induction false} DepthWithin(ts: seq<Tree>, i: nat)
    requires i < |ts|
    ensures Depth(ts[i]) <= MaxDepth(ts)
  {
    if i > 0 {
      DepthWithin(ts[1..], i - 1);
    }
  }

  lemma {:induction false} DeepestPaired(ts: seq<Tree>, ks: seq<seq<byte>>, ls: seq<seq<byte>>, us: seq<Tree>)
    requires |ts| == |ks| && |us| == |ls| && forall i :: 0 <= i < |ts| ==> IsPaired(ks[i], ts[i], ls, us)
    ensures MaxDepth(ts) <= MaxDepth(us)
    decreases ts, 1
  {
    if ts != [] {
      assert IsPaired(ks[0], ts[0], ls, us);
      var j :| 0 <= j < |us| && ls[j] == ks[0] && Same(ts[0], us[j]);
      SameDepth(ts[0], us[j]);
      DepthWithin(us, j);
      DeepestPaired(ts[1..], ks[1..], ls, us);
    }
  }

  lemma {:induction false} DeepestComesFrom(ts: seq<Tree>, ks: seq<seq<byte>>, ls: seq<seq<byte>>, us: seq<Tree>)
    requires |ts| == |ks| && |us| == |ls| && forall j :: 0 <= j < |us| ==> ComesFrom(ks, ts, ls[j], us[j])
    ensures MaxDepth(us) <= MaxDepth(ts)
    decreases ts, 1, |us|
  {
    if us != [] {
      assert ComesFrom(ks, ts, ls[0], us[0]);
      var i :| 0 <= i < |ts| && ls[0] == ks[i] && Same(ts[i], us[0]);
      SameDepth(ts[i], us[0]);
      DepthWithin(ts, i);
      DeepestComesFrom(ts, ks, ls[1..], us[1..]);
    }
  }

  lemma TypeFollows(buf: seq<byte>, v: Value, t: Tree, e: Type)
    requires ValueReads(buf, v, t) && HasType(t, e)
    ensures v.type_ == e
  {
    if !IsInline(v.type_) {
      assert LeafAt(buf, v.u, ByteWidth(v.minBitWidth), v.type_, t);
    }
  }

  /** Values that read as trees of one type are of that type. */
  lemma TypesFollow(buf: seq<byte>, vals: seq<Value>, ts: seq<Tree>, e: Type)
    requires StackReads(buf, vals, ts) && forall i :: 0 <= i < |ts| ==> HasType(ts[i], e)
    ensures AllOfType(vals, e) && AllOfType(vals, ElementTypeOf(vals))
    ensures ElementTypeOf(vals) == if ts == [] then FBT_KEY else e
  {
    forall i | 0 <= i < |vals| ensures vals[i].type_ == e {
      TypeFollows(buf, vals[i], ts[i], e);
    }
  }

  /** Push t. */
  method Build(b: Builder, t: Tree) returns (r: Result<()>, ghost u: Tree)
    requires b.Valid() && !b.reused && Buildable(t)
    modifies b
    ensures r.Success? ==> b.Valid() && !b.reused && b.trees == old(b.trees) + [u] && u in Rebuilt(t)
    ensures r.Success? ==> |b.buf| <= |old(b.buf)| + Size(t)
    ensures r.OutOfMemory? ==> |old(b.buf)| + Size(t) > MAX_SIZE
    decreases t, 2
  {
    r, u := Success(()), t;
    if t.Vector? {
      r, u := BuildVector(b, t.elems);
    } else if t.Map? {
      r, u := BuildMap(b, t);
    } else if t.TypedVector? {
      r, u := BuildTyped(b, t, t.elementType, t.elems);
    } else if t.FixedTypedVector? {
      r, u := BuildTyped(b, t, t.elementType, t.elems);
    } else {
      r := BuildLeaf(b, t);
    }
  }

  method BuildLeaf(b: Builder, t: Tree) returns (r: Result<()>)
    requires b.Valid() && !b.reused && Buildable(t)
    requires !t.Vector? && !t.Map? && !t.TypedVector? && !t.FixedTypedVector?
    modifies b
    ensures r.Success? ==> b.Valid() && !b.reused && b.trees == old(b.trees) + [t]
    ensures r.Success? ==> |b.buf| <= |old(b.buf)| + Size(t)
    ensures r.OutOfMemory? ==> |old(b.buf)| + Size(t) > MAX_SIZE
  {
    r := Success(());
    match t {
      case Null => b.Null();
      case Bool(x) => b.Bool(x);
      case Int(i) => b.Int(i);
      case UInt(x) => b.UInt(x);
      case IndirectInt(i) => r := b.IndirectInt(i);
      case IndirectUInt(x) => r := b.IndirectUInt(x);
      case Key(k) => var _ :- b.Key(k);
      case Str(s) => var _ :- b.String(s);
      case Blob(s) => var _ :- b.Blob(s);
    }
  }

  /** Push the trees ts. */
  method BuildAll(b: Builder, ts: seq<Tree>) returns (r: Result<()>, ghost us: seq<Tree>)
    requires b.Valid() && !b.reused && forall i :: 0 <= i < |ts| ==> Buildable(ts[i])
    modifies b
    ensures r.Success? ==>
      && b.Valid() && !b.reused && b.trees == old(b.trees) + us && |us| == |ts|
      && forall i :: 0 <= i < |ts| ==> Same(ts[i], us[i])
    ensures r.Success? ==> |b.buf| <= |old(b.buf)| + TotalSize(ts)
    ensures r.OutOfMemory? ==> |old(b.buf)| + TotalSize(ts) > MAX_SIZE
    decreases ts, 0
  {
    hide Same, Buildable;
    us := [];
    for i := 0 to |ts|
      invariant |b.buf| <= |old(b.buf)| + TotalSize(ts[..i])
      invariant b.Valid() && !b.reused && b.trees == old(b.trees) + us && |us| == i
      invariant forall k :: 0 <= k < i ==> Same(ts[k], us[k])
    {
      NextSize(ts, i);
      var each, u := Build(b, ts[i]);
      if each.OutOfMemory? {
        return each, us;
      }
      us := us + [u];
    }
    assert ts[..|ts|] == ts;
    return Success(()), us;
  }

  method BuildVector(b: Builder, es: seq<Tree>) returns (r: Result<()>, ghost u: Tree)
    requires b.Valid() && !b.reused && forall i :: 0 <= i < |es| ==> Buildable(es[i])
    modifies b
    ensures r.Success? ==> b.Valid() && !b.reused && b.trees == old(b.trees) + [u] && u in Rebuilt(Tree.Vector(es))
    ensures r.Success? ==> |b.buf| <= |old(b.buf)| + Size(Tree.Vector(es))
    ensures r.OutOfMemory? ==> |old(b.buf)| + Size(Tree.Vector(es)) > MAX_SIZE
    decreases es, 1
  {
    var start := |b.stack|;
    var elements, us := BuildAll(b, es);
    u := Tree.Vector(us);
    if elements.OutOfMemory? {
      return elements, u;
    }
    assert b.trees[start..] == us && b.trees[..start] == old(b.trees);
    var end := b.EndVector(start, false, false);
    r := if end.Success? then Success(()) else OutOfMemory;
  }

  lemma TypedLeaves(es: seq<Tree>, us: seq<Tree>, e: Type)
    requires |us| == |es| && forall i :: 0 <= i < |es| ==> HasType(es[i], e) && Same(es[i], us[i])
    ensures us == es
  {
  }

  lemma TypedRebuilt(t: Tree, e: Type, es: seq<Tree>)
    requires t == Tree.TypedVector(e, es) || t == Tree.FixedTypedVector(e, es)
    requires Buildable(t)
    ensures VectorTree(true, t.FixedTypedVector?, None, if es == [] then FBT_KEY else e, es) in Rebuilt(t)
  {
    if t.FixedTypedVector? {
      NoStrings(es, e);
    }
  }

  /** A typed vector, or a fixed one if t is. */
  method BuildTyped(b: Builder, t: Tree, e: Type, es: seq<Tree>) returns (r: Result<()>, ghost u: Tree)
    requires b.Valid() && !b.reused && Buildable(t)
    requires t == Tree.TypedVector(e, es) || t == Tree.FixedTypedVector(e, es)
    modifies b
    ensures r.Success? ==> b.Valid() && !b.reused && b.trees == old(b.trees) + [u] && u in Rebuilt(t)
    ensures r.Success? ==> |b.buf| <= |old(b.buf)| + Size(t)
    ensures r.OutOfMemory? ==> |old(b.buf)| + Size(t) > MAX_SIZE
    decreases es, 1
  {
    hide KeyPoolOk, StringPoolOk, ValueReads, AllOfType, Same, HasType, TotalSize, VectorTree;
    var start := |b.stack|;
    TypedRebuilt(t, e, es);
    var elements, us := BuildAll(b, es);
    u := VectorTree(true, t.FixedTypedVector?, None, if es == [] then FBT_KEY else e, es);
    if elements.OutOfMemory? {
      return elements, u;
    }
    TypedLeaves(es, us, e);
    assert b.trees[start..] == us && b.trees[..start] == old(b.trees);
    TypesFollow(b.buf, b.stack[start..], es, e);
    var end := b.EndVector(start, true, t.FixedTypedVector?);
    r := if end.Success? then Success(()) else OutOfMemory;
  }

  lemma NoStrings(ts: seq<Tree>, e: Type)
    requires e != FBT_STRING && forall i :: 0 <= i < |ts| ==> HasType(ts[i], e)
    ensures AsTypedAll(ts) == ts
  {
  }

  /** Keys and values in turn. */
  function Interleaved(ks: seq<seq<byte>>, us: seq<Tree>): (entries: seq<Tree>)
    requires |ks| == |us|
    ensures |entries| == 2 * |ks|
  {
    seq(2 * |ks|, i requires 0 <= i < 2 * |ks| => if i % 2 == 0 then Tree.Key(ks[i / 2]) else us[i / 2])
  }

  lemma InterleavedPair(ks: seq<seq<byte>>, us: seq<Tree>, i: nat)
    requires |ks| == |us| && i < |ks|
    ensures Interleaved(ks, us)[2 * i] == Tree.Key(ks[i]) && Interleaved(ks, us)[2 * i + 1] == us[i]
  {
  }

  lemma InterleavedGrows(ks: seq<seq<byte>>, us: seq<Tree>, k: seq<byte>, u: Tree)
    requires |ks| == |us|
    ensures Interleaved(ks + [k], us + [u]) == Interleaved(ks, us) + [Tree.Key(k), u]
  {
  }

  method BuildEntries(b: Builder, t: Tree) returns (r: Result<()>, ghost us: seq<Tree>)
    requires b.Valid() && !b.reused && t.Map? && Buildable(t)
    modifies b
    ensures r.Success? ==>
      && b.Valid() && !b.reused && |us| == |t.vals| && b.trees == old(b.trees) + Interleaved(t.keys, us)
      && forall i :: 0 <= i < |us| ==> Same(t.vals[i], us[i])
    ensures r.Success? ==> |b.buf| <= |old(b.buf)| + KeysSize(t.keys) + TotalSize(t.vals)
    ensures r.OutOfMemory? ==> |old(b.buf)| + KeysSize(t.keys) + TotalSize(t.vals) > MAX_SIZE
    decreases t, 0
  {
    hide Same, Size, TotalSize, KeysSize, StackReads, KeyPoolOk, StringPoolOk, TotalCost, KeyAt;
    NoSize();
    us := [];
    for i := 0 to |t.keys|
      invariant |b.buf| <= |old(b.buf)| + KeysSize(t.keys[..i]) + TotalSize(t.vals[..i])
      invariant b.Valid() && !b.reused && |us| == i && b.trees == old(b.trees) + Interleaved(t.keys[..i], us)
      invariant forall k :: 0 <= k < i ==> Same(t.vals[k], us[k])
    {
      NextKeySize(t.keys, i);
      NextSize(t.vals, i);
      var key := b.Key(t.keys[i]);
      if key.OutOfMemory? {
        return OutOfMemory, us;
      }
      assert CString(t.keys[i]) == t.keys[i];
      var each, u := Build(b, t.vals[i]);
      if each.OutOfMemory? {
        return each, us;
      }
      InterleavedGrows(t.keys[..i], us, t.keys[i], u);
      assert t.keys[..i + 1] == t.keys[..i] + [t.keys[i]];
      us := us + [u];
    }
    assert t.keys[..|t.keys|] == t.keys && t.vals[..|t.vals|] == t.vals;
    return Success(()), us;
  }

  /** The entries are these keys and values in turn. */
  predicate Pairs(entries: seq<Tree>, ks: seq<seq<byte>>, us: seq<Tree>) {
    && |entries| == 2 * |ks| && |ks| == |us|
    && (forall i :: 0 <= i < |ks| ==> entries[2 * i] == Tree.Key(ks[i]))
    && forall i :: 0 <= i < |ks| ==> entries[2 * i + 1] == us[i]
  }

  lemma InterleavedPairs(ks: seq<seq<byte>>, us: seq<Tree>)
    requires |ks| == |us|
    ensures Pairs(Interleaved(ks, us), ks, us)
  {
    forall i | 0 <= i < |ks|
      ensures Interleaved(ks, us)[2 * i] == Tree.Key(ks[i]) && Interleaved(ks, us)[2 * i + 1] == us[i]
    {
      InterleavedPair(ks, us, i);
    }
  }

  lemma PairsLength(entries: seq<Tree>, ks: seq<seq<byte>>, us: seq<Tree>)
    requires Pairs(entries, ks, us)
    ensures |entries| == 2 * |ks|
  {
  }

  lemma PairsHaveKeys(entries: seq<Tree>, ks: seq<seq<byte>>, us: seq<Tree>)
    requires Pairs(entries, ks, us)
    ensures EntriesAreKeys(entries) && EntryKeys(entries) == ks
  {
  }

  lemma StackHasKeys(buf: seq<byte>, stack: seq<Value>, trees: seq<Tree>, start: nat, ks: seq<seq<byte>>, us: seq<Tree>)
    requires StackReads(buf, stack, trees) && start <= |trees| && Pairs(trees[start..], ks, us)
    ensures (|stack| - start) % 2 == 0
    ensures forall i :: 0 <= i < (|stack| - start) / 2 ==> stack[start + 2 * i].type_ == FBT_KEY
  {
    assert |stack| - start == 2 * |ks|;
    forall i | 0 <= i < |ks| ensures stack[start + 2 * i].type_ == FBT_KEY {
      assert trees[start + 2 * i] == trees[start..][2 * i];
      TypeFollows(buf, stack[start + 2 * i], trees[start + 2 * i], FBT_KEY);
    }
  }

  lemma EntryFound(u: Tree, entries: seq<Tree>, ks: seq<seq<byte>>, us: seq<Tree>, i: nat) returns (j: nat)
    requires Pairs(entries, ks, us) && EntriesAreKeys(entries) && IsMapOf(u, entries) && Distinct(ks) && i < |ks|
    ensures |u.keys| == |u.vals| == |ks| && StrictlySorted(u.keys)
    ensures j < |ks| && u.keys[j] == ks[i] && u.vals[j] == us[i]
  {
    PairsHaveKeys(entries, ks, us);
    j := MapOfDistinctKeys(u, entries, i);
  }

  lemma EntryCameFrom(u: Tree, entries: seq<Tree>, ks: seq<seq<byte>>, us: seq<Tree>, j: nat) returns (i: nat)
    requires Pairs(entries, ks, us) && EntriesAreKeys(entries) && IsMapOf(u, entries) && j < |ks|
    ensures |u.keys| == |u.vals| == |ks| && i < |ks| && u.keys[j] == ks[i] && u.vals[j] == us[i]
  {
    PairsHaveKeys(entries, ks, us);
    var perm :| IsSortedMap(u, entries, perm);
    ArrangementHits(perm, |ks|);
    i := perm[j];
    assert Odd(entries)[i] == entries[2 * i + 1];
  }

  lemma EmptyMap(u: Tree, entries: seq<Tree>)
    requires entries == [] && IsMapOf(u, entries)
    ensures u == Tree.Map([], [])
  {
    var perm :| IsSortedMap(u, entries, perm);
    ArrangementHits(perm, 0);
  }

  lemma MapsSame(t: Tree, u: Tree)
    requires t.Map? && u.Map? && |t.keys| == |t.vals| == |u.keys| == |u.vals| && StrictlySorted(u.keys)
    requires forall i :: 0 <= i < |t.keys| ==> IsPaired(t.keys[i], t.vals[i], u.keys, u.vals)
    requires forall j :: 0 <= j < |t.keys| ==> ComesFrom(t.keys, t.vals, u.keys[j], u.vals[j])
    ensures u in Rebuilt(t)
  {
    hide IsPaired, ComesFrom;
    assert Same(t, u);
  }

  lemma MapIsSame(t: Tree, u: Tree, entries: seq<Tree>, us: seq<Tree>)
    requires t.Map? && |t.keys| == |t.vals| == |us| && Distinct(t.keys)
    requires forall i :: 0 <= i < |us| ==> Same(t.vals[i], us[i])
    requires Pairs(entries, t.keys, us) && EntriesAreKeys(entries) && IsMapOf(u, entries)
    ensures u in Rebuilt(t)
  {
    if |us| == 0 {
      EmptyMap(u, entries);
    } else {
      var _ := EntryFound(u, entries, t.keys, us, 0);
    }
    forall i | 0 <= i < |t.keys| ensures IsPaired(t.keys[i], t.vals[i], u.keys, u.vals) {
      var j := EntryFound(u, entries, t.keys, us, i);
      assert u.keys[j] == t.keys[i] && Same(t.vals[i], u.vals[j]);
    }
    forall j | 0 <= j < |t.keys| ensures ComesFrom(t.keys, t.vals, u.keys[j], u.vals[j]) {
      var i := EntryCameFrom(u, entries, t.keys, us, j);
      assert u.keys[j] == t.keys[i] && Same(t.vals[i], u.vals[j]);
    }
    MapsSame(t, u);
  }

  method BuildMap(b: Builder, t: Tree) returns (r: Result<()>, ghost u: Tree)
    requires b.Valid() && !b.reused && t.Map? && Buildable(t)
    modifies b
    ensures r.Success? ==> b.Valid() && !b.reused && b.trees == old(b.trees) + [u] && u in Rebuilt(t)
    ensures r.Success? ==> |b.buf| <= |old(b.buf)| + Size(t)
    ensures r.OutOfMemory? ==> |old(b.buf)| + Size(t) > MAX_SIZE
    decreases t, 1
  {
    var start := |b.stack|;
    var entries, us := BuildEntries(b, t);
    u := t;
    if entries.OutOfMemory? {
      return entries, u;
    }
    assert b.trees[start..] == Interleaved(t.keys, us) && b.trees[..start] == old(b.trees);
    InterleavedPairs(t.keys, us);
    r, u := EndEntries(b, start, t, us);
  }

  method EndEntries(b: Builder, start: nat, t: Tree, ghost us: seq<Tree>) returns (r: Result<()>, ghost u: Tree)
    requires b.Valid() && !b.reused && t.Map? && |t.keys| == |t.vals| == |us| && Distinct(t.keys)
    requires forall i :: 0 <= i < |us| ==> Same(t.vals[i], us[i])
    requires start <= |b.trees| && Pairs(b.trees[start..], t.keys, us)
    modifies b
    ensures r.Success? ==> b.Valid() && !b.reused && b.trees == old(b.trees)[..start] + [u] && u in Rebuilt(t)
    ensures r.Success? ==> |b.buf| <= |old(b.buf)| + 18 * |t.keys| + 78
    ensures r.OutOfMemory? ==> |old(b.buf)| + 18 * |t.keys| + 78 > MAX_SIZE
  {
    hide IsMapOf, Pairs, Same, Distinct, IsSortedMapLaidOut;
    PairsLength(b.trees[start..], t.keys, us);
    ghost var entries := b.trees[start..];
    StackHasKeys(b.buf, b.stack, b.trees, start, t.keys, us);
    var end := b.EndMap(start);
    r, u := OutOfMemory, t;
    if end.Success? {
      r, u := Success(()), b.trees[start];
      MapIsSame(t, u, entries, us);
    }
  }

  /** A finished buffer that reads as t. */
  ghost predicate Represents(buf: seq<byte>, t: Tree) {
    exists u :: Same(t, u) && Encodes(buf, u)
  }

  lemma Represented(buf: seq<byte>, t: Tree, u: Tree)
    requires Same(t, u) && Encodes(buf, u)
    ensures Represents(buf, t) && Depth(u) == Depth(t)
  {
    SameDepth(t, u);
  }

  /** The strings of a typed vector are read from its bytes as keys, each with all its bytes exactly if none
      is zero. */
  lemma TypedStringsKept(buf: seq<byte>, ss: seq<seq<byte>>) returns (u: Tree)
    requires Represents(buf, Tree.TypedVector(FBT_STRING, Strings(ss)))
    ensures Encodes(buf, u) && forall v :: RefReads(buf, GetRoot(buf), v) <==> v == u
    ensures u.TypedVector? && |u.elems| == |ss|
    ensures forall k :: 0 <= k < |ss| ==> u.elems[k].Key? && (u.elems[k].key == ss[k] <==> 0 !in ss[k])
  {
    hide Same, Encodes, RefReads, GetRoot;
    u :| Same(Tree.TypedVector(FBT_STRING, Strings(ss)), u) && Encodes(buf, u);
    RootReadsAs(buf, u);
    TypedStrings(ss, u);
  }

  /** A string with a zero byte is read from the bytes without what follows it. */
  lemma TypedStringCut(buf: seq<byte>)
    requires Represents(buf, Tree.TypedVector(FBT_STRING, Strings([[0x61, 0x00, 0x62]])))
    ensures Encodes(buf, Tree.TypedVector(FBT_STRING, [Tree.Key([0x61])]))
    ensures forall v :: RefReads(buf, GetRoot(buf), v) <==> v == Tree.TypedVector(FBT_STRING, [Tree.Key([0x61])])
  {
    hide Same, Encodes, RefReads, GetRoot;
    var s := [0x61, 0x00, 0x62];
    var u :| Same(Tree.TypedVector(FBT_STRING, Strings([s])), u) && Encodes(buf, u);
    RootReadsAs(buf, u);
    TypedStrings([s], u);
    CStringUnique(s, [0x61]);
    assert u.elems == [Tree.Key([0x61])];
  }

  /** Build and finish any tree, whatever is pooled and whatever width is forced: the bytes read
      back as that tree, and verify exactly if it is not nested too deep.  That is out of memory only for a
      tree that does not fit. */
  method Serialize(t: Tree, shareKeys: bool, shareStrings: bool, force: BitWidth) returns (r: Result<seq<byte>>)
    requires Buildable(t)
    ensures r.Success? ==> Represents(r.value, t) && |r.value| <= Size(t) + 18
    ensures r.Success? && |r.value| < 0x7FFF_FFFF ==>
      forall c: Config :: c.buf == r.value ==> (VerifyBuffer(c).ok <==> Depth(t) <= c.maxDepth)
    ensures r.OutOfMemory? ==> Size(t) + 18 > MAX_SIZE
  {
    hide KeyPoolOk, StringPoolOk, TotalCost, VerifyBuffer, Encodes;
    var b := new Builder(shareKeys, shareStrings);
    b.ForceMinimumBitWidth(force);
    var built;
    ghost var u;
    built, u := Build(b, t);
    if built.OutOfMemory? {
      return OutOfMemory;
    }
    var finish := b.Finish();
    if finish.OutOfMemory? {
      return OutOfMemory;
    }
    Represented(b.buf, t, u);
    forall c: Config | c.buf == b.buf && |b.buf| < 0x7FFF_FFFF ensures VerifyBuffer(c).ok <==> Depth(t) <= c.maxDepth {
      VerifiedExactly(c, u);
    }
    return Success(b.buf);
  }

  /** The root of a finished buffer is the map at loc. */
  predicate RootIsMap(buf: seq<byte>, loc: nat, w: Width) {
    && 3 <= |buf| && IsWidth(buf[|buf| - 1]) && buf[|buf| - 1] + 2 <= |buf|
    && GetRoot(buf).type_ == FBT_MAP && GetRoot(buf).byteWidth == w && Indirect(buf, GetRoot(buf)) == loc
  }

  /** Looking up "a" does not give 1, or does not give 2. */
  ghost predicate LosesOne(buf: seq<byte>, loc: nat, w: Width)
    requires Navigable(buf, loc, w)
  {
    var r := Lookup(buf, loc, w, [0x61, 0x00]);
    !(RefReads(buf, r, Tree.Int(1)) && RefReads(buf, r, Tree.Int(2)))
  }

  method PushSame(b: Builder, i: int)
    requires b.Valid() && IsInt64(i) && |b.buf| < 100
    modifies b
    ensures b.Valid() && b.trees == old(b.trees) + [Tree.Key([0x61]), Tree.Int(i)] && |b.buf| <= |old(b.buf)| + 2
    ensures b.hasDuplicateKeys == old(b.hasDuplicateKeys)
  {
    hide StackReads, KeyPoolOk, StringPoolOk, TotalCost;
    var key := b.Key([0x61]);
    assert key.Success?;
    assert CString([0x61]) == [0x61];
    b.Int(i);
  }

  /** A map of two values under one key, built and finished: the builder remembers that keys are equal,
      and one of the two values is not found. */
  method OneKeyTwice(shareKeys: bool, shareStrings: bool)
    returns (buf: seq<byte>, duplicates: bool, ghost loc: nat, ghost w: Width)
    ensures duplicates && RootIsMap(buf, loc, w) && Navigable(buf, loc, w) && LosesOne(buf, loc, w)
  {
    hide RootIsMap, LosesOne, ValueReads, KeyPoolOk, StringPoolOk, ObjectAt, Navigable, Lookup, IsMapOf, TotalCost,
      Encodes;
    var b := new Builder(shareKeys, shareStrings);
    PushSame(b, 1);
    PushSame(b, 2);
    ghost var ks: seq<seq<byte>>, us := [[0x61], [0x61]], [Tree.Int(1), Tree.Int(2)];
    ghost var entries := b.trees;
    assert entries[0..] == entries == [Tree.Key(ks[0]), us[0], Tree.Key(ks[1]), us[1]];
    StackHasKeys(b.buf, b.stack, b.trees, 0, ks, us);
    assert EntryKeys(entries)[0] == EntryKeys(entries)[1];
    var end := b.EndMap(0);
    assert end.Success?;
    var finish := b.Finish();
    assert finish.Success?;
    buf, duplicates := b.buf, b.hasDuplicateKeys;
    loc, w := OneKeyLost(buf, b.trees[0], entries);
  }

  lemma OneKeyLost(buf: seq<byte>, t: Tree, entries: seq<Tree>) returns (loc: nat, w: Width)
    requires Encodes(buf, t) && entries == [Tree.Key([0x61]), Tree.Int(1), Tree.Key([0x61]), Tree.Int(2)]
    requires EntriesAreKeys(entries) && IsMapOf(t, entries)
    ensures RootIsMap(buf, loc, w) && Navigable(buf, loc, w) && LosesOne(buf, loc, w)
  {
    hide ObjectAt, Navigable, Lookup, IsMapOf, Meanings;
    var root := GetRoot(buf);
    RootReadsAs(buf, t);
    MapIsMap(t, entries);
    assert RefReads(buf, root, t);
    loc, w := Indirect(buf, root), root.byteWidth;
    TypeTellsShape(buf, loc, w, root.type_, t);
    EveryEntryFound(buf, loc, w, t, entries);
    assert entries[2 * 0].key == entries[2 * 1].key && entries[2 * 0 + 1] != entries[2 * 1 + 1];
    assert [0x61] + [0x00] == [0x61, 0x00];
    assert !ValuesAgree(entries);
    assert !(IsFound(buf, loc, w, entries, 0) && IsFound(buf, loc, w, entries, 1));
  }

  lemma MapIsMap(t: Tree, entries: seq<Tree>)
    requires EntriesAreKeys(entries) && IsMapOf(t, entries)
    ensures t.Map?
  {
  }
}
