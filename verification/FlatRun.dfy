/** Whole runs of a FlatBuffer builder: the same calls carried out by builders that share vtables or not, and
    what is read and verified of what they finish. */
module FlatRun {
  import opened Bytes
  import opened Widths
  import opened Backward
  import opened VectorDownward
  import opened FlatFormat
  import opened FlatObjects
  import opened FlatBuilder
  import opened FlatTables
  import opened FlatSharing
  import opened FlatVerifier
  import opened FlatAccepts
  import opened FlatOrder
  import opened FlatScript
  import FlatLimits
  import FlatSorted
  import FlatState
  import FlatVerdict

  // ----- Sizes -----

  /** What a field takes at most: with its padding, a byte less than twice its width. */
  function ArgSize(arg: Arg): nat {
    if arg.Value? then 2 * arg.width - 1 else 7
  }

  function ArgsSize(args: seq<Arg>): nat {
    if args == [] then 0 else ArgsSize(args[..|args| - 1]) + ArgSize(args[|args| - 1])
  }

  /** What a call adds at most. */
  function CallSize(call: Call): nat {
    match call
    case NewString(s) => |s| + 8
    case NewSharedString(s) => |s| + 8
    case NewStrings(ss) => StringsSize(ss, |ss|) + 4 * |ss| + 17
    case NewScalars(w, vs) => Times(|vs|, w) + 17
    case NewForcedScalars(w, vs, _) => Times(|vs|, w) + 48
    case NewOffsets(calls) => 4 * |calls| + 17
    case NewSorted(_, calls) => 4 * |calls| + 17
    case NewTable(args) => ArgsSize(args) + 0x1_0016
  }

  function ScriptSize(calls: seq<Call>): nat {
    if calls == [] then 0 else ScriptSize(calls[..|calls| - 1]) + CallSize(calls[|calls| - 1])
  }

  /** No table that could take 64 KB, however its fields are padded. */
  predicate SmallTables(calls: seq<Call>) {
    forall i :: 0 <= i < |calls| ==> IsSmall(calls[i])
  }

  predicate IsSmall(call: Call) {
    call.NewTable? ==> ArgsSize(call.args) + 7 < 0x1_0000
  }

  /** What the builder asserts of its caller: a table, as it will be laid out, takes less than 64 KB, and there
      is room. */
  predicate Fits(n: nat, call: Call, before: seq<Call>, offs: seq<nat>, forceDefaults: bool)
    requires IsCall(call, before) && |offs| == |before|
  {
    if call.NewTable? then
      var ms := Members(call.args, offs);
      var size := SizeAfter(n, ms, |ms|, forceDefaults);
      size + Padding(size, 4) + 4 - n < 0x1_0000 && size + 0x1_0007 + 15 < MAX_BUFFER_SIZE
    else n + CallSize(call) < MAX_BUFFER_SIZE
  }

  lemma {:induction false} TableSize(n: nat, args: seq<Arg>, offs: seq<nat>, k: nat, forceDefaults: bool)
    requires k <= |args| && forall j :: 0 <= j < |args| ==> IsArg(args[j], |offs|)
    ensures SizeAfter(n, Members(args, offs), k, forceDefaults) <= n + ArgsSize(args[..k])
    decreases k
  {
    hide IsArg;
    if k > 0 {
      TableSize(n, args, offs, k - 1, forceDefaults);
      assert args[..k][..k - 1] == args[..k - 1];
      assert Members(args, offs)[k - 1] == MemberOf(args[k - 1], offs);
    }
  }

  lemma SmallFits(n: nat, call: Call, before: seq<Call>, offs: seq<nat>, forceDefaults: bool)
    requires IsCall(call, before) && |offs| == |before|
    requires IsSmall(call) && n + CallSize(call) < MAX_BUFFER_SIZE
    ensures Fits(n, call, before, offs, forceDefaults)
  {
    hide SizeAfter, ArgsSize;
    if call.NewTable? {
      TableSize(n, call.args, offs, |call.args|, forceDefaults);
      assert call.args[..|call.args|] == call.args;
    }
  }

  lemma NextCall(calls: seq<Call>, i: nat)
    requires IsScript(calls) && i < |calls|
    ensures IsScript(calls[..i]) && IsCall(calls[i], calls[..i]) && calls[..i] + [calls[i]] == calls[..i + 1]
    ensures ScriptSize(calls[..i]) + CallSize(calls[i]) == ScriptSize(calls[..i + 1]) <= ScriptSize(calls)
  {
    hide IsCall, ScriptSize, CallSize;
    NextSize(calls, i);
    FirstCalls(calls, i);
  }

  lemma FirstCalls(calls: seq<Call>, i: nat)
    requires IsScript(calls) && i <= |calls|
    ensures IsScript(calls[..i])
  {
    hide IsCall;
    forall j | 0 <= j < i ensures IsCall(calls[..i][j], calls[..i][..j]) {
      assert IsCall(calls[j], calls[..j]);
      assert calls[..i][..j] == calls[..j];
    }
  }

  lemma {:induction false} NextSize(calls: seq<Call>, i: nat)
    requires i < |calls|
    ensures ScriptSize(calls[..i + 1]) == ScriptSize(calls[..i]) + CallSize(calls[i]) <= ScriptSize(calls)
    decreases |calls| - i
  {
    assert calls[..i + 1][..i] == calls[..i];
    if i + 1 < |calls| {
      NextSize(calls, i + 1);
    } else {
      assert calls[..i + 1] == calls;
    }
  }

  // ----- Carrying them out -----

  /** The offsets are of things built. */
  predicate Placed(objects: map<nat, Obj>, offs: seq<nat>, size: nat) {
    forall i :: 0 <= i < |offs| ==> offs[i] in objects && 0 < offs[i] <= size
  }

  method MakeTable(b: FlatBufferBuilder, args: seq<Arg>, before: seq<Call>, offs: seq<nat>) returns (o: nat)
    requires b.Valid() && !b.nested && !b.inTable && b.pending == [] && Placed(b.objects, offs, |b.back|)
    requires IsCall(NewTable(args), before) && |offs| == |before|
    requires Fits(|b.back|, NewTable(args), before, offs, b.forceDefaults)
    modifies b
    ensures b.Valid() && !b.nested && !b.inTable && b.pending == [] && old(b.back) <= b.back
    ensures |b.back| <= |old(b.back)| + ArgsSize(args) + 0x1_0016 && |old(b.back)| < o <= |b.back|
    ensures b.forceDefaults == old(b.forceDefaults)
    ensures Extends(old(b.objects), b.objects)
    ensures Makes(b.objects, o, NewTable(args), before, offs, b.forceDefaults)
  {
    hide FlatState.Sound, FlatState.BuiltLast, Stored, SizeAfter;
    var ms := Members(args, offs);
    TableSize(|b.back|, args, offs, |args|, b.forceDefaults);
    assert args[..|args|] == args;
    AreMembers(args, before, offs, |b.back|);
    o := CreateTable(b, ms);
  }

  lemma AreMembers(args: seq<Arg>, before: seq<Call>, offs: seq<nat>, size: nat)
    requires IsCall(NewTable(args), before) && |offs| == |before| && forall i :: 0 <= i < |offs| ==> offs[i] <= size
    ensures IsTable(Members(args, offs), size)
  {
    var ms := Members(args, offs);
    forall k | 0 <= k < |ms| ensures IsMember(ms[k], size) {
      assert IsArg(args[k], |offs|);
    }
  }

  ghost function KeyAt(objects: map<nat, Obj>, kf: FlatSorted.KeyField, o: nat): (k: FlatSorted.Key)
    requires exists k :: FlatSorted.HasKey(objects, kf, o, k)
    ensures FlatSorted.HasKey(objects, kf, o, k)
  {
    var k :| FlatSorted.HasKey(objects, kf, o, k);
    k
  }

  method MakeSorted(b: FlatBufferBuilder, kf: FlatSorted.KeyField, calls: seq<nat>, before: seq<Call>, offs: seq<nat>)
    returns (o: nat)
    requires b.Valid() && !b.nested && !b.inTable && b.pending == []
    requires IsScript(before) && IsCall(NewSorted(kf, calls), before)
    requires Described(b.objects, offs, before, b.forceDefaults)
    requires |b.back| + 4 * |calls| + 17 < MAX_BUFFER_SIZE
    modifies b`back, b`minalign, b`nested, b`objects
    ensures b.Valid() && !b.nested && old(b.back) <= b.back && |b.back| <= |old(b.back)| + 4 * |calls| + 17
    ensures |old(b.back)| < o <= |b.back| && o !in old(b.objects)
    ensures Extends(old(b.objects), b.objects)
    ensures Makes(b.objects, o, NewSorted(kf, calls), before, offs, b.forceDefaults)
  {
    hide FlatState.Sound, Described, FlatSorted.HasKey, FlatSorted.Ordered, FlatSorted.SameOrder, GivesKey, IsScript;
    ghost var objects := b.objects;
    DescribedLength(b.objects, offs, before, b.forceDefaults);
    var v := Targets(calls, offs);
    forall k | 0 <= k < |v| ensures exists key :: FlatSorted.HasKey(objects, kf, v[k], key) {
      MadeHasKey(objects, offs, before, calls[k], kf, b.forceDefaults);
      assert v[k] == offs[calls[k]];
    }
    ghost var keys := seq(|v|, k requires 0 <= k < |v| => KeyAt(objects, kf, v[k]));
    ghost var ts, ks;
    o, ts, ks := FlatSorted.CreateVectorOfSortedTables(b, v, kf, keys);
    SortMade(objects, b.objects, kf, v, keys, ts, ks, b.Snap(), o);
  }

  lemma SortMade(objects: map<nat, Obj>, b: map<nat, Obj>, kf: FlatSorted.KeyField, v: seq<nat>,
                 keys: seq<FlatSorted.Key>, ts: seq<nat>, ks: seq<FlatSorted.Key>, x: FlatState.Snapshot, o: nat)
    requires |keys| == |v| && forall k :: 0 <= k < |v| ==> FlatSorted.HasKey(objects, kf, v[k], keys[k])
    requires |ks| == |ts| && FlatSorted.Ordered(ks) && FlatSorted.SameOrder(ts, ks, v, keys)
    requires forall k :: 0 <= k < |ts| ==> FlatSorted.HasKey(b, kf, ts[k], ks[k])
    requires Extends(objects, b) && FlatState.Sound(x) && x.state.objects == b && o in b && b[o] == Offsets(ts)
    ensures IsSortOf(b, kf, v, ts) && forall k :: 0 <= k < |ts| ==> ts[k] < o
  {
    hide FlatSorted.HasKey, FlatState.Sound, AllAt;
    forall k | 0 <= k < |v| ensures FlatSorted.HasKey(b, kf, v[k], keys[k]) {
      KeyStays(objects, b, kf, v[k], keys[k]);
    }
    assert IsSortBy(b, kf, v, keys, ts, ks);
    FlatSorted.ObjectsAt(x);
    FlatVerdict.ElementsBelow(x.state.back, b, o);
  }

  lemma KeyStays(a: map<nat, Obj>, b: map<nat, Obj>, kf: FlatSorted.KeyField, o: nat, k: FlatSorted.Key)
    requires Extends(a, b) && FlatSorted.HasKey(a, kf, o, k)
    ensures FlatSorted.HasKey(b, kf, o, k)
  {
  }

  method MakeString(b: FlatBufferBuilder, s: seq<byte>, shared: bool, ghost before: seq<Call>, ghost offs: seq<nat>)
    returns (o: nat)
    requires |offs| == |before|
    requires b.Valid() && !b.nested && !b.inTable && |b.back| + |s| + 8 < MAX_BUFFER_SIZE
    modifies b`back, b`minalign, b`objects, b`stringPool, b`poolTexts
    ensures b.Valid() && old(b.back) <= b.back && |b.back| <= |old(b.back)| + |s| + 8 && 0 < o <= |b.back|
    ensures Extends(old(b.objects), b.objects)
    ensures Makes(b.objects, o, if shared then NewSharedString(s) else NewString(s), before, offs, b.forceDefaults)
  {
    hide FlatState.Sound;
    if shared {
      o := b.CreateSharedString(s);
      PlacedAtMost(b.Snap(), o);
    } else {
      o := b.CreateString(s);
    }
  }

  function ScalarsCall(w: Width, vs: seq<nat>, forced: Option<Alignment>): Call {
    if forced.Some? then NewForcedScalars(w, vs, forced.value) else NewScalars(w, vs)
  }

  method MakeScalars(b: FlatBufferBuilder, w: Width, vs: seq<nat>, forced: Option<Alignment>,
                     ghost before: seq<Call>, ghost offs: seq<nat>)
    returns (o: nat)
    requires |offs| == |before|
    requires b.Valid() && !b.nested && !b.inTable && forall k :: 0 <= k < |vs| ==> vs[k] < Capacity(w)
    requires |b.back| + Times(|vs|, w) + (if forced.Some? then 48 else 17) < MAX_BUFFER_SIZE
    modifies b`back, b`minalign, b`nested, b`objects
    ensures b.Valid() && !b.nested && old(b.back) <= b.back
    ensures |b.back| <= |old(b.back)| + Times(|vs|, w) + (if forced.Some? then 48 else 17) && 0 < o <= |b.back|
    ensures Extends(old(b.objects), b.objects)
    ensures Makes(b.objects, o, ScalarsCall(w, vs, forced), before, offs, b.forceDefaults)
  {
    hide FlatState.Sound;
    if forced.Some? {
      o := b.CreateForcedScalars(vs, w, forced.value);
    } else {
      o := b.CreateScalars(vs, w);
    }
  }

  method MakeOffsets(b: FlatBufferBuilder, calls: seq<nat>, before: seq<Call>, offs: seq<nat>) returns (o: nat)
    requires b.Valid() && !b.nested && !b.inTable && Placed(b.objects, offs, |b.back|)
    requires IsCall(NewOffsets(calls), before) && |offs| == |before|
    requires |b.back| + 4 * |calls| + 17 < MAX_BUFFER_SIZE
    modifies b`back, b`minalign, b`nested, b`objects
    ensures b.Valid() && !b.nested && old(b.back) <= b.back && |b.back| <= |old(b.back)| + 4 * |calls| + 17
    ensures |old(b.back)| < o <= |b.back| && Extends(old(b.objects), b.objects)
    ensures Makes(b.objects, o, NewOffsets(calls), before, offs, b.forceDefaults)
  {
    hide FlatState.Sound;
    o := b.CreateOffsets(Targets(calls, offs));
  }

  method MakeStrings(b: FlatBufferBuilder, ss: seq<seq<byte>>, ghost before: seq<Call>, ghost offs: seq<nat>)
    returns (o: nat)
    requires |offs| == |before|
    requires b.Valid() && !b.nested && !b.inTable && b.pending == []
    requires |b.back| + StringsSize(ss, |ss|) + 4 * |ss| + 17 < MAX_BUFFER_SIZE
    modifies b`back, b`scratch, b`minalign, b`nested, b`objects, b`pending
    ensures b.Valid() && !b.nested && b.pending == [] && old(b.back) <= b.back
    ensures |b.back| <= |old(b.back)| + StringsSize(ss, |ss|) + 4 * |ss| + 17 && |old(b.back)| < o <= |b.back|
    ensures Extends(old(b.objects), b.objects) && Makes(b.objects, o, NewStrings(ss), before, offs, b.forceDefaults)
  {
    hide FlatState.Sound;
    ghost var os;
    o, os := b.CreateVectorOfStrings(ss);
    FlatSorted.ObjectsAt(b.Snap());
    FlatVerdict.ElementsBelow(b.back, b.objects, o);
  }

  /** One call; only a shared string may be something that was there. */
  method Make(b: FlatBufferBuilder, call: Call, before: seq<Call>, offs: seq<nat>) returns (o: nat)
    requires b.Valid() && !b.nested && !b.inTable && b.pending == [] && Placed(b.objects, offs, |b.back|)
    requires IsScript(before) && IsCall(call, before) && Described(b.objects, offs, before, b.forceDefaults)
      && |offs| == |before|
    requires Fits(|b.back|, call, before, offs, b.forceDefaults)
    modifies b
    ensures b.Valid() && !b.nested && !b.inTable && b.pending == [] && old(b.back) <= b.back
    ensures |b.back| <= |old(b.back)| + CallSize(call) && b.forceDefaults == old(b.forceDefaults) && 0 < o <= |b.back|
    ensures Extends(old(b.objects), b.objects) && Makes(b.objects, o, call, before, offs, b.forceDefaults)
    ensures call.NewOffsets? || call.NewTable? ==> |old(b.back)| < o
  {
    hide FlatState.Sound, Makes, Placed, Described, IsScript, SizeAfter, GivesKey;
    match call {
      case NewString(s) =>
        o := MakeString(b, s, false, before, offs);
      case NewSharedString(s) =>
        o := MakeString(b, s, true, before, offs);
      case NewStrings(ss) =>
        o := MakeStrings(b, ss, before, offs);
      case NewScalars(w, vs) =>
        o := MakeScalars(b, w, vs, None, before, offs);
      case NewForcedScalars(w, vs, alignment) =>
        o := MakeScalars(b, w, vs, Some(alignment), before, offs);
      case NewOffsets(calls) =>
        o := MakeOffsets(b, calls, before, offs);
      case NewSorted(kf, calls) =>
        o := MakeSorted(b, kf, calls, before, offs);
      case NewTable(args) =>
        o := MakeTable(b, args, before, offs);
    }
  }

  lemma PlacedAtMost(x: FlatState.Snapshot, o: nat)
    requires FlatState.Sound(x) && o in x.state.objects
    ensures 0 < o <= |x.state.back|
  {
    assert ObjAt(x.state.back, o, x.state.objects[o]);
  }

  /** The calls of a script in turn, as long as the builder's assertions hold: all of them, if the script has
      small tables and there is room. */
  method Run(b: FlatBufferBuilder, calls: seq<Call>) returns (done: bool, offs: seq<nat>)
    requires b.Valid() && !b.nested && !b.inTable && b.pending == [] && IsScript(calls)
    modifies b
    ensures b.Valid() && !b.nested && !b.inTable && b.pending == [] && b.forceDefaults == old(b.forceDefaults)
    ensures |b.back| <= |old(b.back)| + ScriptSize(calls)
    ensures done ==> Described(b.objects, offs, calls, b.forceDefaults)
    ensures SmallTables(calls) && |old(b.back)| + ScriptSize(calls) < MAX_BUFFER_SIZE ==> done
  {
    hide FlatState.Sound, Makes, IsCall, CallSize, IsScript, IsSmall, ScriptSize, Described, Placed, Fits;
    offs := [];
    NoCalls(b.objects, calls, |b.back|, b.forceDefaults);
    for i := 0 to |calls|
      invariant b.Valid() && !b.nested && !b.inTable && b.pending == [] && b.forceDefaults == old(b.forceDefaults)
      invariant |b.back| <= |old(b.back)| + ScriptSize(calls[..i]) && |offs| == i && Placed(b.objects, offs, |b.back|)
      invariant IsScript(calls[..i]) && Described(b.objects, offs, calls[..i], b.forceDefaults)
    {
      NextCall(calls, i);
      if !Fits(|b.back|, calls[i], calls[..i], offs, b.forceDefaults) {
        if IsSmall(calls[i]) && |b.back| + CallSize(calls[i]) < MAX_BUFFER_SIZE {
          SmallFits(|b.back|, calls[i], calls[..i], offs, b.forceDefaults);
        }
        return false, offs;
      }
      ghost var objects, size := b.objects, |b.back|;
      var o := Make(b, calls[i], calls[..i], offs);
      Described1(objects, b.objects, offs, calls[..i], calls[i], o, size, |b.back|, b.forceDefaults);
      offs := offs + [o];
    }
    assert calls[..|calls|] == calls;
    done := true;
  }

  lemma NoCalls(objects: map<nat, Obj>, calls: seq<Call>, size: nat, forceDefaults: bool)
    ensures ScriptSize(calls[..0]) == 0 && IsScript(calls[..0]) && Placed(objects, [], size)
    ensures Described(objects, [], calls[..0], forceDefaults)
  {
  }

  /** One more call carried out. */
  lemma Described1(a: map<nat, Obj>, b: map<nat, Obj>, offs: seq<nat>, calls: seq<Call>, call: Call, o: nat, size: nat,
                   after: nat, forceDefaults: bool)
    requires IsScript(calls) && IsCall(call, calls) && Described(a, offs, calls, forceDefaults)
      && Placed(a, offs, size)
    requires Extends(a, b) && |offs| == |calls| && Makes(b, o, call, calls, offs, forceDefaults)
    requires 0 < o <= after && size <= after
    requires call.NewOffsets? || call.NewTable? ==> size < o
    ensures IsScript(calls + [call]) && Described(b, offs + [o], calls + [call], forceDefaults)
    ensures Placed(b, offs + [o], after)
  {
    hide Makes, IsCall;
    var more, all := offs + [o], calls + [call];
    forall i | 0 <= i < |all| ensures IsCall(all[i], all[..i]) {
      assert all[..i] == if i < |calls| then calls[..i] else calls;
    }
    forall i | 0 <= i < |all| ensures IsMade(b, more, all, i, forceDefaults) {
      if i < |calls| {
        assert IsMade(a, offs, calls, i, forceDefaults);
        assert more[..i] == offs[..i] && all[..i] == calls[..i];
        MadeStays(a, b, offs[i], calls[i], calls[..i], offs[..i], forceDefaults);
      } else {
        assert more[..i] == offs && all[..i] == calls;
      }
    }
    MakesAt(b, o, call, calls, offs, forceDefaults);
  }

  lemma MakesAt(objects: map<nat, Obj>, o: nat, call: Call, before: seq<Call>, offs: seq<nat>, forceDefaults: bool)
    requires IsCall(call, before) && |offs| == |before| && Makes(objects, o, call, before, offs, forceDefaults)
    ensures o in objects
  {
  }

  lemma MadeStays(a: map<nat, Obj>, b: map<nat, Obj>, o: nat, call: Call, before: seq<Call>, offs: seq<nat>,
                  forceDefaults: bool)
    requires IsCall(call, before) && |offs| == |before| && Extends(a, b)
    requires Makes(a, o, call, before, offs, forceDefaults)
    ensures Makes(b, o, call, before, offs, forceDefaults)
  {
    if call.NewStrings? {
      forall k | 0 <= k < |call.strs| ensures IsText(b, o, b[o].targets[k], call.strs[k]) {
        assert IsText(a, o, a[o].targets[k], call.strs[k]);
      }
    } else if call.NewSorted? {
      SortStays(a, b, call.key, Targets(call.calls, offs), a[o].targets);
    }
  }

  lemma SortStays(a: map<nat, Obj>, b: map<nat, Obj>, kf: FlatSorted.KeyField, v: seq<nat>, ts: seq<nat>)
    requires Extends(a, b) && IsSortOf(a, kf, v, ts)
    ensures IsSortOf(b, kf, v, ts)
  {
    hide FlatSorted.HasKey, FlatSorted.Ordered, FlatSorted.SameOrder;
    var keys, ks :| IsSortBy(a, kf, v, keys, ts, ks);
    forall k | 0 <= k < |v| ensures FlatSorted.HasKey(b, kf, v[k], keys[k]) {
      KeyStays(a, b, kf, v[k], keys[k]);
    }
    forall k | 0 <= k < |ts| ensures FlatSorted.HasKey(b, kf, ts[k], ks[k]) {
      KeyStays(a, b, kf, ts[k], ks[k]);
    }
    assert IsSortBy(b, kf, v, keys, ts, ks);
  }

  // ----- Finishing them -----

  /** What a run has left: the bytes, what they were laid out for, and their root. */
  ghost predicate IsRun(buf: seq<byte>, back: seq<byte>, objects: map<nat, Obj>, root: nat) {
    && buf == Reversed(back) && AllAt(back, objects)
    && 4 <= |buf| && root <= |buf| && GetRoot(buf, 0) == |buf| - root
  }

  /** A buffer verifies for every schema its root conforms to, exactly within the limits. */
  ghost predicate VerifiesExactly(buf: seq<byte>, objects: map<nat, Obj>, root: nat) {
    forall schema, t, c: Config :: IsSchema(schema) && Conforms(objects, schema, t, root) && c.buf == buf ==>
      (VerifyBuffer(c, schema, t, None, 0).ok
       <==> Visits(objects, schema, t, root) <= c.maxTables && Levels(objects, schema, t, root) <= c.maxDepth)
  }

  /** The calls, in a builder of its own, finished. */
  method RunOnce(calls: seq<Call>, root: nat, forceDefaults: bool, dedup: bool)
    returns (r: Option<seq<byte>>, ghost back: seq<byte>, ghost objects: map<nat, Obj>, ghost offs: seq<nat>)
    requires IsScript(calls) && root < |calls|
    ensures SmallTables(calls) && ScriptSize(calls) + 47 < MAX_BUFFER_SIZE ==> r.Some?
    ensures r.Some? ==> Described(objects, offs, calls, forceDefaults) && |offs| == |calls|
    ensures r.Some? ==>
      IsRun(r.value, back, objects, offs[root]) && VerifiesExactly(r.value, objects, offs[root])
  {
    hide FlatState.Sound, SmallTables, ScriptSize, AllAt, Makes, IsScript, IsRun, VerifiesExactly;
    var b := new FlatBufferBuilder();
    b.ForceDefaults(forceDefaults);
    b.DedupVtables(dedup);
    var done, made := Run(b, calls);
    offs, objects, back := made, b.objects, b.back;
    if !done || |b.back| + 47 >= MAX_BUFFER_SIZE {
      return None, back, objects, offs;
    }
    DescribedAt(objects, offs, calls, root, forceDefaults);
    ghost var x := b.Snap();
    b.Finish(made[root], None, false);
    back := b.back;
    FinishedHolds(x, back, b.minalign, made[root]);
    r := Some(Reversed(b.back));
  }

  lemma DescribedAt(objects: map<nat, Obj>, offs: seq<nat>, calls: seq<Call>, i: nat, forceDefaults: bool)
    requires IsScript(calls) && Described(objects, offs, calls, forceDefaults) && i < |calls|
    ensures |offs| == |calls| && offs[i] in objects
  {
    assert IsMade(objects, offs, calls, i, forceDefaults);
  }

  lemma FinishedHolds(x: FlatState.Snapshot, back: seq<byte>, minalign: Alignment, root: nat)
    requires FlatState.Sound(x) && |back| < MAX_BUFFER_SIZE
    requires FlatState.IsFinished(x.state.back, back, minalign, root, None, false) && minalign == x.state.minalign
    ensures IsRun(Reversed(back), back, x.state.objects, root)
    ensures VerifiesExactly(Reversed(back), x.state.objects, root)
  {
    hide AllAt, FlatState.AllNeedAtMost, Visits, Levels;
    var objects, a := x.state.objects, x.state.back;
    assert AllAt(a, objects) && FlatState.AllNeedAtMost(objects, minalign);
    AllGrow(a, back, objects);
    ReadForward(back, Reversed(back), |back|, 4);
    forall schema, t, c: Config | IsSchema(schema) && Conforms(objects, schema, t, root) && c.buf == Reversed(back)
      ensures VerifyBuffer(c, schema, t, None, 0).ok
        <==> Visits(objects, schema, t, root) <= c.maxTables && Levels(objects, schema, t, root) <= c.maxDepth
    {
      FlatLimits.FinishedVerifiesExactly(a, back, objects, minalign, root, None, false, schema, t, c);
    }
  }

  /** Of two buffers, for every schema that the first one's root conforms to and all limits, the verifier accepts
      both or neither. */
  ghost predicate SameVerdicts(buf1: seq<byte>, objects: map<nat, Obj>, root: nat, buf2: seq<byte>) {
    forall schema, t, c: Config, d: Config ::
      && IsSchema(schema) && Conforms(objects, schema, t, root)
      && c.buf == buf1 && d.buf == buf2 && c.maxDepth == d.maxDepth && c.maxTables == d.maxTables
      ==> (VerifyBuffer(c, schema, t, None, 0).ok <==> VerifyBuffer(d, schema, t, None, 0).ok)
  }

  lemma RootsAgree(buf1: seq<byte>, back1: seq<byte>, a: map<nat, Obj>, p: nat, buf2: seq<byte>, back2: seq<byte>,
                   b: map<nat, Obj>, q: nat)
    requires IsRun(buf1, back1, a, p) && IsRun(buf2, back2, b, q) && Alike(a, p, b, q)
    requires VerifiesExactly(buf1, a, p) && VerifiesExactly(buf2, b, q)
    ensures ReadAlike(a, p, buf1, b, q, buf2) && SameVerdicts(buf1, a, p, buf2)
  {
    hide AllAt, Visits, Levels, Alike, ReadAlike;
    SharingIsInvisible(back1, a, p, back2, b, q);
    forall schema, t, c: Config, d: Config |
      && IsSchema(schema) && Conforms(a, schema, t, p)
      && c.buf == buf1 && d.buf == buf2 && c.maxDepth == d.maxDepth && c.maxTables == d.maxTables
      ensures VerifyBuffer(c, schema, t, None, 0).ok <==> VerifyBuffer(d, schema, t, None, 0).ok
    {
      FlatVerdict.TablesAgree(back1, a, p, back2, b, q, schema, t);
    }
  }

  /** The same calls in two builders, each sharing vtables or not, and both finished: whatever a call made reads
      the same in both buffers, and the verifier says the same of both. */
  method RunTwice(calls: seq<Call>, root: nat, forceDefaults: bool, dedup1: bool, dedup2: bool)
    returns (r1: Option<seq<byte>>, r2: Option<seq<byte>>,
             ghost a: map<nat, Obj>, ghost p: seq<nat>, ghost b: map<nat, Obj>, ghost q: seq<nat>)
    requires IsScript(calls) && root < |calls|
    ensures SmallTables(calls) && ScriptSize(calls) + 47 < MAX_BUFFER_SIZE ==> r1.Some? && r2.Some?
    ensures r1.Some? && r2.Some? ==> |p| == |q| == |calls|
    ensures r1.Some? && r2.Some? ==>
      forall i :: 0 <= i < |calls| ==> ReadAlike(a, p[i], r1.value, b, q[i], r2.value)
    ensures r1.Some? && r2.Some? ==>
      && 4 <= |r1.value| && p[root] <= |r1.value| && GetRoot(r1.value, 0) == |r1.value| - p[root]
      && 4 <= |r2.value| && q[root] <= |r2.value| && GetRoot(r2.value, 0) == |r2.value| - q[root]
      && SameVerdicts(r1.value, a, p[root], r2.value)
  {
    hide ReadAlike, Described, IsScript, SmallTables, AllAt, ScriptSize, VerifiesExactly, SameVerdicts, Alike;
    ghost var s, t;
    r1, s, a, p := RunOnce(calls, root, forceDefaults, dedup1);
    r2, t, b, q := RunOnce(calls, root, forceDefaults, dedup2);
    if r1.Some? && r2.Some? {
      forall i | 0 <= i < |calls| ensures ReadAlike(a, p[i], r1.value, b, q[i], r2.value) {
        SameCallsAlike(a, p, b, q, calls, i, forceDefaults);
        SharingIsInvisible(s, a, p[i], t, b, q[i]);
      }
      SameCallsAlike(a, p, b, q, calls, root, forceDefaults);
      RootsAgree(r1.value, s, a, p[root], r2.value, t, b, q[root]);
    }
  }
}
