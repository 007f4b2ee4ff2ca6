/** Sequences of calls of a FlatBuffer builder, each of which may refer to what earlier ones made, and what
    they make. */
module FlatScript {
  import opened Bytes
  import opened Widths
  import opened VectorDownward
  import opened FlatFormat
  import opened FlatObjects
  import opened FlatTables
  import opened FlatSharing
  import opened FlatOrder
  import FlatSorted

  /** An argument of a table: a scalar with its default, or what an earlier call made, if anything. */
  datatype Arg = Value(field: nat, width: Width, value: nat, default: nat) | Made(field: nat, call: Option<nat>)

  /** Earlier calls are named by their number. */
  datatype Call =
    | NewString(str: seq<byte>)
    | NewSharedString(str: seq<byte>)
    | NewStrings(strs: seq<seq<byte>>)
    | NewScalars(width: Width, values: seq<nat>)
    | NewForcedScalars(width: Width, values: seq<nat>, alignment: Alignment)
    | NewOffsets(calls: seq<nat>)
    | NewSorted(key: FlatSorted.KeyField, calls: seq<nat>)
    | NewTable(args: seq<Arg>)

  predicate IsArg(arg: Arg, i: nat) {
    && IsField(arg.field) && arg.field <= 0xFFFC
    && if arg.Value? then arg.value < Capacity(arg.width) else arg.call.Some? ==> arg.call.value < i
  }

  /** A call after these: values that fit, different fields, only earlier calls, and keys to sort by. */
  predicate IsCall(call: Call, before: seq<Call>) {
    match call
    case NewString(_) => true
    case NewSharedString(_) => true
    case NewStrings(_) => true
    case NewScalars(w, vs) => forall k :: 0 <= k < |vs| ==> vs[k] < Capacity(w)
    case NewForcedScalars(w, vs, _) => forall k :: 0 <= k < |vs| ==> vs[k] < Capacity(w)
    case NewOffsets(calls) => forall k :: 0 <= k < |calls| ==> calls[k] < |before|
    case NewSorted(kf, calls) =>
      && IsField(kf.field)
      && forall k :: 0 <= k < |calls| ==> calls[k] < |before| && GivesKey(before, before[calls[k]], kf)
    case NewTable(args) =>
      && (forall k :: 0 <= k < |args| ==> IsArg(args[k], |before|))
      && forall j, k :: 0 <= j < k < |args| ==> args[j].field != args[k].field
  }

  /** The call makes a table with a key: a string is given, or a number or nothing. */
  predicate GivesKey(before: seq<Call>, call: Call, kf: FlatSorted.KeyField) {
    && call.NewTable?
    && if kf.StringKey? then exists j :: 0 <= j < |call.args| && GivesString(before, call.args[j], kf.field)
       else forall j :: 0 <= j < |call.args| && call.args[j].field == kf.field ==> GivesNumber(call.args[j])
  }

  predicate GivesString(before: seq<Call>, arg: Arg, field: nat) {
    && arg.Made? && arg.field == field && arg.call.Some? && arg.call.value < |before|
    && (before[arg.call.value].NewString? || before[arg.call.value].NewSharedString?)
  }

  predicate GivesNumber(arg: Arg) {
    if arg.Value? then arg.width == 8 else arg.call.None?
  }

  predicate IsScript(calls: seq<Call>) {
    forall i :: 0 <= i < |calls| ==> IsCall(calls[i], calls[..i])
  }

  // ----- What the calls make -----

  function MemberOf(arg: Arg, offs: seq<nat>): Member
    requires IsArg(arg, |offs|)
  {
    match arg
    case Value(field, w, v, d) => Number(field, w, v, d)
    case Made(field, call) => Pointer(field, if call.Some? then offs[call.value] else 0)
  }

  function Members(args: seq<Arg>, offs: seq<nat>): (ms: seq<Member>)
    requires forall k :: 0 <= k < |args| ==> IsArg(args[k], |offs|)
    ensures |ms| == |args|
  {
    seq(|args|, k requires 0 <= k < |args| => MemberOf(args[k], offs))
  }

  function Targets(calls: seq<nat>, offs: seq<nat>): (ts: seq<nat>)
    requires forall k :: 0 <= k < |calls| ==> calls[k] < |offs|
    ensures |ts| == |calls|
  {
    seq(|calls|, k requires 0 <= k < |calls| => offs[calls[k]])
  }

  predicate IsText(objects: map<nat, Obj>, o: nat, t: nat, s: seq<byte>) {
    t < o && t in objects && objects[t] == Str(s)
  }

  /** What a call has made at o, given where the earlier ones have put what they made. */
  ghost predicate Makes(objects: map<nat, Obj>, o: nat, call: Call, before: seq<Call>, offs: seq<nat>,
                        forceDefaults: bool)
    requires IsCall(call, before) && |offs| == |before|
  {
    o in objects &&
    match call
    case NewString(s) => objects[o] == Str(s)
    case NewSharedString(s) => objects[o] == Str(s)
    case NewStrings(ss) =>
      && objects[o].Offsets? && |objects[o].targets| == |ss|
      && forall k :: 0 <= k < |ss| ==> IsText(objects, o, objects[o].targets[k], ss[k])
    case NewScalars(w, vs) => objects[o] == Scalars(w, vs)
    case NewForcedScalars(w, vs, _) => objects[o] == Scalars(w, vs)
    case NewOffsets(calls) => objects[o] == Offsets(Targets(calls, offs))
    case NewSorted(kf, calls) =>
      && objects[o].Offsets? && IsSortOf(objects, kf, Targets(calls, offs), objects[o].targets)
      && forall k :: 0 <= k < |objects[o].targets| ==> objects[o].targets[k] < o
    case NewTable(args) => objects[o] == Table(Stored(Members(args, offs), forceDefaults))
  }

  /** Call number i has been carried out at offs[i], after all calls it may refer to. */
  ghost predicate IsMade(objects: map<nat, Obj>, offs: seq<nat>, calls: seq<Call>, i: nat, forceDefaults: bool)
    requires i < |offs| == |calls| && IsScript(calls)
  {
    && 0 < offs[i] && Makes(objects, offs[i], calls[i], calls[..i], offs[..i], forceDefaults)
    && (calls[i].NewOffsets? || calls[i].NewTable? ==> forall j :: 0 <= j < i ==> offs[j] < offs[i])
  }

  /** All calls have been carried out. */
  ghost predicate Described(objects: map<nat, Obj>, offs: seq<nat>, calls: seq<Call>, forceDefaults: bool)
    requires IsScript(calls)
  {
    |offs| == |calls| && forall i :: 0 <= i < |calls| ==> IsMade(objects, offs, calls, i, forceDefaults)
  }

  lemma DescribedLength(objects: map<nat, Obj>, offs: seq<nat>, calls: seq<Call>, forceDefaults: bool)
    requires IsScript(calls) && Described(objects, offs, calls, forceDefaults)
    ensures |offs| == |calls|
  {
  }

  // ----- The same calls in two builders -----

  /** Whatever two builders share, and wherever things have landed: what the same call made is alike. */
  lemma {:induction false} SameCallsAlike(a: map<nat, Obj>, p: seq<nat>, b: map<nat, Obj>, q: seq<nat>,
                                          calls: seq<Call>, i: nat, forceDefaults: bool)
    requires IsScript(calls) && Described(a, p, calls, forceDefaults) && Described(b, q, calls, forceDefaults)
      && i < |calls|
    ensures Alike(a, p[i], b, q[i])
    decreases i
  {
    hide Alike, Makes, IsCall;
    forall j | 0 <= j < i ensures Alike(a, p[j], b, q[j]) && 0 < p[j] && 0 < q[j] {
      SameCallsAlike(a, p, b, q, calls, j, forceDefaults);
      assert IsMade(a, p, calls, j, forceDefaults) && IsMade(b, q, calls, j, forceDefaults);
    }
    assert IsMade(a, p, calls, i, forceDefaults) && IsMade(b, q, calls, i, forceDefaults);
    MadeAlike(a, p[i], p[..i], b, q[i], q[..i], calls[i], calls[..i], forceDefaults);
  }

  /** One call, after calls that made what is alike. */
  lemma {:induction false} MadeAlike(a: map<nat, Obj>, o: nat, p: seq<nat>, b: map<nat, Obj>, u: nat, q: seq<nat>,
                                     call: Call, before: seq<Call>, forceDefaults: bool)
    requires IsCall(call, before) && |p| == |q| == |before|
    requires Makes(a, o, call, before, p, forceDefaults) && Makes(b, u, call, before, q, forceDefaults)
    requires call.NewOffsets? || call.NewTable? ==> forall j :: 0 <= j < |p| ==> p[j] < o
    requires forall j :: 0 <= j < |p| ==> Alike(a, p[j], b, q[j]) && 0 < p[j] && 0 < q[j]
    ensures Alike(a, o, b, u)
  {
    match call
    case NewTable(args) =>
      var ms, ns := Members(args, p), Members(args, q);
      forall k | 0 <= k < |ms| ensures MemberAlike(a, o, ms[k], b, ns[k]) {
        assert IsArg(args[k], |before|);
      }
      CreatedAlike(a, o, ms, b, u, ns, forceDefaults);
    case NewStrings(ss) =>
      forall k | 0 <= k < |ss| ensures Alike(a, a[o].targets[k], b, b[u].targets[k]) && a[o].targets[k] < o {
        assert IsText(a, o, a[o].targets[k], ss[k]) && IsText(b, u, b[u].targets[k], ss[k]);
      }
    case NewSorted(kf, calls) =>
      assert AllAlike(a, Targets(calls, p), b, Targets(calls, q));
      SortsAlike(a, kf, Targets(calls, p), a[o].targets, b, Targets(calls, q), b[u].targets);
    case _ =>
  }

  // ----- Keys -----

  /** A table that was given a key has one. */
  lemma {:induction false} MadeHasKey(objects: map<nat, Obj>, offs: seq<nat>, calls: seq<Call>, c: nat,
                                      kf: FlatSorted.KeyField, forceDefaults: bool)
    requires IsScript(calls) && Described(objects, offs, calls, forceDefaults) && c < |calls|
    requires IsField(kf.field) && GivesKey(calls, calls[c], kf)
    ensures exists k :: FlatSorted.HasKey(objects, kf, offs[c], k)
  {
    hide Stored;
    assert IsMade(objects, offs, calls, c, forceDefaults) && IsCall(calls[c], calls[..c]);
    var args := calls[c].args;
    var ms := Members(args, offs[..c]);
    var slots := objects[offs[c]].slots;
    if kf.StringKey? {
      var j :| 0 <= j < |args| && GivesString(calls, args[j], kf.field);
      assert IsArg(args[j], c) && ms[j] == MemberOf(args[j], offs[..c]);
      var d := args[j].call.value;
      assert IsMade(objects, offs, calls, d, forceDefaults);
      StoredMember(ms, forceDefaults, j);
      assert slots[kf.field] == Ref(offs[d]) && objects[offs[d]].Str?;
      assert FlatSorted.HasKey(objects, kf, offs[c], FlatSorted.Text(objects[offs[d]].str));
    } else {
      NumberStored(args, ms, offs[..c], kf.field, forceDefaults);
      var k := if kf.field in slots then Signed(slots[kf.field].value, 8) else 0;
      assert FlatSorted.HasKey(objects, kf, offs[c], FlatSorted.Number(k));
    }
  }

  lemma {:induction false} NumberStored(args: seq<Arg>, ms: seq<Member>, offs: seq<nat>, field: nat,
                                        forceDefaults: bool)
    requires (forall k :: 0 <= k < |args| ==> IsArg(args[k], |offs|)) && ms == Members(args, offs)
    requires forall j, k :: 0 <= j < k < |args| ==> args[j].field != args[k].field
    requires forall j :: 0 <= j < |args| && args[j].field == field ==> GivesNumber(args[j])
    ensures var slots := Stored(ms, forceDefaults);
      field in slots ==> slots[field].Num? && slots[field].width == 8
  {
    hide Stored;
    if j :| 0 <= j < |args| && args[j].field == field {
      StoredMember(ms, forceDefaults, j);
    } else {
      StoredFields(ms, forceDefaults, field);
    }
  }
}
