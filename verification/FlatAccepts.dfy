/** Every buffer the builder finishes is accepted by the verifier: what was built conforms to a
    schema, and whatever conforms verifies, alignment included. */
module FlatAccepts {
  import opened Bytes
  import opened Widths
  import opened Backward
  import opened VectorDownward
  import opened FlatFormat
  import opened FlatObjects
  import opened FlatVerifier
  import FlatState

  // ----- Objects of a schema -----

  /** The object at o is a table with the fields of table number t. */
  ghost predicate Conforms(objects: map<nat, Obj>, schema: Schema, t: nat, o: nat)
    decreases o, 2
  {
    && t < |schema| && o in objects && objects[o].Table?
    && forall i :: 0 <= i < |schema[t]| ==> FieldConforms(objects, schema, schema[t][i], objects[o].slots, o)
  }

  ghost predicate FieldConforms(objects: map<nat, Obj>, schema: Schema, f: Field, slots: map<nat, Slot>, o: nat)
    decreases o, 1
  {
    if f.id !in slots then !f.required
    else if f.type_.Scalar? then slots[f.id].Num? && slots[f.id].width == f.type_.width
    else
      && slots[f.id].Ref? && slots[f.id].target < o
      && TargetConforms(objects, schema, f.type_, slots, slots[f.id].target)
  }

  /** What an offset leads to; a union is what its type field says, or nothing known. */
  ghost predicate TargetConforms(objects: map<nat, Obj>, schema: Schema, ft: FieldType, slots: map<nat, Slot>, q: nat)
    decreases q, 4
  {
    match ft
    case Scalar(_) => true
    case StringField => q in objects && objects[q].Str?
    case TableField(t) => Conforms(objects, schema, t, q)
    case ScalarVector(w) => q in objects && objects[q].Scalars? && objects[q].width == w
    case StringVector =>
      && q in objects && objects[q].Offsets?
      && forall i :: 0 <= i < |objects[q].targets| ==> IsString(objects, objects[q].targets[i])
    case TableVector(t) =>
      && q in objects && objects[q].Offsets?
      && forall i :: 0 <= i < |objects[q].targets| ==> ElementConforms(objects, schema, t, objects[q].targets[i], q)
    case UnionField(tf, cases) =>
      && (tf in slots ==> slots[tf].Num? && slots[tf].width == 1)
      && (UnionType(slots, tf) in cases ==> Conforms(objects, schema, cases[UnionType(slots, tf)], q))
  }

  predicate IsString(objects: map<nat, Obj>, q: nat) {
    q in objects && objects[q].Str?
  }

  ghost predicate ElementConforms(objects: map<nat, Obj>, schema: Schema, t: nat, e: nat, q: nat)
    decreases q, 3
  {
    e < q && Conforms(objects, schema, t, e)
  }

  function UnionType(slots: map<nat, Slot>, tf: nat): nat {
    if tf in slots && slots[tf].Num? then slots[tf].value else 0
  }

  ghost predicate Extends(a: map<nat, Obj>, b: map<nat, Obj>) {
    forall o :: o in a ==> o in b && b[o] == a[o]
  }

  /** Building more changes no table into another. */
  lemma {:induction false} ConformsGrows(a: map<nat, Obj>, b: map<nat, Obj>, schema: Schema, t: nat, o: nat)
    requires Extends(a, b) && Conforms(a, schema, t, o)
    ensures Conforms(b, schema, t, o)
    decreases o, 2
  {
    forall i | 0 <= i < |schema[t]| ensures FieldConforms(b, schema, schema[t][i], b[o].slots, o) {
      var f, slots := schema[t][i], a[o].slots;
      assert FieldConforms(a, schema, f, slots, o);
      if f.id in slots && !f.type_.Scalar? {
        TargetGrows(a, b, schema, f.type_, slots, slots[f.id].target);
      }
    }
  }

  lemma {:induction false} TargetGrows(a: map<nat, Obj>, b: map<nat, Obj>, schema: Schema, ft: FieldType,
                                       slots: map<nat, Slot>, q: nat)
    requires Extends(a, b) && TargetConforms(a, schema, ft, slots, q)
    ensures TargetConforms(b, schema, ft, slots, q)
    decreases q, 4
  {
    if ft.TableField? {
      ConformsGrows(a, b, schema, ft.table, q);
    } else if ft.StringVector? {
      forall i | 0 <= i < |a[q].targets| ensures IsString(b, a[q].targets[i]) {
        assert IsString(a, a[q].targets[i]);
      }
    } else if ft.TableVector? {
      forall i | 0 <= i < |a[q].targets| ensures ElementConforms(b, schema, ft.table, a[q].targets[i], q) {
        assert ElementConforms(a, schema, ft.table, a[q].targets[i], q);
        ConformsGrows(a, b, schema, ft.table, a[q].targets[i]);
      }
    } else if ft.UnionField? && UnionType(slots, ft.typeField) in ft.cases {
      ConformsGrows(a, b, schema, ft.cases[UnionType(slots, ft.typeField)], q);
    }
  }

  // ----- What verifying them costs -----

  /** How many tables are visited from the table at o: shared ones as often as they are reached. */
  ghost function Visits(objects: map<nat, Obj>, schema: Schema, t: nat, o: nat): nat
    decreases o, 3, 0
  {
    if Conforms(objects, schema, t, o) then 1 + FieldsVisits(objects, schema, t, 0, objects[o].slots, o) else 0
  }

  ghost function FieldsVisits(objects: map<nat, Obj>, schema: Schema, t: nat, i: nat, slots: map<nat, Slot>,
                              o: nat): nat
    requires t < |schema| && i <= |schema[t]|
    decreases o, 2, |schema[t]| - i
  {
    if i == |schema[t]| then 0
    else FieldVisits(objects, schema, schema[t][i], slots, o) + FieldsVisits(objects, schema, t, i + 1, slots, o)
  }

  ghost function FieldVisits(objects: map<nat, Obj>, schema: Schema, f: Field, slots: map<nat, Slot>, o: nat): nat
    decreases o, 1, 0
  {
    if f.id in slots && slots[f.id].Ref? && slots[f.id].target < o then
      TargetVisits(objects, schema, f.type_, slots, slots[f.id].target)
    else 0
  }

  ghost function TargetVisits(objects: map<nat, Obj>, schema: Schema, ft: FieldType, slots: map<nat, Slot>, q: nat): nat
    decreases q, 4, 0
  {
    match ft
    case TableField(t) => Visits(objects, schema, t, q)
    case TableVector(t) =>
      if q in objects && objects[q].Offsets? then ElementsVisits(objects, schema, t, objects[q].targets, 0, q) else 0
    case UnionField(tf, cases) =>
      if UnionType(slots, tf) in cases then Visits(objects, schema, cases[UnionType(slots, tf)], q) else 0
    case _ => 0
  }

  ghost function ElementsVisits(objects: map<nat, Obj>, schema: Schema, t: nat, ts: seq<nat>, i: nat, q: nat): nat
    requires i <= |ts|
    decreases q, 3, |ts| - i
  {
    if i == |ts| then 0
    else (if ts[i] < q then Visits(objects, schema, t, ts[i]) else 0) + ElementsVisits(objects, schema, t, ts, i + 1, q)
  }

  /** How deep tables are nested from the table at o. */
  ghost function Levels(objects: map<nat, Obj>, schema: Schema, t: nat, o: nat): nat
    decreases o, 3, 0
  {
    if Conforms(objects, schema, t, o) then 1 + FieldsLevels(objects, schema, t, 0, objects[o].slots, o) else 0
  }

  ghost function FieldsLevels(objects: map<nat, Obj>, schema: Schema, t: nat, i: nat, slots: map<nat, Slot>,
                              o: nat): nat
    requires t < |schema| && i <= |schema[t]|
    decreases o, 2, |schema[t]| - i
  {
    if i == |schema[t]| then 0
    else Max(FieldLevels(objects, schema, schema[t][i], slots, o), FieldsLevels(objects, schema, t, i + 1, slots, o))
  }

  ghost function FieldLevels(objects: map<nat, Obj>, schema: Schema, f: Field, slots: map<nat, Slot>, o: nat): nat
    decreases o, 1, 0
  {
    if f.id in slots && slots[f.id].Ref? && slots[f.id].target < o then
      TargetLevels(objects, schema, f.type_, slots, slots[f.id].target)
    else 0
  }

  ghost function TargetLevels(objects: map<nat, Obj>, schema: Schema, ft: FieldType, slots: map<nat, Slot>, q: nat): nat
    decreases q, 4, 0
  {
    match ft
    case TableField(t) => Levels(objects, schema, t, q)
    case TableVector(t) =>
      if q in objects && objects[q].Offsets? then ElementsLevels(objects, schema, t, objects[q].targets, 0, q) else 0
    case UnionField(tf, cases) =>
      if UnionType(slots, tf) in cases then Levels(objects, schema, cases[UnionType(slots, tf)], q) else 0
    case _ => 0
  }

  ghost function ElementsLevels(objects: map<nat, Obj>, schema: Schema, t: nat, ts: seq<nat>, i: nat, q: nat): nat
    requires i <= |ts|
    decreases q, 3, |ts| - i
  {
    if i == |ts| then 0
    else
      var first := if ts[i] < q then Levels(objects, schema, t, ts[i]) else 0;
      Max(first, ElementsLevels(objects, schema, t, ts, i + 1, q))
  }

  predicate Affordable(c: Config, s: State, visits: nat, levels: nat) {
    s.depth + levels <= c.maxDepth && s.tables + visits <= c.maxTables
  }

  function Spent(s: State, visits: nat): Verdict {
    Verdict(true, State(s.depth, s.tables + visits))
  }

  // ----- Alignment in the finished buffer -----

  lemma AlignedIsMod(n: nat, w: Width)
    ensures IsAligned(n, w) <==> n % w == 0
  {
  }

  /** The data a was finished as the bytes of buf. */
  ghost predicate Laid(c: Config, a: seq<byte>, back: seq<byte>, objects: map<nat, Obj>, minalign: Alignment) {
    && c.buf == Reversed(back) && a <= back && |a| + 4 <= |back| < MAX_BUFFER_SIZE
    && 4 <= minalign && FlatState.AlignedTo(|back|, minalign)
    && AllAt(a, objects) && FlatState.AllNeedAtMost(objects, minalign)
  }

  /** What was aligned counted from the end is aligned counted from the start. */
  lemma AlignedFromStart(n: nat, o: nat, w: Width, minalign: Alignment)
    requires FlatState.AlignedTo(n, minalign) && IsAligned(o, w) && o <= n && w <= minalign
    ensures IsAligned(n - o, w)
  {
    assert n % minalign == 0;
    AlignedIsMod(o, w);
    assert minalign % w == 0;
    AlignedDown(n, w, minalign);
    AlignedDifference(n, o, w);
    AlignedIsMod(n - o, w);
  }

  lemma LaidObject(c: Config, a: seq<byte>, back: seq<byte>, objects: map<nat, Obj>, m: Alignment, o: nat)
    requires Laid(c, a, back, objects, m) && o in objects
    ensures ObjAt(a, o, objects[o]) && 4 <= o <= |a| && |a| + 4 <= |back| == |c.buf| && c.buf == Reversed(back)
    ensures FlatState.NeedsAtMost(objects[o], m)
  {
  }

  lemma LaidBytes(c: Config, a: seq<byte>, back: seq<byte>, objects: map<nat, Obj>, m: Alignment)
    requires Laid(c, a, back, objects, m)
    ensures c.buf == Reversed(back) && a <= back
  {
  }

  // ----- Objects that verify -----

  lemma ScalarVerifies(c: Config, a: seq<byte>, back: seq<byte>, objects: map<nat, Obj>, m: Alignment, o: nat, w: Width)
    requires Laid(c, a, back, objects, m) && w <= o <= |a| && IsAligned(o, w) && w <= m
    ensures VerifyScalar(c, |c.buf| - o, w)
  {
    AlignedFromStart(|back|, o, w, m);
  }

  lemma VTableVerifies(c: Config, a: seq<byte>, back: seq<byte>, objects: map<nat, Obj>, m: Alignment, o: nat,
                       slots: map<nat, Slot>)
    requires Laid(c, a, back, objects, m) && TableAt(a, o, slots)
    ensures VerifyScalar(c, |c.buf| - o, 4) && VerifyVTable(c, |c.buf| - o) && HasVTable(c.buf, |c.buf| - o)
    ensures TableAt(back, o, slots) && VTableOf(back, o) == VTableOf(a, o)
  {
    ScalarVerifies(c, a, back, objects, m, o, 4);
    TableGrows(a, back, o, slots);
    TableEntries(back, c.buf, o, slots, 4);
    ReadBackGrows(a, back, o, 4);
    var v := VTableOf(a, o);
    ScalarVerifies(c, a, back, objects, m, v, 2);
    VTableGrows(a, back, v);
    ReadForward(back, c.buf, v, 2);
  }

  lemma OffsetVerifies(c: Config, a: seq<byte>, back: seq<byte>, objects: map<nat, Obj>, m: Alignment, p: nat, q: nat)
    requires Laid(c, a, back, objects, m) && SlotAt(a, p, Ref(q))
    ensures VerifyOffset(c, |c.buf| - p) && Follow(c.buf, |c.buf| - p) == |c.buf| - q
  {
    ScalarVerifies(c, a, back, objects, m, p, 4);
    ReadBackGrows(a, back, p, 4);
    ReadForward(back, c.buf, p, 4);
  }

  lemma StringVerifies(c: Config, a: seq<byte>, back: seq<byte>, objects: map<nat, Obj>, m: Alignment, q: nat,
                       s: seq<byte>)
    requires Laid(c, a, back, objects, m) && StrAt(a, q, s)
    ensures VerifyString(c, |c.buf| - q)
  {
    ScalarVerifies(c, a, back, objects, m, q, 4);
    ObjGrows(a, back, q, Str(s));
    ReadForward(back, c.buf, q, 4);
    StringReads(back, c.buf, q, s);
  }

  lemma VectorVerifies(c: Config, a: seq<byte>, back: seq<byte>, objects: map<nat, Obj>, m: Alignment, q: nat, n: nat,
                       w: Width)
    requires Laid(c, a, back, objects, m) && 4 + Times(n, w) <= q <= |a| && IsAligned(q, 4) && ReadBack(a, q, 4) == n
    ensures VerifyVectorOrString(c, |c.buf| - q, w) && ReadU32(c.buf, |c.buf| - q) == n
  {
    ScalarVerifies(c, a, back, objects, m, q, 4);
    ReadBackGrows(a, back, q, 4);
    ReadForward(back, c.buf, q, 4);
  }

  /** A vector of offsets, and where each leads. */
  lemma OffsetsVerify(c: Config, a: seq<byte>, back: seq<byte>, objects: map<nat, Obj>, m: Alignment, q: nat,
                      ts: seq<nat>)
    requires Laid(c, a, back, objects, m) && OffsetsAt(a, q, ts)
    ensures VerifyVectorOrString(c, |c.buf| - q, 4) && ReadU32(c.buf, |c.buf| - q) == |ts|
    ensures |c.buf| - q + 4 + 4 * |ts| <= |c.buf|
    ensures forall i :: 0 <= i < |ts| ==> GetIndirect(c.buf, |c.buf| - q, i) == |c.buf| - ts[i]
  {
    VectorVerifies(c, a, back, objects, m, q, |ts|, 4);
    ObjGrows(a, back, q, Offsets(ts));
    OffsetsRead(back, c.buf, q, ts);
  }

  // ----- Tables that verify -----

  lemma {:induction false} AcceptsTable(c: Config, a: seq<byte>, back: seq<byte>, objects: map<nat, Obj>, m: Alignment,
                                        schema: Schema, t: nat, o: nat, s: State)
    requires Laid(c, a, back, objects, m) && IsSchema(schema) && Conforms(objects, schema, t, o)
    requires Affordable(c, s, Visits(objects, schema, t, o), Levels(objects, schema, t, o))
    ensures o <= |c.buf| && VerifyTable(c, schema, t, |c.buf| - o, s) == Spent(s, Visits(objects, schema, t, o))
    decreases o, 3, 0
  {
    hide Laid, ObjAt;
    var slots := objects[o].slots;
    LaidObject(c, a, back, objects, m, o);
    VTableVerifies(c, a, back, objects, m, o, slots);
    AcceptsFields(c, a, back, objects, m, schema, t, 0, o, Enter(s));
  }

  lemma {:induction false} AcceptsFields(c: Config, a: seq<byte>, back: seq<byte>, objects: map<nat, Obj>, m: Alignment,
                                         schema: Schema, t: nat, i: nat, o: nat, s: State)
    requires Laid(c, a, back, objects, m) && IsSchema(schema) && Conforms(objects, schema, t, o) && i <= |schema[t]|
    requires var slots := objects[o].slots;
      Affordable(c, s, FieldsVisits(objects, schema, t, i, slots, o), FieldsLevels(objects, schema, t, i, slots, o))
    ensures o <= |c.buf| && HasVTable(c.buf, |c.buf| - o)
    ensures VerifyFields(c, schema, t, i, |c.buf| - o, s)
      == Spent(s, FieldsVisits(objects, schema, t, i, objects[o].slots, o))
    decreases o, 2, |schema[t]| - i
  {
    hide Laid, TableAt;
    var slots := objects[o].slots;
    LaidObject(c, a, back, objects, m, o);
    VTableVerifies(c, a, back, objects, m, o, slots);
    if i < |schema[t]| {
      var f := schema[t][i];
      AcceptsMember(c, a, back, objects, m, schema, f, o, s);
      var s' := Spent(s, FieldVisits(objects, schema, f, slots, o)).state;
      AcceptsFields(c, a, back, objects, m, schema, t, i + 1, o, s');
    }
  }

  lemma {:induction false} AcceptsMember(c: Config, a: seq<byte>, back: seq<byte>, objects: map<nat, Obj>, m: Alignment,
                                         schema: Schema, f: Field, o: nat, s: State)
    requires Laid(c, a, back, objects, m) && IsSchema(schema) && IsSchemaField(schema, f)
    requires o in objects && objects[o].Table? && FieldConforms(objects, schema, f, objects[o].slots, o)
    requires var slots := objects[o].slots;
      Affordable(c, s, FieldVisits(objects, schema, f, slots, o), FieldLevels(objects, schema, f, slots, o))
    ensures o <= |c.buf| && HasVTable(c.buf, |c.buf| - o)
    ensures VerifyMember(c, schema, f, |c.buf| - o, s) == Spent(s, FieldVisits(objects, schema, f, objects[o].slots, o))
    decreases o, 1, 0
  {
    hide Laid, TableAt, VTableAt;
    var slots := objects[o].slots;
    LaidObject(c, a, back, objects, m, o);
    FieldEntry(c, a, back, objects, m, o, slots, f.id);
    if f.id in slots && !f.type_.Scalar? {
      PointerReads(back, c.buf, o, slots, f.id);
      AcceptsTarget(c, a, back, objects, m, schema, f.type_, slots, slots[f.id].target, o, s);
    }
  }

  /** A field, if there, verifies as what it is. */
  lemma FieldEntry(c: Config, a: seq<byte>, back: seq<byte>, objects: map<nat, Obj>, m: Alignment,
                   o: nat, slots: map<nat, Slot>, field: nat)
    requires Laid(c, a, back, objects, m) && o in objects && objects[o] == Table(slots) && IsField(field)
    ensures o <= |c.buf| && HasVTable(c.buf, |c.buf| - o) && TableAt(back, o, slots)
    ensures var e := GetOptionalFieldOffset(c.buf, |c.buf| - o, field);
      if field !in slots then e == 0
      else e != 0 && if slots[field].Num? then VerifyScalar(c, |c.buf| - o + e, slots[field].width)
        else VerifyOffset(c, |c.buf| - o + e)
  {
    hide Laid, ReadBack;
    LaidBytes(c, a, back, objects, m);
    LaidObject(c, a, back, objects, m, o);
    VTableVerifies(c, a, back, objects, m, o, slots);
    TableEntries(back, c.buf, o, slots, field);
    var v := VTableOf(a, o);
    VTableGrows(a, back, v);
    assert FieldAt(a, o, v, field, slots);
    if field in slots {
      var p := o - Entry(a, v, field);
      if slots[field].Num? {
        assert FlatState.NeedsAtMost(objects[o], m);
        ScalarVerifies(c, a, back, objects, m, p, slots[field].width);
      } else {
        OffsetVerifies(c, a, back, objects, m, p, slots[field].target);
      }
    }
  }

  lemma {:induction false} AcceptsTarget(c: Config, a: seq<byte>, back: seq<byte>, objects: map<nat, Obj>, m: Alignment,
                                         schema: Schema, ft: FieldType, slots: map<nat, Slot>, q: nat, o: nat, s: State)
    requires Laid(c, a, back, objects, m) && IsSchema(schema) && !ft.Scalar?
      && IsSchemaField(schema, Field(4, ft, false))
    requires TargetConforms(objects, schema, ft, slots, q) && q < o && o <= |c.buf| && HasVTable(c.buf, |c.buf| - o)
    requires TableAt(back, o, slots) && q <= |c.buf|
    requires Affordable(c, s, TargetVisits(objects, schema, ft, slots, q), TargetLevels(objects, schema, ft, slots, q))
    ensures VerifyTarget(c, schema, ft, |c.buf| - o, |c.buf| - q, s)
      == Spent(s, TargetVisits(objects, schema, ft, slots, q))
    decreases q, 5, 0
  {
    hide Laid, TableAt, StrAt, OffsetsAt, VerifyString, VerifyVectorOrString, VerifyVectorOfStrings;
    LaidBytes(c, a, back, objects, m);
    if q in objects {
      LaidObject(c, a, back, objects, m, q);
    }
    match ft
    case StringField => StringVerifies(c, a, back, objects, m, q, objects[q].str);
    case TableField(t) => AcceptsTable(c, a, back, objects, m, schema, t, q, s);
    case ScalarVector(w) => VectorVerifies(c, a, back, objects, m, q, |objects[q].values|, w);
    case StringVector => StringsVerify(c, a, back, objects, m, q);
    case TableVector(t) =>
      OffsetsVerify(c, a, back, objects, m, q, objects[q].targets);
      AcceptsTables(c, a, back, objects, m, schema, t, objects[q].targets, 0, q, s);
    case UnionField(tf, cases) =>
      FieldReads(back, c.buf, o, slots, tf, 1, 0);
      if UnionType(slots, tf) in cases {
        AcceptsTable(c, a, back, objects, m, schema, cases[UnionType(slots, tf)], q, s);
      }
  }

  lemma StringsVerify(c: Config, a: seq<byte>, back: seq<byte>, objects: map<nat, Obj>, m: Alignment, q: nat)
    requires Laid(c, a, back, objects, m) && q in objects && objects[q].Offsets?
    requires forall i :: 0 <= i < |objects[q].targets| ==> IsString(objects, objects[q].targets[i])
    ensures q <= |c.buf| && VerifyVectorOrString(c, |c.buf| - q, 4) && VerifyVectorOfStrings(c, |c.buf| - q)
  {
    hide StrAt, OffsetsAt, VerifyString;
    var ts := objects[q].targets;
    LaidObject(c, a, back, objects, m, q);
    OffsetsVerify(c, a, back, objects, m, q, ts);
    var vec := |c.buf| - q;
    forall i | 0 <= i < |ts| ensures VerifyString(c, GetIndirect(c.buf, vec, i)) {
      assert IsString(objects, ts[i]) && ObjAt(a, ts[i], objects[ts[i]]);
      StringVerifies(c, a, back, objects, m, ts[i], objects[ts[i]].str);
    }
  }

  lemma {:induction false} AcceptsTables(c: Config, a: seq<byte>, back: seq<byte>, objects: map<nat, Obj>, m: Alignment,
                                         schema: Schema, t: nat, ts: seq<nat>, i: nat, q: nat, s: State)
    requires Laid(c, a, back, objects, m) && IsSchema(schema) && t < |schema| && q in objects
      && objects[q] == Offsets(ts)
    requires i <= |ts| && forall k :: 0 <= k < |ts| ==> ElementConforms(objects, schema, t, ts[k], q)
    requires Affordable(c, s, ElementsVisits(objects, schema, t, ts, i, q),
      ElementsLevels(objects, schema, t, ts, i, q))
    ensures q <= |c.buf| && |c.buf| - q + 4 + 4 * |ts| <= |c.buf|
    ensures VerifyTables(c, schema, t, |c.buf| - q, i, |ts|, s)
      == Spent(s, ElementsVisits(objects, schema, t, ts, i, q))
    decreases q, 4, |ts| - i
  {
    hide Laid, OffsetsAt, VerifyVectorOrString;
    LaidObject(c, a, back, objects, m, q);
    OffsetsVerify(c, a, back, objects, m, q, ts);
    if i < |ts| {
      assert ElementConforms(objects, schema, t, ts[i], q);
      AcceptsTable(c, a, back, objects, m, schema, t, ts[i], s);
      var s' := Spent(s, Visits(objects, schema, t, ts[i])).state;
      AcceptsTables(c, a, back, objects, m, schema, t, ts, i + 1, q, s');
    }
  }

  // ----- Finished buffers -----

  lemma LowHalfOfZero(b: seq<byte>, o: nat)
    requires 4 <= o <= |b| && ReadBack(b, o, 4) == 0
    ensures ReadBack(b, o, 2) == 0
  {
    assert ReadBack(b, o, 4) == b[o - 1] + 256 * ReadBack(b, o - 1, 3);
    assert ReadBack(b, o - 1, 3) == b[o - 2] + 256 * ReadBack(b, o - 2, 2);
    assert ReadBack(b, o - 1, 1) == b[o - 2] + 256 * ReadBack(b, o - 2, 0);
  }

  /** A table and its vtable do not fit in less. */
  lemma TableTakesSix(a: seq<byte>, o: nat, slots: map<nat, Slot>)
    requires TableAt(a, o, slots)
    ensures |a| >= 6
  {
    ReadBackBound(a, o, 4);
    LimitValues();
    if ReadBack(a, o, 4) == 0 {
      LowHalfOfZero(a, o);
      assert false;
    }
  }

  lemma RootVerifies(a: seq<byte>, b: seq<byte>, minalign: Alignment, root: nat, id: Option<seq<byte>>,
                     sizePrefix: bool, c: Config)
    requires FlatState.IsFinished(a, b, minalign, root, id, sizePrefix) && 4 <= minalign && c.buf == Reversed(b)
    requires 6 <= |a| && 0 < root <= |a| && |b| < MAX_BUFFER_SIZE
    ensures var start := if sizePrefix then 4 else 0;
      && |c.buf| >= MIN_BUFFER_SIZE && VerifyOffset(c, start) && GetRoot(c.buf, start) == |c.buf| - root
      && (id.Some? ==> BytesAt(c.buf, start + 4, id.value))
      && (sizePrefix ==> VerifyScalar(c, 0, 4) && ReadU32(c.buf, 0) == |c.buf| - 4)
  {
    var r := FlatState.RootAt(b, sizePrefix);
    FlatState.FourAligned(|b|, minalign);
    ReadForward(b, c.buf, r, 4);
    if sizePrefix {
      ReadForward(b, c.buf, |b|, 4);
    }
  }

  lemma RootInside(a: seq<byte>, objects: map<nat, Obj>, schema: Schema, t: nat, root: nat, minalign: Alignment)
    requires AllAt(a, objects) && FlatState.AllNeedAtMost(objects, minalign) && Conforms(objects, schema, t, root)
    ensures 6 <= |a| && 0 < root <= |a| && 4 <= minalign && t < |schema|
  {
    assert ObjAt(a, root, objects[root]) && FlatState.NeedsAtMost(objects[root], minalign);
    TableTakesSix(a, root, objects[root].slots);
  }

  /** Whatever the builder holds, once finished, verifies as the schema it conforms to, if it is not
      nested too deep and does not visit too many tables: with alignment checking or without, with
      an identifier or without, size-prefixed or not. */
  lemma FinishedVerifies(a: seq<byte>, b: seq<byte>, objects: map<nat, Obj>, minalign: Alignment, root: nat,
                         id: Option<seq<byte>>, sizePrefix: bool, schema: Schema, t: nat, c: Config)
    requires AllAt(a, objects) && FlatState.AllNeedAtMost(objects, minalign)
    requires FlatState.IsFinished(a, b, minalign, root, id, sizePrefix) && |b| < MAX_BUFFER_SIZE
    requires IsSchema(schema) && Conforms(objects, schema, t, root) && c.buf == Reversed(b)
    requires Visits(objects, schema, t, root) <= c.maxTables && Levels(objects, schema, t, root) <= c.maxDepth
    ensures if sizePrefix then VerifySizePrefixedBuffer(c, schema, t, id).ok else VerifyBuffer(c, schema, t, id, 0).ok
  {
    hide AllAt, FlatState.AllNeedAtMost, FlatState.IsFinished, Conforms, Visits, Levels, VerifyTable;
    RootInside(a, objects, schema, t, root, minalign);
    FinishedTotal(a, b, minalign, root, id, sizePrefix);
    RootVerifies(a, b, minalign, root, id, sizePrefix, c);
    AcceptsTable(c, a, b, objects, minalign, schema, t, root, State(0, 0));
  }

  /** The same, for every verifier with such limits. */
  lemma FinishedVerifiesAlways(a: seq<byte>, b: seq<byte>, objects: map<nat, Obj>, minalign: Alignment, root: nat,
                               schema: Schema, t: nat, visits: nat, levels: nat)
    requires AllAt(a, objects) && FlatState.AllNeedAtMost(objects, minalign)
    requires FlatState.IsFinished(a, b, minalign, root, None, false) && |b| < MAX_BUFFER_SIZE
    requires IsSchema(schema) && Conforms(objects, schema, t, root)
    requires Visits(objects, schema, t, root) == visits && Levels(objects, schema, t, root) == levels
    ensures forall c: Config :: c.buf == Reversed(b) && levels <= c.maxDepth && visits <= c.maxTables ==>
      VerifyBuffer(c, schema, t, None, 0).ok
  {
    hide AllAt, FlatState.AllNeedAtMost, FlatState.IsFinished, Visits, Levels;
    forall c: Config | c.buf == Reversed(b) && levels <= c.maxDepth && visits <= c.maxTables
      ensures VerifyBuffer(c, schema, t, None, 0).ok
    {
      FinishedVerifies(a, b, objects, minalign, root, None, false, schema, t, c);
    }
  }

  /** Counted from the start of buf, what was built at o is aligned: lengths and offsets to 4, scalars and
      the elements of vectors to their own size. */
  ghost predicate IsInPlace(buf: seq<byte>, o: nat, x: Obj) {
    && o <= |buf| && (|buf| - o) % 4 == 0
    && match x
       case Str(_) => true
       case Scalars(w, vs) => vs != [] ==> (|buf| - o + 4) % w == 0
       case Offsets(_) => true
       case Table(slots) => forall field :: field in slots ==> FieldInPlace(buf, |buf| - o, field, slots[field])
  }

  predicate FieldInPlace(buf: seq<byte>, p: nat, field: nat, slot: Slot) {
    && HasVTable(buf, p) && IsField(field)
    && var w: Width := if slot.Num? then slot.width else 4;
       (p + GetOptionalFieldOffset(buf, p, field)) % w == 0
  }

  /** The size prefix is the number of bytes after it, the whole is a multiple of the builder's
      alignment, and every scalar, length, offset and vector body that was placed is aligned. */
  lemma FinishedIsAligned(a: seq<byte>, b: seq<byte>, objects: map<nat, Obj>, minalign: Alignment, root: nat,
                          id: Option<seq<byte>>, sizePrefix: bool)
    requires AllAt(a, objects) && FlatState.AllNeedAtMost(objects, minalign)
    requires FlatState.IsFinished(a, b, minalign, root, id, sizePrefix)
    ensures |b| % minalign == 0 && forall o :: o in objects ==> IsInPlace(Reversed(b), o, objects[o])
    ensures sizePrefix ==> 4 <= |b| && ReadU32(Reversed(b), 0) == |b| - 4
  {
    FinishedTotal(a, b, minalign, root, id, sizePrefix);
    forall o | o in objects ensures IsInPlace(Reversed(b), o, objects[o]) {
      assert ObjAt(a, o, objects[o]) && FlatState.NeedsAtMost(objects[o], minalign);
      ObjectInPlace(a, b, o, objects[o], minalign);
    }
  }

  lemma FinishedTotal(a: seq<byte>, b: seq<byte>, minalign: Alignment, root: nat, id: Option<seq<byte>>,
                      sizePrefix: bool)
    requires FlatState.IsFinished(a, b, minalign, root, id, sizePrefix)
    ensures a <= b && |a| + 4 <= |b| && FlatState.AlignedTo(|b|, minalign) && |b| % minalign == 0
    ensures sizePrefix ==> 4 <= |b| && ReadU32(Reversed(b), 0) == |b| - 4
  {
    if sizePrefix {
      ReadForward(b, Reversed(b), |b|, 4);
    }
  }

  lemma ObjectInPlace(a: seq<byte>, b: seq<byte>, o: nat, x: Obj, minalign: Alignment)
    requires a <= b && ObjAt(a, o, x) && FlatState.NeedsAtMost(x, minalign) && FlatState.AlignedTo(|b|, minalign)
    ensures IsInPlace(Reversed(b), o, x)
  {
    hide ObjAt, TableAt, FlatState.AlignedTo;
    ObjectAligned(a, o, x);
    AlignedFromStart(|b|, o, 4, minalign);
    match x
    case Str(_) =>
    case Offsets(_) =>
    case Scalars(w, vs) =>
      if vs != [] {
        AlignedFromStart(|b|, o - 4, w, minalign);
        AlignedIsMod(|b| - (o - 4), w);
      }
    case Table(slots) =>
      ObjGrows(a, b, o, x);
      TableIsAt(b, o, slots);
      forall field | field in slots ensures FieldInPlace(Reversed(b), |b| - o, field, slots[field]) {
        SlotInPlace(b, o, slots, field, minalign);
      }
  }

  lemma ObjectAligned(a: seq<byte>, o: nat, x: Obj)
    requires ObjAt(a, o, x)
    ensures 4 <= o <= |a| && IsAligned(o, 4)
    ensures x.Scalars? && x.values != [] ==> IsAligned(o - 4, x.width)
  {
  }

  lemma TableIsAt(b: seq<byte>, o: nat, slots: map<nat, Slot>)
    requires ObjAt(b, o, Table(slots))
    ensures TableAt(b, o, slots) && forall field :: field in slots ==> IsField(field)
  {
  }

  lemma SlotInPlace(b: seq<byte>, o: nat, slots: map<nat, Slot>, field: nat, minalign: Alignment)
    requires o <= |b| && TableAt(b, o, slots) && field in slots && FlatState.AlignedTo(|b|, minalign)
    requires 4 <= minalign && FlatState.SlotsNeedAtMost(slots, minalign)
    ensures FieldInPlace(Reversed(b), |b| - o, field, slots[field])
  {
    hide FlatState.AlignedTo;
    var slot := slots[field];
    var w: Width := if slot.Num? then slot.width else 4;
    TableEntries(b, Reversed(b), o, slots, field);
    var v := VTableOf(b, o);
    assert FieldAt(b, o, v, field, slots);
    var e := Entry(b, v, field);
    AlignedFromStart(|b|, o - e, w, minalign);
    AlignedIsMod(|b| - (o - e), w);
  }

  /** The elements of a vector whose alignment was forced start at a multiple of it. */
  lemma ForcedIsAligned(a: seq<byte>, b: seq<byte>, minalign: Alignment, root: nat, id: Option<seq<byte>>,
                        sizePrefix: bool, o: nat, alignment: Alignment)
    requires FlatState.IsFinished(a, b, minalign, root, id, sizePrefix)
    requires 4 <= o <= |a| && FlatState.AlignedTo(o - 4, alignment) && alignment <= minalign
    ensures (|b| - o + 4) % alignment == 0
  {
    var n := o - 4;
    assert n % alignment == 0 && |b| % minalign == 0 && minalign % alignment == 0;
    AlignedDown(|b|, alignment, minalign);
    AlignedDifference(|b|, n, alignment);
  }
}
