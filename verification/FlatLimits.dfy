/** The limits of the FlatBuffers verifier are exact: of what the builder finishes it accepts what is
    within them and nothing else. */
module FlatLimits {
  import opened Bytes
  import opened Backward
  import opened VectorDownward
  import opened FlatFormat
  import opened FlatObjects
  import opened FlatVerifier
  import opened FlatAccepts
  import FlatState

  /** If the verification succeeds it has visited this many tables, and has been this deep. */
  predicate Spends(c: Config, s: State, v: Verdict, visits: nat, levels: nat) {
    v.ok ==> v.state.tables == s.tables + visits && v.state.depth == s.depth && s.depth + levels <= c.maxDepth
  }

  lemma {:induction false} TableSpends(c: Config, a: seq<byte>, back: seq<byte>, objects: map<nat, Obj>, m: Alignment,
                                       schema: Schema, t: nat, o: nat, s: State)
    requires Laid(c, a, back, objects, m) && IsSchema(schema) && Conforms(objects, schema, t, o) && Within(c, s)
    ensures o <= |c.buf|
    ensures Spends(c, s, VerifyTable(c, schema, t, |c.buf| - o, s), Visits(objects, schema, t, o),
      Levels(objects, schema, t, o))
    decreases o, 3, 0
  {
    hide Laid, ObjAt, VerifyScalar, VerifyVTable;
    var slots := objects[o].slots;
    LaidObject(c, a, back, objects, m, o);
    VTableVerifies(c, a, back, objects, m, o, slots);
    if Within(c, Enter(s)) {
      FieldsSpend(c, a, back, objects, m, schema, t, 0, o, Enter(s));
    }
  }

  lemma {:induction false} FieldsSpend(c: Config, a: seq<byte>, back: seq<byte>, objects: map<nat, Obj>, m: Alignment,
                                       schema: Schema, t: nat, i: nat, o: nat, s: State)
    requires Laid(c, a, back, objects, m) && IsSchema(schema) && Conforms(objects, schema, t, o) && i <= |schema[t]|
    requires Within(c, s)
    ensures o <= |c.buf| && HasVTable(c.buf, |c.buf| - o)
    ensures var slots := objects[o].slots;
      Spends(c, s, VerifyFields(c, schema, t, i, |c.buf| - o, s),
             FieldsVisits(objects, schema, t, i, slots, o), FieldsLevels(objects, schema, t, i, slots, o))
    decreases o, 2, |schema[t]| - i
  {
    hide Laid, TableAt;
    var slots := objects[o].slots;
    LaidObject(c, a, back, objects, m, o);
    VTableVerifies(c, a, back, objects, m, o, slots);
    if i < |schema[t]| {
      var f := schema[t][i];
      MemberSpends(c, a, back, objects, m, schema, f, o, s);
      var v := VerifyMember(c, schema, f, |c.buf| - o, s);
      if v.ok {
        FieldsSpend(c, a, back, objects, m, schema, t, i + 1, o, v.state);
      }
    }
  }

  lemma {:induction false} MemberSpends(c: Config, a: seq<byte>, back: seq<byte>, objects: map<nat, Obj>, m: Alignment,
                                        schema: Schema, f: Field, o: nat, s: State)
    requires Laid(c, a, back, objects, m) && IsSchema(schema) && IsSchemaField(schema, f) && Within(c, s)
    requires o in objects && objects[o].Table? && FieldConforms(objects, schema, f, objects[o].slots, o)
    ensures o <= |c.buf| && HasVTable(c.buf, |c.buf| - o)
    ensures var slots := objects[o].slots;
      Spends(c, s, VerifyMember(c, schema, f, |c.buf| - o, s),
             FieldVisits(objects, schema, f, slots, o), FieldLevels(objects, schema, f, slots, o))
    decreases o, 1, 0
  {
    hide Laid, TableAt, VTableAt;
    var slots := objects[o].slots;
    LaidObject(c, a, back, objects, m, o);
    FieldEntry(c, a, back, objects, m, o, slots, f.id);
    if f.id in slots && !f.type_.Scalar? {
      PointerReads(back, c.buf, o, slots, f.id);
      TargetSpends(c, a, back, objects, m, schema, f.type_, slots, slots[f.id].target, o, s);
    }
  }

  lemma {:induction false} TargetSpends(c: Config, a: seq<byte>, back: seq<byte>, objects: map<nat, Obj>, m: Alignment,
                                        schema: Schema, ft: FieldType, slots: map<nat, Slot>, q: nat, o: nat, s: State)
    requires Laid(c, a, back, objects, m) && IsSchema(schema) && !ft.Scalar?
      && IsSchemaField(schema, Field(4, ft, false))
    requires TargetConforms(objects, schema, ft, slots, q) && q < o && o <= |c.buf| && HasVTable(c.buf, |c.buf| - o)
    requires TableAt(back, o, slots) && q <= |c.buf| && Within(c, s)
    ensures Spends(c, s, VerifyTarget(c, schema, ft, |c.buf| - o, |c.buf| - q, s),
                   TargetVisits(objects, schema, ft, slots, q), TargetLevels(objects, schema, ft, slots, q))
    decreases q, 5, 0
  {
    hide Laid, TableAt, StrAt, OffsetsAt, VerifyString, VerifyVectorOrString, VerifyVectorOfStrings;
    LaidBytes(c, a, back, objects, m);
    if q in objects {
      LaidObject(c, a, back, objects, m, q);
    }
    match ft
    case TableField(t) => TableSpends(c, a, back, objects, m, schema, t, q, s);
    case TableVector(t) =>
      OffsetsVerify(c, a, back, objects, m, q, objects[q].targets);
      TablesSpend(c, a, back, objects, m, schema, t, objects[q].targets, 0, q, s);
    case UnionField(tf, cases) =>
      FieldReads(back, c.buf, o, slots, tf, 1, 0);
      if UnionType(slots, tf) in cases {
        TableSpends(c, a, back, objects, m, schema, cases[UnionType(slots, tf)], q, s);
      }
    case _ =>
  }

  lemma {:induction false} TablesSpend(c: Config, a: seq<byte>, back: seq<byte>, objects: map<nat, Obj>, m: Alignment,
                                       schema: Schema, t: nat, ts: seq<nat>, i: nat, q: nat, s: State)
    requires Laid(c, a, back, objects, m) && IsSchema(schema) && t < |schema| && q in objects
      && objects[q] == Offsets(ts)
    requires i <= |ts| && (forall k :: 0 <= k < |ts| ==> ElementConforms(objects, schema, t, ts[k], q)) && Within(c, s)
    ensures q <= |c.buf| && |c.buf| - q + 4 + 4 * |ts| <= |c.buf|
    ensures Spends(c, s, VerifyTables(c, schema, t, |c.buf| - q, i, |ts|, s),
                   ElementsVisits(objects, schema, t, ts, i, q), ElementsLevels(objects, schema, t, ts, i, q))
    decreases q, 4, |ts| - i
  {
    hide Laid, OffsetsAt, VerifyVectorOrString;
    LaidObject(c, a, back, objects, m, q);
    OffsetsVerify(c, a, back, objects, m, q, ts);
    if i < |ts| {
      assert ElementConforms(objects, schema, t, ts[i], q);
      TableSpends(c, a, back, objects, m, schema, t, ts[i], s);
      var v := VerifyTable(c, schema, t, |c.buf| - ts[i], s);
      if v.ok {
        TablesSpend(c, a, back, objects, m, schema, t, ts, i + 1, q, v.state);
      }
    }
  }

  /** What the builder holds, once finished, verifies as a schema it conforms to exactly if it visits no
      more tables and is nested no deeper than the verifier allows. */
  lemma FinishedVerifiesExactly(a: seq<byte>, b: seq<byte>, objects: map<nat, Obj>, minalign: Alignment, root: nat,
                                id: Option<seq<byte>>, sizePrefix: bool, schema: Schema, t: nat, c: Config)
    requires AllAt(a, objects) && FlatState.AllNeedAtMost(objects, minalign)
    requires FlatState.IsFinished(a, b, minalign, root, id, sizePrefix) && |b| < MAX_BUFFER_SIZE
    requires IsSchema(schema) && Conforms(objects, schema, t, root) && c.buf == Reversed(b)
    ensures (if sizePrefix then VerifySizePrefixedBuffer(c, schema, t, id).ok else VerifyBuffer(c, schema, t, id, 0).ok)
      <==> Visits(objects, schema, t, root) <= c.maxTables && Levels(objects, schema, t, root) <= c.maxDepth
  {
    hide Conforms, Visits, Levels;
    if Visits(objects, schema, t, root) <= c.maxTables && Levels(objects, schema, t, root) <= c.maxDepth {
      FinishedVerifies(a, b, objects, minalign, root, id, sizePrefix, schema, t, c);
    }
    RootInside(a, objects, schema, t, root, minalign);
    RootVerifies(a, b, minalign, root, id, sizePrefix, c);
    TableSpends(c, a, b, objects, minalign, schema, t, root, State(0, 0));
  }
}
