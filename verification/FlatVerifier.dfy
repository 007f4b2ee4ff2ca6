/** The FlatBuffers verifier, for any schema of tables of scalars, strings, sub-tables, unions, and
    vectors of scalars, strings or tables: the generated `Verify` functions threaded through one
    depth and one table counter. */
module FlatVerifier {
  import opened Bytes
  import opened Widths
  import opened VectorDownward
  import opened FlatFormat

  // ----- Schemas -----

  datatype FieldType =
    | Scalar(width: Width)
    | StringField
    | TableField(table: nat)
    | ScalarVector(width: Width)
    | StringVector
    | TableVector(table: nat)
    | UnionField(typeField: nat, cases: map<nat, nat>)

  datatype Field = Field(id: nat, type_: FieldType, required: bool)

  /** Tables refer to each other by number. */
  type Schema = seq<seq<Field>>

  /** Field ids are vtable offsets and table numbers are tables. */
  predicate IsSchema(schema: Schema) {
    forall t :: 0 <= t < |schema| ==> forall i :: 0 <= i < |schema[t]| ==> IsSchemaField(schema, schema[t][i])
  }

  predicate IsSchemaField(schema: Schema, f: Field) {
    && IsField(f.id)
    && match f.type_
       case TableField(t) => t < |schema|
       case TableVector(t) => t < |schema|
       case UnionField(tf, cases) => IsField(tf) && forall k :: k in cases ==> cases[k] < |schema|
       case _ => true
  }

  // ----- Checks that count nothing -----

  datatype Config = Config(buf: seq<byte>, maxDepth: nat, maxTables: nat, checkAlignment: bool)

  datatype State = State(depth: nat, tables: nat)

  datatype Verdict = Verdict(ok: bool, state: State)

  predicate Verify(c: Config, elem: nat, len: nat) {
    len < |c.buf| && elem <= |c.buf| - len
  }

  predicate VerifyAlignment(c: Config, elem: nat, w: Width) {
    IsAligned(elem, w) || !c.checkAlignment
  }

  predicate VerifyScalar(c: Config, elem: nat, w: Width) {
    VerifyAlignment(c, elem, w) && Verify(c, elem, w)
  }

  /** An offset that is not zero, not negative as a signed one, and leads inside. */
  predicate VerifyOffset(c: Config, start: nat) {
    && VerifyScalar(c, start, 4)
    && var o := ReadU32(c.buf, start);
       o != 0 && o < 0x8000_0000 && Verify(c, start + o, 1)
  }

  predicate VerifyVectorOrString(c: Config, vec: nat, w: Width) {
    && VerifyScalar(c, vec, 4)
    && var size := ReadU32(c.buf, vec);
       size < MAX_BUFFER_SIZE / w && Verify(c, vec, 4 + Times(size, w))
  }

  predicate VerifyString(c: Config, str: nat) {
    && VerifyVectorOrString(c, str, 1)
    && var end := str + 4 + ReadU32(c.buf, str);
       Verify(c, end, 1) && c.buf[end] == 0
  }

  predicate VerifyVectorOfStrings(c: Config, vec: nat)
    requires vec + 4 <= |c.buf| && vec + 4 + 4 * ReadU32(c.buf, vec) <= |c.buf|
  {
    forall i :: 0 <= i < ReadU32(c.buf, vec) ==> VerifyString(c, GetIndirect(c.buf, vec, i))
  }

  /** The vtable's position is computed modulo 2^64; one before the buffer becomes one far after. */
  predicate VerifyVTable(c: Config, table: nat)
    requires table + 4 <= |c.buf|
  {
    var vtable := GetVTable(c.buf, table);
    && 0 <= vtable && VerifyScalar(c, vtable, 2)
    && var vsize := ReadU16(c.buf, vtable);
       VerifyAlignment(c, vsize, 2) && vsize % 2 == 0 && Verify(c, vtable, vsize)
  }

  lemma VTableVerified(c: Config, table: nat)
    requires table + 4 <= |c.buf| && VerifyVTable(c, table)
    ensures HasVTable(c.buf, table)
  {
  }

  /** `VerifyField` and `VerifyFieldRequired`. */
  predicate VerifyField(c: Config, table: nat, f: Field, w: Width)
    requires HasVTable(c.buf, table) && IsField(f.id)
  {
    var fieldOffset := GetOptionalFieldOffset(c.buf, table, f.id);
    if fieldOffset == 0 then !f.required else VerifyScalar(c, table + fieldOffset, w)
  }

  /** `VerifyOffset` and `VerifyOffsetRequired`. */
  predicate VerifyOffsetField(c: Config, table: nat, f: Field)
    requires HasVTable(c.buf, table) && IsField(f.id)
  {
    var fieldOffset := GetOptionalFieldOffset(c.buf, table, f.id);
    if fieldOffset == 0 then !f.required else VerifyOffset(c, table + fieldOffset)
  }

  // ----- Tables -----

  /** A verification starts at most one table more than the limit, never deeper than one beyond the
      maximum, and if it succeeds is as deep as before. */
  predicate Bounded(c: Config, before: State, v: Verdict) {
    && before.tables <= v.state.tables <= c.maxTables + 1
    && before.depth <= v.state.depth <= c.maxDepth + 1
    && (v.ok ==> v.state.depth == before.depth && v.state.tables <= c.maxTables)
  }

  function Enter(s: State): State {
    State(s.depth + 1, s.tables + 1)
  }

  predicate Within(c: Config, s: State) {
    s.depth <= c.maxDepth && s.tables <= c.maxTables
  }

  /** The generated `Verify` of table number t, at position p. */
  function VerifyTable(c: Config, schema: Schema, t: nat, p: nat, s: State): (v: Verdict)
    requires IsSchema(schema) && t < |schema| && Within(c, s)
    ensures Bounded(c, s, v)
    decreases c.maxTables - s.tables, 0, 0
  {
    if !VerifyScalar(c, p, 4) then Verdict(false, s)
    else
      var e := Enter(s);
      if !Within(c, e) || !VerifyVTable(c, p) then Verdict(false, e)
      else
        VTableVerified(c, p);
        var v := VerifyFields(c, schema, t, 0, p, e);
        if v.ok then Verdict(true, v.state.(depth := s.depth)) else v
  }

  /** Its fields from number i on. */
  function VerifyFields(c: Config, schema: Schema, t: nat, i: nat, p: nat, s: State): (v: Verdict)
    requires IsSchema(schema) && t < |schema| && i <= |schema[t]| && HasVTable(c.buf, p) && Within(c, s)
    ensures Bounded(c, s, v)
    decreases c.maxTables - s.tables, 3, |schema[t]| - i
  {
    if i == |schema[t]| then Verdict(true, s)
    else
      var v := VerifyMember(c, schema, schema[t][i], p, s);
      if v.ok then VerifyFields(c, schema, t, i + 1, p, v.state) else v
  }

  function VerifyMember(c: Config, schema: Schema, f: Field, p: nat, s: State): (v: Verdict)
    requires IsSchema(schema) && IsSchemaField(schema, f) && HasVTable(c.buf, p) && Within(c, s)
    ensures Bounded(c, s, v)
    decreases c.maxTables - s.tables, 2, 0
  {
    if f.type_.Scalar? then Verdict(VerifyField(c, p, f, f.type_.width), s)
    else if !VerifyOffsetField(c, p, f) then Verdict(false, s)
    else
      var target := GetPointer(c.buf, p, f.id);
      if target.None? then Verdict(true, s) else VerifyTarget(c, schema, f.type_, p, target.value, s)
  }

  /** What an offset field leads to. */
  function VerifyTarget(c: Config, schema: Schema, ft: FieldType, p: nat, q: nat, s: State): (v: Verdict)
    requires IsSchema(schema) && !ft.Scalar? && IsSchemaField(schema, Field(4, ft, false)) && HasVTable(c.buf, p)
      && Within(c, s)
    ensures Bounded(c, s, v)
    decreases c.maxTables - s.tables, 1, 0
  {
    match ft
    case StringField => Verdict(VerifyString(c, q), s)
    case TableField(t) => VerifyTable(c, schema, t, q, s)
    case ScalarVector(w) => Verdict(VerifyVectorOrString(c, q, w), s)
    case StringVector => Verdict(VerifyVectorOrString(c, q, 4) && VerifyVectorOfStrings(c, q), s)
    case TableVector(t) =>
      if VerifyVectorOrString(c, q, 4) then VerifyTables(c, schema, t, q, 0, ReadU32(c.buf, q), s)
        else Verdict(false, s)
    case UnionField(tf, cases) =>
      if FieldInside(c.buf, p, tf, 1) && GetField(c.buf, p, tf, 1, 0) in cases then
        VerifyTable(c, schema, cases[GetField(c.buf, p, tf, 1, 0)], q, s)
      else Verdict(FieldInside(c.buf, p, tf, 1), s)
  }

  /** Elements i up to n of a vector of tables. */
  function VerifyTables(c: Config, schema: Schema, t: nat, vec: nat, i: nat, n: nat, s: State): (v: Verdict)
    requires IsSchema(schema) && t < |schema| && i <= n && vec + 4 + 4 * n <= |c.buf| && Within(c, s)
    ensures Bounded(c, s, v)
    decreases c.maxTables - s.tables, 0, n - i + 1
  {
    if i == n then Verdict(true, s)
    else
      var v := VerifyTable(c, schema, t, GetIndirect(c.buf, vec, i), s);
      if v.ok then VerifyTables(c, schema, t, vec, i + 1, n, v.state) else v
  }

  /** A root offset, a table without fields, and a vtable without entries. */
  const MIN_BUFFER_SIZE: nat := 12

  /** `VerifyBufferFromStart`, with fresh counters: the identifier, the root offset, the root. */
  function VerifyBuffer(c: Config, schema: Schema, t: nat, id: Option<seq<byte>>, start: nat): Verdict
    requires IsSchema(schema) && t < |schema|
  {
    var s := State(0, 0);
    if |c.buf| < MIN_BUFFER_SIZE then Verdict(false, s)
    else if id.Some? && !BytesAt(c.buf, start + 4, id.value) then Verdict(false, s)
    else if !VerifyOffset(c, start) then Verdict(false, s)
    else VerifyTable(c, schema, t, GetRoot(c.buf, start), s)
  }

  function VerifySizePrefixedBuffer(c: Config, schema: Schema, t: nat, id: Option<seq<byte>>): Verdict
    requires IsSchema(schema) && t < |schema|
  {
    if VerifyScalar(c, 0, 4) && ReadU32(c.buf, 0) == |c.buf| - 4 then VerifyBuffer(c, schema, t, id, 4)
    else Verdict(false, State(0, 0))
  }

  // ----- Verification as it runs -----

  class Verifier {
    const c: Config
    const schema: Schema
    var depth: nat
    var numTables: nat

    constructor (c: Config, schema: Schema)
      ensures this.c == c && this.schema == schema && depth == 0 && numTables == 0
    {
      this.c, this.schema := c, schema;
      depth, numTables := 0, 0;
    }

    function Counters(): State
      reads this
    {
      State(depth, numTables)
    }

    method VerifyComplexity() returns (ok: bool)
      modifies this`depth, this`numTables
      ensures Counters() == Enter(old(Counters())) && ok == Within(c, Counters())
    {
      depth := depth + 1;
      numTables := numTables + 1;
      return depth <= c.maxDepth && numTables <= c.maxTables;
    }

    method CheckTable(t: nat, p: nat) returns (ok: bool)
      requires IsSchema(schema) && t < |schema| && Within(c, Counters())
      modifies this`depth, this`numTables
      ensures Verdict(ok, Counters()) == VerifyTable(c, schema, t, p, old(Counters()))
      decreases c.maxTables - numTables, 0, 0
    {
      if !VerifyScalar(c, p, 4) {
        return false;
      }
      ok := VerifyComplexity();
      if !ok || !VerifyVTable(c, p) {
        return false;
      }
      VTableVerified(c, p);
      ok := CheckFields(t, p);
      if ok {
        depth := depth - 1;
      }
    }

    method CheckFields(t: nat, p: nat) returns (ok: bool)
      requires IsSchema(schema) && t < |schema| && HasVTable(c.buf, p) && Within(c, Counters())
      modifies this`depth, this`numTables
      ensures Verdict(ok, Counters()) == VerifyFields(c, schema, t, 0, p, old(Counters()))
      decreases c.maxTables - numTables, 3, 0
    {
      for i := 0 to |schema[t]|
        invariant Within(c, Counters()) && numTables >= old(numTables)
        invariant VerifyFields(c, schema, t, i, p, Counters()) == VerifyFields(c, schema, t, 0, p, old(Counters()))
      {
        var each := CheckMember(schema[t][i], p);
        if !each {
          return false;
        }
      }
      return true;
    }

    method CheckMember(f: Field, p: nat) returns (ok: bool)
      requires IsSchema(schema) && IsSchemaField(schema, f) && HasVTable(c.buf, p) && Within(c, Counters())
      modifies this`depth, this`numTables
      ensures Verdict(ok, Counters()) == VerifyMember(c, schema, f, p, old(Counters()))
      decreases c.maxTables - numTables, 2, 0
    {
      if f.type_.Scalar? {
        return VerifyField(c, p, f, f.type_.width);
      }
      if !VerifyOffsetField(c, p, f) {
        return false;
      }
      var target := GetPointer(c.buf, p, f.id);
      ok := true;
      if target.Some? {
        ok := CheckTarget(f.type_, p, target.value);
      }
    }

    method CheckTarget(ft: FieldType, p: nat, q: nat) returns (ok: bool)
      requires IsSchema(schema) && !ft.Scalar? && IsSchemaField(schema, Field(4, ft, false)) && HasVTable(c.buf, p)
      requires Within(c, Counters())
      modifies this`depth, this`numTables
      ensures Verdict(ok, Counters()) == VerifyTarget(c, schema, ft, p, q, old(Counters()))
      decreases c.maxTables - numTables, 1, 0
    {
      match ft {
        case StringField => ok := VerifyString(c, q);
        case TableField(t) => ok := CheckTable(t, q);
        case ScalarVector(w) => ok := VerifyVectorOrString(c, q, w);
        case StringVector => ok := VerifyVectorOrString(c, q, 4) && VerifyVectorOfStrings(c, q);
        case TableVector(t) =>
          ok := VerifyVectorOrString(c, q, 4);
          if ok {
            ok := CheckTables(t, q, ReadU32(c.buf, q));
          }
        case UnionField(tf, cases) =>
          ok := FieldInside(c.buf, p, tf, 1);
          if ok && GetField(c.buf, p, tf, 1, 0) in cases {
            ok := CheckTable(cases[GetField(c.buf, p, tf, 1, 0)], q);
          }
      }
    }

    /** `VerifyVectorOfTables` */
    method CheckTables(t: nat, vec: nat, n: nat) returns (ok: bool)
      requires IsSchema(schema) && t < |schema| && vec + 4 + 4 * n <= |c.buf| && Within(c, Counters())
      modifies this`depth, this`numTables
      ensures Verdict(ok, Counters()) == VerifyTables(c, schema, t, vec, 0, n, old(Counters()))
      decreases c.maxTables - numTables, 0, 1
    {
      for i := 0 to n
        invariant Within(c, Counters()) && numTables >= old(numTables)
        invariant VerifyTables(c, schema, t, vec, i, n, Counters())
          == VerifyTables(c, schema, t, vec, 0, n, old(Counters()))
      {
        var each := CheckTable(t, GetIndirect(c.buf, vec, i));
        if !each {
          return false;
        }
      }
      return true;
    }
  }

  // ----- What a verified buffer guarantees, whoever made it -----

  /** Every accessor of table number t at p, followed through up to n further tables, reads only
      inside buf: vtable entries, scalars, lengths, elements, characters and terminators. */
  ghost predicate SafeTable(buf: seq<byte>, schema: Schema, t: nat, p: nat, n: nat)
    requires IsSchema(schema) && t < |schema|
    decreases n, 1
  {
    HasVTable(buf, p) && forall i :: 0 <= i < |schema[t]| ==> SafeField(buf, schema, schema[t][i], p, n)
  }

  ghost predicate SafeField(buf: seq<byte>, schema: Schema, f: Field, p: nat, n: nat)
    requires IsSchema(schema) && IsSchemaField(schema, f)
    decreases n, 0, 1
  {
    if f.type_.Scalar? then FieldInside(buf, p, f.id, f.type_.width)
    else
      && FieldInside(buf, p, f.id, 4)
      && (GetPointer(buf, p, f.id).Some? ==> SafeTarget(buf, schema, f.type_, p, GetPointer(buf, p, f.id).value, n))
  }

  ghost predicate SafeTarget(buf: seq<byte>, schema: Schema, ft: FieldType, p: nat, q: nat, n: nat)
    requires IsSchema(schema) && !ft.Scalar? && IsSchemaField(schema, Field(4, ft, false))
    decreases n, 0, 0
  {
    match ft
    case StringField => SafeString(buf, q)
    case TableField(t) => n > 0 ==> SafeTable(buf, schema, t, q, n - 1)
    case ScalarVector(w) => SafeVector(buf, q, w)
    case StringVector =>
      SafeVector(buf, q, 4) && forall i :: 0 <= i < ReadU32(buf, q) ==> SafeString(buf, GetIndirect(buf, q, i))
    case TableVector(t) =>
      && SafeVector(buf, q, 4)
      && (n > 0 ==> forall i :: 0 <= i < ReadU32(buf, q) ==> SafeTable(buf, schema, t, GetIndirect(buf, q, i), n - 1))
    case UnionField(tf, cases) =>
      && FieldInside(buf, p, tf, 1)
      && (n > 0 && GetField(buf, p, tf, 1, 0) in cases ==>
            SafeTable(buf, schema, cases[GetField(buf, p, tf, 1, 0)], q, n - 1))
  }

  predicate SafeVector(buf: seq<byte>, vec: nat, w: Width) {
    vec + 4 <= |buf| && vec + 4 + Times(ReadU32(buf, vec), w) <= |buf|
  }

  /** The string is inside, and so is its terminator. */
  predicate SafeString(buf: seq<byte>, str: nat) {
    SafeVector(buf, str, 1) && str + 4 + ReadU32(buf, str) < |buf| && buf[str + 4 + ReadU32(buf, str)] == 0
  }

  lemma {:induction false} VerifiedTableIsSafe(c: Config, schema: Schema, t: nat, p: nat, s: State, n: nat)
    requires IsSchema(schema) && t < |schema| && Within(c, s) && VerifyTable(c, schema, t, p, s).ok
    ensures SafeTable(c.buf, schema, t, p, n)
    decreases n, 2
  {
    VTableVerified(c, p);
    forall i | 0 <= i < |schema[t]| ensures SafeField(c.buf, schema, schema[t][i], p, n) {
      var e := VerifiedMember(c, schema, t, 0, p, Enter(s), i);
      VerifiedMemberIsSafe(c, schema, schema[t][i], p, e, n);
    }
  }

  /** Every field of a verified table was verified, from some state. */
  lemma {:induction false} VerifiedMember(c: Config, schema: Schema, t: nat, i: nat, p: nat, s: State, k: nat)
    returns (e: State)
    requires IsSchema(schema) && t < |schema| && i <= k < |schema[t]| && HasVTable(c.buf, p) && Within(c, s)
    requires VerifyFields(c, schema, t, i, p, s).ok
    ensures Within(c, e) && VerifyMember(c, schema, schema[t][k], p, e).ok
    decreases k - i
  {
    if i == k {
      e := s;
    } else {
      e := VerifiedMember(c, schema, t, i + 1, p, VerifyMember(c, schema, schema[t][i], p, s).state, k);
    }
  }

  lemma {:induction false} VerifiedMemberIsSafe(c: Config, schema: Schema, f: Field, p: nat, s: State, n: nat)
    requires IsSchema(schema) && IsSchemaField(schema, f) && HasVTable(c.buf, p) && Within(c, s)
    requires VerifyMember(c, schema, f, p, s).ok
    ensures SafeField(c.buf, schema, f, p, n)
    decreases n, 1
  {
    if !f.type_.Scalar? && GetPointer(c.buf, p, f.id).Some? {
      VerifiedTargetIsSafe(c, schema, f.type_, p, GetPointer(c.buf, p, f.id).value, s, n);
    }
  }

  lemma {:induction false} VerifiedTargetIsSafe(c: Config, schema: Schema, ft: FieldType, p: nat, q: nat, s: State,
                                                n: nat)
    requires IsSchema(schema) && !ft.Scalar? && IsSchemaField(schema, Field(4, ft, false)) && HasVTable(c.buf, p)
      && Within(c, s)
    requires VerifyTarget(c, schema, ft, p, q, s).ok
    ensures SafeTarget(c.buf, schema, ft, p, q, n)
    decreases n, 0
  {
    if n > 0 {
      if ft.TableField? {
        VerifiedTableIsSafe(c, schema, ft.table, q, s, n - 1);
      } else if ft.TableVector? {
        forall i | 0 <= i < ReadU32(c.buf, q)
          ensures SafeTable(c.buf, schema, ft.table, GetIndirect(c.buf, q, i), n - 1) {
          var e := VerifiedElement(c, schema, ft.table, q, 0, ReadU32(c.buf, q), s, i);
          VerifiedTableIsSafe(c, schema, ft.table, GetIndirect(c.buf, q, i), e, n - 1);
        }
      } else if ft.UnionField? && GetField(c.buf, p, ft.typeField, 1, 0) in ft.cases {
        VerifiedTableIsSafe(c, schema, ft.cases[GetField(c.buf, p, ft.typeField, 1, 0)], q, s, n - 1);
      }
    }
  }

  lemma {:induction false} VerifiedElement(c: Config, schema: Schema, t: nat, vec: nat, i: nat, n: nat, s: State,
                                           k: nat)
    returns (e: State)
    requires IsSchema(schema) && t < |schema| && i <= k < n && vec + 4 + 4 * n <= |c.buf| && Within(c, s)
    requires VerifyTables(c, schema, t, vec, i, n, s).ok
    ensures Within(c, e) && VerifyTable(c, schema, t, GetIndirect(c.buf, vec, k), e).ok
    decreases k - i
  {
    if i == k {
      e := s;
    } else {
      var v := VerifyTable(c, schema, t, GetIndirect(c.buf, vec, i), s);
      e := VerifiedElement(c, schema, t, vec, i + 1, n, v.state, k);
    }
  }

  /** A verified buffer is safe to read from its root along any path. */
  lemma VerifiedBufferIsSafe(c: Config, schema: Schema, t: nat, id: Option<seq<byte>>, start: nat, n: nat)
    requires IsSchema(schema) && t < |schema| && VerifyBuffer(c, schema, t, id, start).ok
    ensures start + 4 <= |c.buf| && SafeTable(c.buf, schema, t, GetRoot(c.buf, start), n)
  {
    VerifiedTableIsSafe(c, schema, t, GetRoot(c.buf, start), State(0, 0), n);
  }
}
