/** What the FlatBuffers verifier accepts, for any bytes: a definition without its counters, its order or
    its early ends, and the proof that the two agree. */
module FlatWellFormed {
  import opened Bytes
  import opened Widths
  import opened FlatFormat
  import opened FlatVerifier

  /** A scalar of w bytes at p: inside and, where that is asked for, at a multiple of w. */
  predicate ScalarAt(buf: seq<byte>, aligned: bool, p: nat, w: Width) {
    (aligned ==> p % w == 0) && Inside(buf, p, w)
  }

  predicate VTableFor(buf: seq<byte>, aligned: bool, table: nat) {
    && table + 4 <= |buf| && 0 <= GetVTable(buf, table)
    && ScalarAt(buf, aligned, GetVTable(buf, table), 2)
    && var size := ReadU16(buf, GetVTable(buf, table));
       size % 2 == 0 && Inside(buf, GetVTable(buf, table), size)
  }

  /** An offset at p that leads forward, by less than 2 GB, to a byte inside. */
  predicate OffsetAt(buf: seq<byte>, aligned: bool, p: nat) {
    && ScalarAt(buf, aligned, p, 4)
    && 1 <= ReadU32(buf, p) <= 0x7FFF_FFFF && p + ReadU32(buf, p) < |buf|
  }

  /** A length at p, and so many elements of w bytes. */
  predicate VectorAt(buf: seq<byte>, aligned: bool, p: nat, w: Width) {
    && ScalarAt(buf, aligned, p, 4)
    && ReadU32(buf, p) < 0x7FFF_FFFF / w && Inside(buf, p, 4 + ReadU32(buf, p) * w)
  }

  predicate StringAt(buf: seq<byte>, aligned: bool, p: nat) {
    && VectorAt(buf, aligned, p, 1)
    && p + 4 + ReadU32(buf, p) < |buf| && buf[p + 4 + ReadU32(buf, p)] == 0
  }

  /** Table number t at p, nested at most n deep. */
  ghost predicate TableWellFormed(buf: seq<byte>, aligned: bool, schema: Schema, t: nat, p: nat, n: nat)
    requires IsSchema(schema) && t < |schema|
    decreases n, 2, 0
  {
    && n > 0 && ScalarAt(buf, aligned, p, 4) && VTableFor(buf, aligned, p)
    && forall i :: 0 <= i < |schema[t]| ==> FieldWellFormed(buf, aligned, schema, schema[t][i], p, n - 1)
  }

  /** A field of the table at p, whose sub-tables are nested at most n deep. */
  ghost predicate FieldWellFormed(buf: seq<byte>, aligned: bool, schema: Schema, f: Field, p: nat, n: nat)
    requires IsSchema(schema) && IsSchemaField(schema, f) && HasVTable(buf, p)
    decreases n + 1, 1, 0
  {
    var e := GetOptionalFieldOffset(buf, p, f.id);
    if e == 0 then !f.required
    else if f.type_.Scalar? then ScalarAt(buf, aligned, p + e, f.type_.width)
    else OffsetAt(buf, aligned, p + e) && TargetWellFormed(buf, aligned, schema, f.type_, p, Follow(buf, p + e), n)
  }

  ghost predicate TargetWellFormed(buf: seq<byte>, aligned: bool, schema: Schema, ft: FieldType, p: nat, q: nat,
                                   n: nat)
    requires IsSchema(schema) && !ft.Scalar? && IsSchemaField(schema, Field(4, ft, false)) && HasVTable(buf, p)
    decreases n + 1, 0, 0
  {
    match ft
    case StringField => StringAt(buf, aligned, q)
    case TableField(t) => TableWellFormed(buf, aligned, schema, t, q, n)
    case ScalarVector(w) => VectorAt(buf, aligned, q, w)
    case StringVector =>
      && VectorAt(buf, aligned, q, 4)
      && forall i :: 0 <= i < ReadU32(buf, q) ==> StringAt(buf, aligned, GetIndirect(buf, q, i))
    case TableVector(t) =>
      && VectorAt(buf, aligned, q, 4)
      && forall i :: 0 <= i < ReadU32(buf, q) ==>
        TableWellFormed(buf, aligned, schema, t, GetIndirect(buf, q, i), n)
    case UnionField(tf, cases) =>
      && FieldInside(buf, p, tf, 1)
      && (GetField(buf, p, tf, 1, 0) in cases ==>
            TableWellFormed(buf, aligned, schema, cases[GetField(buf, p, tf, 1, 0)], q, n))
  }

  // ----- How many tables there are -----

  ghost function TablesOf(buf: seq<byte>, aligned: bool, schema: Schema, t: nat, p: nat, n: nat): nat
    requires IsSchema(schema) && t < |schema| && TableWellFormed(buf, aligned, schema, t, p, n)
    decreases n, 2, 0
  {
    1 + TablesOfFields(buf, aligned, schema, t, 0, p, n - 1)
  }

  ghost predicate FieldsWellFormed(buf: seq<byte>, aligned: bool, schema: Schema, t: nat, i: nat, p: nat, n: nat)
    requires IsSchema(schema) && t < |schema| && HasVTable(buf, p)
  {
    forall k :: i <= k < |schema[t]| ==> FieldWellFormed(buf, aligned, schema, schema[t][k], p, n)
  }

  /** In the fields from number i on. */
  ghost function TablesOfFields(buf: seq<byte>, aligned: bool, schema: Schema, t: nat, i: nat, p: nat, n: nat): nat
    requires IsSchema(schema) && t < |schema| && i <= |schema[t]| && HasVTable(buf, p)
    requires FieldsWellFormed(buf, aligned, schema, t, i, p, n)
    decreases n + 1, 1, |schema[t]| - i
  {
    if i == |schema[t]| then 0
    else
      TablesOfField(buf, aligned, schema, schema[t][i], p, n)
      + TablesOfFields(buf, aligned, schema, t, i + 1, p, n)
  }

  ghost function TablesOfField(buf: seq<byte>, aligned: bool, schema: Schema, f: Field, p: nat, n: nat): nat
    requires IsSchema(schema) && IsSchemaField(schema, f) && HasVTable(buf, p)
    requires FieldWellFormed(buf, aligned, schema, f, p, n)
    decreases n + 1, 0, 1
  {
    var e := GetOptionalFieldOffset(buf, p, f.id);
    if e == 0 || f.type_.Scalar? then 0 else TablesOfTarget(buf, aligned, schema, f.type_, p, Follow(buf, p + e), n)
  }

  ghost function TablesOfTarget(buf: seq<byte>, aligned: bool, schema: Schema, ft: FieldType, p: nat, q: nat,
                                n: nat): nat
    requires IsSchema(schema) && !ft.Scalar? && IsSchemaField(schema, Field(4, ft, false)) && HasVTable(buf, p)
    requires TargetWellFormed(buf, aligned, schema, ft, p, q, n)
    decreases n + 1, 0, 0
  {
    if ft.TableField? then TablesOf(buf, aligned, schema, ft.table, q, n)
    else if ft.TableVector? then TablesOfElements(buf, aligned, schema, ft.table, q, 0, ReadU32(buf, q), n)
    else if ft.UnionField? && GetField(buf, p, ft.typeField, 1, 0) in ft.cases then
      TablesOf(buf, aligned, schema, ft.cases[GetField(buf, p, ft.typeField, 1, 0)], q, n)
    else 0
  }

  ghost predicate ElementsWellFormed(buf: seq<byte>, aligned: bool, schema: Schema, t: nat, vec: nat, i: nat, m: nat,
                                     n: nat)
    requires IsSchema(schema) && t < |schema| && vec + 4 + 4 * m <= |buf|
  {
    forall k :: i <= k < m ==> TableWellFormed(buf, aligned, schema, t, GetIndirect(buf, vec, k), n)
  }

  /** In the elements from number i up to m of a vector of tables. */
  ghost function TablesOfElements(buf: seq<byte>, aligned: bool, schema: Schema, t: nat, vec: nat, i: nat, m: nat,
                                  n: nat): nat
    requires IsSchema(schema) && t < |schema| && i <= m && vec + 4 + 4 * m <= |buf|
    requires ElementsWellFormed(buf, aligned, schema, t, vec, i, m, n)
    decreases n, 3, m - i
  {
    if i == m then 0
    else
      TablesOf(buf, aligned, schema, t, GetIndirect(buf, vec, i), n)
      + TablesOfElements(buf, aligned, schema, t, vec, i + 1, m, n)
  }

  // ----- The checks that count nothing -----

  lemma ScalarExact(c: Config, p: nat, w: Width)
    ensures VerifyScalar(c, p, w) <==> ScalarAt(c.buf, c.checkAlignment, p, w)
  {
    AlignedIsMultiple(p, w);
  }

  lemma VTableExact(c: Config, p: nat)
    requires p + 4 <= |c.buf|
    ensures VerifyVTable(c, p) <==> VTableFor(c.buf, c.checkAlignment, p)
  {
    var v := GetVTable(c.buf, p);
    if v >= 0 {
      ScalarExact(c, v, 2);
    }
  }

  lemma OffsetExact(c: Config, p: nat)
    ensures VerifyOffset(c, p) <==> OffsetAt(c.buf, c.checkAlignment, p)
  {
    hide VerifyScalar;
    ScalarExact(c, p, 4);
  }

  lemma VectorExact(c: Config, p: nat, w: Width)
    ensures VerifyVectorOrString(c, p, w) <==> VectorAt(c.buf, c.checkAlignment, p, w)
  {
    hide VerifyScalar;
    ScalarExact(c, p, 4);
    if p + 4 <= |c.buf| {
      TimesIsProduct(ReadU32(c.buf, p), w);
    }
  }

  lemma StringExact(c: Config, p: nat)
    ensures VerifyString(c, p) <==> StringAt(c.buf, c.checkAlignment, p)
  {
    hide VerifyVectorOrString;
    VectorExact(c, p, 1);
  }

  lemma StringsExact(c: Config, vec: nat)
    requires vec + 4 <= |c.buf| && vec + 4 + 4 * ReadU32(c.buf, vec) <= |c.buf|
    ensures VerifyVectorOfStrings(c, vec) <==>
      forall i :: 0 <= i < ReadU32(c.buf, vec) ==> StringAt(c.buf, c.checkAlignment, GetIndirect(c.buf, vec, i))
  {
    hide VerifyString, StringAt;
    forall i | 0 <= i < ReadU32(c.buf, vec)
      ensures VerifyString(c, GetIndirect(c.buf, vec, i))
        <==> StringAt(c.buf, c.checkAlignment, GetIndirect(c.buf, vec, i))
    {
      StringExact(c, GetIndirect(c.buf, vec, i));
    }
  }

  // ----- Tables -----

  /** A verification succeeds exactly if what it is of is well formed and the tables fit the limit; then it
      has counted them. */
  ghost predicate Decides(c: Config, s: State, v: Verdict, wellFormed: bool, tables: nat) {
    && (v.ok <==> wellFormed && s.tables + tables <= c.maxTables)
    && (v.ok ==> v.state.tables == s.tables + tables)
  }

  lemma {:induction false} TableExact(c: Config, schema: Schema, t: nat, p: nat, s: State)
    requires IsSchema(schema) && t < |schema| && Within(c, s)
    ensures var n := c.maxDepth - s.depth;
      var w := TableWellFormed(c.buf, c.checkAlignment, schema, t, p, n);
      Decides(c, s, VerifyTable(c, schema, t, p, s), w,
        if w then TablesOf(c.buf, c.checkAlignment, schema, t, p, n) else 0)
    decreases c.maxDepth - s.depth, 2, 0
  {
    hide VerifyScalar, VerifyVTable, FieldWellFormed, ScalarAt, VTableFor, VerifyFields;
    ScalarExact(c, p, 4);
    if VerifyScalar(c, p, 4) {
      ScalarInside(c, p, 4);
      VTableExact(c, p);
      if Within(c, Enter(s)) && VerifyVTable(c, p) {
        VTableVerified(c, p);
        FieldsExact(c, schema, t, 0, p, Enter(s));
      }
    }
  }

  lemma ScalarInside(c: Config, p: nat, w: Width)
    requires VerifyScalar(c, p, w)
    ensures p + w <= |c.buf|
  {
  }

  lemma {:induction false} FieldsExact(c: Config, schema: Schema, t: nat, i: nat, p: nat, s: State)
    requires IsSchema(schema) && t < |schema| && i <= |schema[t]| && HasVTable(c.buf, p) && Within(c, s)
    ensures var n := c.maxDepth - s.depth;
      var w := FieldsWellFormed(c.buf, c.checkAlignment, schema, t, i, p, n);
      Decides(c, s, VerifyFields(c, schema, t, i, p, s), w,
        if w then TablesOfFields(c.buf, c.checkAlignment, schema, t, i, p, n) else 0)
    decreases c.maxDepth - s.depth + 1, 1, |schema[t]| - i
  {
    hide FieldWellFormed, VerifyMember, TablesOfField;
    if i < |schema[t]| {
      MemberExact(c, schema, schema[t][i], p, s);
      var v := VerifyMember(c, schema, schema[t][i], p, s);
      if v.ok {
        FieldsExact(c, schema, t, i + 1, p, v.state);
      }
    }
  }

  lemma {:induction false} MemberExact(c: Config, schema: Schema, f: Field, p: nat, s: State)
    requires IsSchema(schema) && IsSchemaField(schema, f) && HasVTable(c.buf, p) && Within(c, s)
    ensures var n := c.maxDepth - s.depth;
      var w := FieldWellFormed(c.buf, c.checkAlignment, schema, f, p, n);
      Decides(c, s, VerifyMember(c, schema, f, p, s), w,
        if w then TablesOfField(c.buf, c.checkAlignment, schema, f, p, n) else 0)
    decreases c.maxDepth - s.depth + 1, 0, 1
  {
    hide VerifyScalar, VerifyOffset, ScalarAt, OffsetAt, TargetWellFormed, TablesOfTarget, VerifyTarget, HasVTable;
    var e := GetOptionalFieldOffset(c.buf, p, f.id);
    if e != 0 {
      if f.type_.Scalar? {
        ScalarExact(c, p + e, f.type_.width);
      } else {
        OffsetExact(c, p + e);
        if VerifyOffset(c, p + e) {
          OffsetInside(c, p + e);
          TargetExact(c, schema, f.type_, p, Follow(c.buf, p + e), s);
        }
      }
    }
  }

  lemma OffsetInside(c: Config, p: nat)
    requires VerifyOffset(c, p)
    ensures p + 4 <= |c.buf|
  {
  }

  lemma {:induction false} TargetExact(c: Config, schema: Schema, ft: FieldType, p: nat, q: nat, s: State)
    requires IsSchema(schema) && !ft.Scalar? && IsSchemaField(schema, Field(4, ft, false)) && HasVTable(c.buf, p)
      && Within(c, s)
    ensures var n := c.maxDepth - s.depth;
      var w := TargetWellFormed(c.buf, c.checkAlignment, schema, ft, p, q, n);
      Decides(c, s, VerifyTarget(c, schema, ft, p, q, s), w,
        if w then TablesOfTarget(c.buf, c.checkAlignment, schema, ft, p, q, n) else 0)
    decreases c.maxDepth - s.depth + 1, 0, 0
  {
    hide VerifyVectorOrString, VectorAt, VerifyString, StringAt, VerifyVectorOfStrings, TableWellFormed, TablesOf,
      VerifyTable, HasVTable;
    match ft
    case StringField => StringExact(c, q);
    case TableField(t) => TableExact(c, schema, t, q, s);
    case ScalarVector(w) => VectorExact(c, q, w);
    case StringVector =>
      VectorExact(c, q, 4);
      if VerifyVectorOrString(c, q, 4) {
        VectorInside(c, q);
        StringsExact(c, q);
      }
    case TableVector(t) =>
      VectorExact(c, q, 4);
      if VerifyVectorOrString(c, q, 4) {
        VectorInside(c, q);
        ElementsExact(c, schema, t, q, 0, ReadU32(c.buf, q), s);
      }
    case UnionField(tf, cases) =>
      if FieldInside(c.buf, p, tf, 1) && GetField(c.buf, p, tf, 1, 0) in cases {
        TableExact(c, schema, cases[GetField(c.buf, p, tf, 1, 0)], q, s);
      }
  }

  lemma VectorInside(c: Config, vec: nat)
    requires VerifyVectorOrString(c, vec, 4)
    ensures vec + 4 <= |c.buf| && vec + 4 + 4 * ReadU32(c.buf, vec) <= |c.buf|
  {
  }

  lemma {:induction false} ElementsExact(c: Config, schema: Schema, t: nat, vec: nat, i: nat, m: nat, s: State)
    requires IsSchema(schema) && t < |schema| && i <= m && vec + 4 + 4 * m <= |c.buf| && Within(c, s)
    ensures var n := c.maxDepth - s.depth;
      var w := ElementsWellFormed(c.buf, c.checkAlignment, schema, t, vec, i, m, n);
      Decides(c, s, VerifyTables(c, schema, t, vec, i, m, s), w,
        if w then TablesOfElements(c.buf, c.checkAlignment, schema, t, vec, i, m, n) else 0)
    decreases c.maxDepth - s.depth, 3, m - i
  {
    hide TableWellFormed, VerifyTable, TablesOf;
    if i < m {
      TableExact(c, schema, t, GetIndirect(c.buf, vec, i), s);
      var v := VerifyTable(c, schema, t, GetIndirect(c.buf, vec, i), s);
      if v.ok {
        ElementsExact(c, schema, t, vec, i + 1, m, v.state);
      }
    }
  }

  /** With alignment checking, a verified table and what its fields store and lead to are at multiples of
      their widths. */
  lemma VerifiedIsAligned(c: Config, schema: Schema, t: nat, p: nat, s: State, i: nat)
    requires IsSchema(schema) && t < |schema| && Within(c, s) && VerifyTable(c, schema, t, p, s).ok
    requires c.checkAlignment && i < |schema[t]|
    ensures p % 4 == 0 && HasVTable(c.buf, p) && GetVTable(c.buf, p) % 2 == 0
    ensures var f, e := schema[t][i], GetOptionalFieldOffset(c.buf, p, schema[t][i].id);
      e != 0 ==>
        if f.type_.Scalar? then (p + e) % f.type_.width == 0
        else
          && (p + e) % 4 == 0 && p + e + 4 <= |c.buf|
          && (f.type_.UnionField? || Follow(c.buf, p + e) % 4 == 0)
  {
    hide FieldWellFormed, VerifyTable, TablesOf;
    TableExact(c, schema, t, p, s);
    FieldAligned(c.buf, schema, schema[t][i], p, c.maxDepth - s.depth - 1);
  }

  lemma FieldAligned(buf: seq<byte>, schema: Schema, f: Field, p: nat, n: nat)
    requires IsSchema(schema) && IsSchemaField(schema, f) && HasVTable(buf, p)
    requires FieldWellFormed(buf, true, schema, f, p, n)
    ensures var e := GetOptionalFieldOffset(buf, p, f.id);
      e != 0 ==>
        if f.type_.Scalar? then (p + e) % f.type_.width == 0
        else
          (p + e) % 4 == 0 && p + e + 4 <= |buf| && (f.type_.UnionField? || Follow(buf, p + e) % 4 == 0)
  {
    hide TargetWellFormed, HasVTable, ReadUnsigned;
    var e := GetOptionalFieldOffset(buf, p, f.id);
    if e != 0 && !f.type_.Scalar? && !f.type_.UnionField? {
      TargetAligned(buf, schema, f.type_, p, Follow(buf, p + e), n);
    }
  }

  lemma TargetAligned(buf: seq<byte>, schema: Schema, ft: FieldType, p: nat, q: nat, n: nat)
    requires IsSchema(schema) && !ft.Scalar? && IsSchemaField(schema, Field(4, ft, false)) && HasVTable(buf, p)
    requires TargetWellFormed(buf, true, schema, ft, p, q, n) && !ft.UnionField?
    ensures q % 4 == 0
  {
    hide FieldWellFormed, HasVTable, ReadUnsigned, VTableFor, Inside;
    if ft.TableField? {
      assert TableWellFormed(buf, true, schema, ft.table, q, n);
    } else {
      assert ScalarAt(buf, true, q, 4);
    }
  }

  // ----- Whole buffers -----

  /** A buffer of at least twelve bytes with the identifier asked for and a well-formed root. */
  ghost predicate BufferWellFormed(buf: seq<byte>, aligned: bool, schema: Schema, t: nat, id: Option<seq<byte>>,
                                   start: nat, n: nat)
    requires IsSchema(schema) && t < |schema|
  {
    && 12 <= |buf| && (id.Some? ==> BytesAt(buf, start + 4, id.value))
    && OffsetAt(buf, aligned, start) && TableWellFormed(buf, aligned, schema, t, Follow(buf, start), n)
  }

  /** Any bytes verify exactly if they are well formed, nested no deeper and of no more tables than allowed. */
  lemma VerifiesExactly(c: Config, schema: Schema, t: nat, id: Option<seq<byte>>, start: nat)
    requires IsSchema(schema) && t < |schema|
    ensures VerifyBuffer(c, schema, t, id, start).ok <==>
      && BufferWellFormed(c.buf, c.checkAlignment, schema, t, id, start, c.maxDepth)
      && TablesOf(c.buf, c.checkAlignment, schema, t, Follow(c.buf, start), c.maxDepth) <= c.maxTables
  {
    hide TableWellFormed, VerifyTable, TablesOf, OffsetAt, VerifyOffset;
    OffsetExact(c, start);
    if VerifyOffset(c, start) {
      OffsetInside(c, start);
      TableExact(c, schema, t, Follow(c.buf, start), State(0, 0));
    }
  }

  /** With a size prefix, that prefix is the number of bytes that follow it. */
  lemma SizePrefixedExactly(c: Config, schema: Schema, t: nat, id: Option<seq<byte>>)
    requires IsSchema(schema) && t < |schema|
    ensures VerifySizePrefixedBuffer(c, schema, t, id).ok <==>
      && |c.buf| > 4 && ReadU32(c.buf, 0) == |c.buf| - 4
      && BufferWellFormed(c.buf, c.checkAlignment, schema, t, id, 4, c.maxDepth)
      && TablesOf(c.buf, c.checkAlignment, schema, t, Follow(c.buf, 4), c.maxDepth) <= c.maxTables
  {
    hide BufferWellFormed, TablesOf, VerifyBuffer;
    VerifiesExactly(c, schema, t, id, 4);
  }
}
