/** Sharing does not change what the verifier says either: what is alike conforms to the same schemas, at the
    same cost. */
module FlatVerdict {
  import opened Bytes
  import opened FlatObjects
  import opened FlatVerifier
  import opened FlatAccepts
  import opened FlatSharing

  /** What is alike and, in the first of two builders, a table of a schema is one in the second, and verifying
      it takes as many tables and as much nesting. */
  lemma {:induction false} TablesAgree(back1: seq<byte>, a: map<nat, Obj>, p: nat, back2: seq<byte>,
                                       b: map<nat, Obj>, q: nat, schema: Schema, t: nat)
    requires AllAt(back1, a) && AllAt(back2, b) && Alike(a, p, b, q) && Conforms(a, schema, t, p)
    ensures Conforms(b, schema, t, q)
    ensures Visits(a, schema, t, p) == Visits(b, schema, t, q) && Levels(a, schema, t, p) == Levels(b, schema, t, q)
    decreases p, 2, 0
  {
    hide AllAt, FieldConforms, SlotsAlike, FieldsVisits, FieldsLevels;
    forall i | 0 <= i < |schema[t]| ensures FieldConforms(b, schema, schema[t][i], b[q].slots, q) {
      FieldAgrees(back1, a, p, back2, b, q, schema, schema[t][i]);
    }
    FieldsAgree(back1, a, p, back2, b, q, schema, t, 0);
  }

  lemma {:induction false} FieldsAgree(back1: seq<byte>, a: map<nat, Obj>, p: nat, back2: seq<byte>,
                                       b: map<nat, Obj>, q: nat, schema: Schema, t: nat, i: nat)
    requires AllAt(back1, a) && AllAt(back2, b) && Alike(a, p, b, q) && Conforms(a, schema, t, p) && i <= |schema[t]|
    ensures FieldsVisits(a, schema, t, i, a[p].slots, p) == FieldsVisits(b, schema, t, i, b[q].slots, q)
    ensures FieldsLevels(a, schema, t, i, a[p].slots, p) == FieldsLevels(b, schema, t, i, b[q].slots, q)
    decreases p, 1, |schema[t]| - i
  {
    hide AllAt, FieldConforms, SlotsAlike, FieldVisits, FieldLevels;
    if i < |schema[t]| {
      FieldAgrees(back1, a, p, back2, b, q, schema, schema[t][i]);
      FieldsAgree(back1, a, p, back2, b, q, schema, t, i + 1);
    }
  }

  lemma {:induction false} FieldAgrees(back1: seq<byte>, a: map<nat, Obj>, p: nat, back2: seq<byte>,
                                       b: map<nat, Obj>, q: nat, schema: Schema, f: Field)
    requires AllAt(back1, a) && AllAt(back2, b) && Alike(a, p, b, q) && a[p].Table?
    requires FieldConforms(a, schema, f, a[p].slots, p)
    ensures FieldConforms(b, schema, f, b[q].slots, q)
    ensures FieldVisits(a, schema, f, a[p].slots, p) == FieldVisits(b, schema, f, b[q].slots, q)
    ensures FieldLevels(a, schema, f, a[p].slots, p) == FieldLevels(b, schema, f, b[q].slots, q)
    decreases p, 0, 0
  {
    hide AllAt, TargetConforms, TargetVisits, TargetLevels;
    var s, t := a[p].slots, b[q].slots;
    if f.id in s {
      assert SlotAlike(a, p, s[f.id], b, t[f.id]);
      if s[f.id].Ref? {
        TargetBelow(back2, b, q, f.id);
        TargetAgrees(back1, a, back2, b, schema, f.type_, p, s, t, s[f.id].target, t[f.id].target);
      }
    }
  }

  /** An offset leads back. */
  lemma TargetBelow(back: seq<byte>, b: map<nat, Obj>, q: nat, field: nat)
    requires AllAt(back, b) && q in b && b[q].Table? && field in b[q].slots && b[q].slots[field].Ref?
    ensures b[q].slots[field].target < q
  {
    assert ObjAt(back, q, b[q]);
    assert FieldAt(back, q, VTableOf(back, q), field, b[q].slots);
  }

  lemma ElementsBelow(back: seq<byte>, b: map<nat, Obj>, q: nat)
    requires AllAt(back, b) && q in b && b[q].Offsets?
    ensures forall i :: 0 <= i < |b[q].targets| ==> b[q].targets[i] < q
  {
    assert ObjAt(back, q, b[q]);
    forall i | 0 <= i < |b[q].targets| ensures b[q].targets[i] < q {
      assert SlotAt(back, q - 4 - 4 * i, Ref(b[q].targets[i]));
    }
  }

  lemma {:induction false} TargetAgrees(back1: seq<byte>, a: map<nat, Obj>, back2: seq<byte>, b: map<nat, Obj>,
                                        schema: Schema, ft: FieldType, p: nat, s: map<nat, Slot>, t: map<nat, Slot>,
                                        x: nat, y: nat)
    requires AllAt(back1, a) && AllAt(back2, b) && Alike(a, x, b, y) && SlotsAlike(a, p, s, b, t)
    requires TargetConforms(a, schema, ft, s, x)
    ensures TargetConforms(b, schema, ft, t, y)
    ensures TargetVisits(a, schema, ft, s, x) == TargetVisits(b, schema, ft, t, y)
    ensures TargetLevels(a, schema, ft, s, x) == TargetLevels(b, schema, ft, t, y)
    decreases x, 4, 0
  {
    hide AllAt, Conforms, Visits, Levels, ElementConforms, ElementsVisits, ElementsLevels, SlotsAlike;
    match ft
    case TableField(u) => TablesAgree(back1, a, x, back2, b, y, schema, u);
    case StringVector =>
      forall i | 0 <= i < |a[x].targets| ensures IsString(b, b[y].targets[i]) {
        assert IsString(a, a[x].targets[i]) && Alike(a, a[x].targets[i], b, b[y].targets[i]);
      }
    case TableVector(u) =>
      ElementsBelow(back2, b, y);
      forall i | 0 <= i < |a[x].targets| ensures ElementConforms(b, schema, u, b[y].targets[i], y) {
        ElementAgrees(back1, a, x, back2, b, y, schema, u, i);
      }
      ElementsAgree(back1, a, x, back2, b, y, schema, u, 0);
    case UnionField(tf, cases) =>
      UnionAgrees(a, p, s, b, t, tf);
      var u := UnionType(s, tf);
      if u in cases {
        TablesAgree(back1, a, x, back2, b, y, schema, cases[u]);
      }
    case _ =>
  }

  lemma UnionAgrees(a: map<nat, Obj>, p: nat, s: map<nat, Slot>, b: map<nat, Obj>, t: map<nat, Slot>, tf: nat)
    requires SlotsAlike(a, p, s, b, t)
    ensures (tf in s <==> tf in t) && UnionType(s, tf) == UnionType(t, tf)
    ensures tf in s && s[tf].Num? ==> t[tf] == s[tf]
  {
    assert tf in s ==> SlotAlike(a, p, s[tf], b, t[tf]);
  }

  lemma {:induction false} ElementAgrees(back1: seq<byte>, a: map<nat, Obj>, x: nat, back2: seq<byte>,
                                         b: map<nat, Obj>, y: nat, schema: Schema, u: nat, i: nat)
    requires AllAt(back1, a) && AllAt(back2, b) && Alike(a, x, b, y) && a[x].Offsets? && i < |a[x].targets|
    requires ElementConforms(a, schema, u, a[x].targets[i], x)
    requires b[y].targets[i] < y
    ensures var d, e := a[x].targets[i], b[y].targets[i];
      && ElementConforms(b, schema, u, e, y)
      && Visits(a, schema, u, d) == Visits(b, schema, u, e) && Levels(a, schema, u, d) == Levels(b, schema, u, e)
    decreases x, 2, 0
  {
    hide AllAt, Conforms, Visits, Levels;
    TablesAgree(back1, a, a[x].targets[i], back2, b, b[y].targets[i], schema, u);
  }

  lemma {:induction false} ElementsAgree(back1: seq<byte>, a: map<nat, Obj>, x: nat, back2: seq<byte>,
                                         b: map<nat, Obj>, y: nat, schema: Schema, u: nat, i: nat)
    requires AllAt(back1, a) && AllAt(back2, b) && Alike(a, x, b, y) && a[x].Offsets? && i <= |a[x].targets|
    requires forall j :: 0 <= j < |a[x].targets| ==> ElementConforms(a, schema, u, a[x].targets[j], x)
    requires forall j :: 0 <= j < |b[y].targets| ==> b[y].targets[j] < y
    ensures ElementsVisits(a, schema, u, a[x].targets, i, x) == ElementsVisits(b, schema, u, b[y].targets, i, y)
    ensures ElementsLevels(a, schema, u, a[x].targets, i, x) == ElementsLevels(b, schema, u, b[y].targets, i, y)
    decreases x, 3, |a[x].targets| - i
  {
    hide AllAt, Conforms, Visits, Levels;
    if i < |a[x].targets| {
      assert ElementConforms(a, schema, u, a[x].targets[i], x);
      ElementAgrees(back1, a, x, back2, b, y, schema, u, i);
      ElementsAgree(back1, a, x, back2, b, y, schema, u, i + 1);
    }
  }
}
