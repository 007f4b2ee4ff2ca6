/** What a FlexBuffer means.  `RefReads(buf, r, t)` says that following the reference r with the
    accessors yields the value tree t, every byte read being inside buf. */
module FlexTree {
  import opened Bytes
  import opened Widths
  import opened FlexFormat

  /** A typed vector records its element type; keys[i] of a map goes with vals[i]. */
  datatype Tree =
    | Null
    | Bool(b: bool)
    | Int(i: int)
    | UInt(u: nat)
    | IndirectInt(i: int)
    | IndirectUInt(u: nat)
    | Key(key: seq<byte>)
    | Str(str: seq<byte>)
    | Blob(blob: seq<byte>)
    | Vector(elems: seq<Tree>)
    | TypedVector(elementType: Type, elems: seq<Tree>)
    | FixedTypedVector(elementType: Type, elems: seq<Tree>)
    | Map(keys: seq<seq<byte>>, vals: seq<Tree>)

  ghost predicate RefReads(buf: seq<byte>, r: Reference, t: Tree)
    decreases t, 1
  {
    && r.data + r.parentWidth <= |buf|
    && if IsInline(r.type_) then InlineReads(buf, r, t)
       else Indirect(buf, r) >= 0 && ObjectAt(buf, Indirect(buf, r), r.byteWidth, r.type_, t)
  }

  ghost predicate InlineReads(buf: seq<byte>, r: Reference, t: Tree)
    requires r.data + r.parentWidth <= |buf|
  {
    match t
    case Null => r.type_ == FBT_NULL
    case Bool(b) => r.type_ == FBT_BOOL && b == (ReadUnsigned(buf, r.data, r.parentWidth) != 0)
    case Int(i) => r.type_ == FBT_INT && ReadInt64(buf, r.data, r.parentWidth) == i
    case UInt(u) => r.type_ == FBT_UINT && ReadUnsigned(buf, r.data, r.parentWidth) == u
    case _ => false
  }

  /** The object of width w and type type_ at loc reads as t, and is aligned to w. */
  ghost predicate ObjectAt(buf: seq<byte>, loc: nat, w: Width, type_: Type, t: Tree)
    decreases t, 0
  {
    && IsAligned(loc, w)
    && if t.Vector? then type_ == FBT_VECTOR && VectorAt(buf, loc, w, t.elems)
       else if t.TypedVector? then TypedVectorAt(buf, loc, w, type_, t.elementType, t.elems)
       else if t.FixedTypedVector? then FixedTypedVectorAt(buf, loc, w, type_, t.elementType, t.elems)
       else if t.Map? then
         && type_ == FBT_MAP && |t.keys| == |t.vals|
         && VectorAt(buf, loc, w, t.vals) && MapKeysAt(buf, loc, w, t.keys)
       else LeafAt(buf, loc, w, type_, t)
  }

  predicate LeafAt(buf: seq<byte>, loc: nat, w: Width, type_: Type, t: Tree) {
    match t
    case IndirectInt(i) =>
      type_ == FBT_INDIRECT_INT && loc + w <= |buf| && ReadInt64(buf, loc, w) == i
    case IndirectUInt(u) =>
      type_ == FBT_INDIRECT_UINT && loc + w <= |buf| && ReadUnsigned(buf, loc, w) == u
    case Key(k) => type_ == FBT_KEY && w == 1 && KeyAt(buf, loc, k)
    case Str(s) =>
      type_ == FBT_STRING && SizedAt(buf, loc, w, |s|) && TerminatedAt(buf, loc, s)
    case Blob(s) =>
      type_ == FBT_BLOB && SizedAt(buf, loc, w, |s|) && BytesAt(buf, loc, s)
    case _ => false
  }

  predicate SizedAt(buf: seq<byte>, loc: nat, w: Width, size: nat) {
    w <= loc <= |buf| && ReadSize(buf, loc, w) == size
  }

  predicate TerminatedAt(buf: seq<byte>, loc: nat, s: seq<byte>) {
    BytesAt(buf, loc, s) && loc + |s| < |buf| && buf[loc + |s|] == 0
  }

  /** A terminated key. */
  predicate KeyAt(buf: seq<byte>, loc: nat, k: seq<byte>) {
    TerminatedAt(buf, loc, k) && 0 !in k
  }

  ghost predicate VectorAt(buf: seq<byte>, loc: nat, w: Width, es: seq<Tree>)
    decreases es, 0
  {
    && SizedAt(buf, loc, w, |es|) && loc + Times(|es|, w) + |es| <= |buf|
    && forall i :: 0 <= i < |es| ==> RefReads(buf, VectorElement(buf, loc, w, i), es[i])
  }

  ghost predicate TypedVectorAt(buf: seq<byte>, loc: nat, w: Width, type_: Type, e: Type, es: seq<Tree>)
    decreases es, 1
  {
    && IsTypedVectorElementType(e) && type_ == ToTypedVector(e)
    && SizedAt(buf, loc, w, |es|) && TypedAt(buf, loc, w, e, es)
  }

  ghost predicate FixedTypedVectorAt(buf: seq<byte>, loc: nat, w: Width, type_: Type, e: Type, es: seq<Tree>)
    decreases es, 1
  {
    && FBT_INT <= e <= FBT_FLOAT && 2 <= |es| <= 4 && type_ == ToFixedTypedVector(e, |es|)
    && TypedAt(buf, loc, w, e, es)
  }

  ghost predicate TypedAt(buf: seq<byte>, loc: nat, w: Width, e: Type, es: seq<Tree>)
    decreases es, 0
  {
    && loc + Times(|es|, w) <= |buf|
    && forall i :: 0 <= i < |es| ==> RefReads(buf, TypedElement(loc, w, e, i), es[i])
  }

  ghost predicate MapKeysAt(buf: seq<byte>, loc: nat, w: Width, ks: seq<seq<byte>>) {
    3 * w <= loc <= |buf| && KeysAt(buf, MapKeys(buf, loc, w).0, MapKeys(buf, loc, w).1, ks)
  }

  /** The key vector of a map: a typed vector of keys at loc, of width w. */
  ghost predicate KeysAt(buf: seq<byte>, loc: int, w: nat, ks: seq<seq<byte>>) {
    && IsWidth(w) && 0 <= loc && SizedAt(buf, loc, w, |ks|) && loc + Times(|ks|, w) <= |buf|
    && forall i :: 0 <= i < |ks| ==> KeyElementReads(buf, TypedElement(loc, w, FBT_KEY, i), ks[i])
  }

  predicate KeyElementReads(buf: seq<byte>, r: Reference, k: seq<byte>) {
    r.data + r.parentWidth <= |buf| && 0 <= Indirect(buf, r) && KeyAt(buf, Indirect(buf, r), k)
  }

  /** All trees that r reads as: by ReadsUnique, at most one. */
  ghost function Meanings(buf: seq<byte>, r: Reference): iset<Tree> {
    iset t | RefReads(buf, r, t)
  }

  /** buf is a finished buffer whose root reads as t, using only the bytes before its type and
      width. */
  ghost predicate Encodes(buf: seq<byte>, t: Tree) {
    && 3 <= |buf| && IsWidth(buf[|buf| - 1]) && buf[|buf| - 1] + 2 <= |buf|
    && t in Meanings(buf[..|buf| - 2], GetRoot(buf))
  }

  /** A finished buffer reads as t from its root, and as nothing else. */
  lemma RootReadsAs(buf: seq<byte>, t: Tree)
    requires Encodes(buf, t)
    ensures forall u :: RefReads(buf, GetRoot(buf), u) <==> u == t
  {
    RefReadsGrows(buf[..|buf| - 2], buf, GetRoot(buf), t);
    forall u | RefReads(buf, GetRoot(buf), u) ensures u == t {
      ReadsUnique(buf, GetRoot(buf), u, t);
    }
  }

  /** An element that stores the distance back to loc reads as the object there. */
  lemma OffsetReads(buf: seq<byte>, r: Reference, loc: nat, t: Tree)
    requires !IsInline(r.type_) && r.data + r.parentWidth <= |buf| && loc <= r.data
    requires ReadUnsigned(buf, r.data, r.parentWidth) == r.data - loc
    requires ObjectAt(buf, loc, r.byteWidth, r.type_, t)
    ensures RefReads(buf, r, t)
  {
  }

  lemma TypeTellsLeaf(buf: seq<byte>, loc: nat, w: Width, type_: Type, t: Tree)
    requires ObjectAt(buf, loc, w, type_, t)
    ensures type_ == FBT_KEY ==> t.Key? && w == 1
    ensures type_ == FBT_STRING ==> t.Str? && TerminatedAt(buf, loc, t.str)
  {
  }

  /** A typed vector of keys serves as the key vector of a map. */
  lemma TypedKeysAreKeys(buf: seq<byte>, loc: nat, w: Width, type_: Type, es: seq<Tree>, ks: seq<seq<byte>>)
    requires TypedVectorAt(buf, loc, w, type_, FBT_KEY, es)
    requires |es| == |ks| && forall i :: 0 <= i < |es| ==> es[i] == Tree.Key(ks[i])
    ensures KeysAt(buf, loc, w, ks)
  {
    forall i | 0 <= i < |ks| ensures KeyElementReads(buf, TypedElement(loc, w, FBT_KEY, i), ks[i]) {
      assert RefReads(buf, TypedElement(loc, w, FBT_KEY, i), es[i]);
      KeyReferenceReads(buf, TypedElement(loc, w, FBT_KEY, i), ks[i]);
    }
  }

  lemma KeyReferenceReads(buf: seq<byte>, r: Reference, k: seq<byte>)
    requires r.type_ == FBT_KEY && RefReads(buf, r, Tree.Key(k))
    ensures KeyElementReads(buf, r, k)
  {
    assert ObjectAt(buf, Indirect(buf, r), r.byteWidth, FBT_KEY, Tree.Key(k));
  }

  // ----- Stability and uniqueness -----

  lemma KeysAtGrows(a: seq<byte>, b: seq<byte>, loc: int, w: nat, ks: seq<seq<byte>>)
    requires a <= b && KeysAt(a, loc, w, ks)
    ensures KeysAt(b, loc, w, ks)
  {
    ReadInPrefix(a, b, loc - w, w);
    forall i | 0 <= i < |ks| ensures KeyElementReads(b, TypedElement(loc, w, FBT_KEY, i), ks[i]) {
      var r := TypedElement(loc, w, FBT_KEY, i);
      ReadInPrefix(a, b, r.data, r.parentWidth);
    }
  }

  /** What a reference reads is not changed by appending to the buffer. */
  lemma {:induction false} RefReadsGrows(a: seq<byte>, b: seq<byte>, r: Reference, t: Tree)
    requires a <= b && RefReads(a, r, t)
    ensures RefReads(b, r, t)
    decreases t, 1
  {
    ReadInPrefix(a, b, r.data, r.parentWidth);
    if !IsInline(r.type_) {
      ObjectAtGrows(a, b, Indirect(a, r), r.byteWidth, r.type_, t);
    }
  }

  lemma LeafAtGrows(a: seq<byte>, b: seq<byte>, loc: nat, w: Width, type_: Type, t: Tree)
    requires a <= b && LeafAt(a, loc, w, type_, t)
    ensures LeafAt(b, loc, w, type_, t)
  {
    if t.IndirectInt? || t.IndirectUInt? {
      ReadInPrefix(a, b, loc, w);
    } else if t.Str? || t.Blob? {
      ReadInPrefix(a, b, loc - w, w);
    }
  }

  lemma {:induction false} ObjectAtGrows(a: seq<byte>, b: seq<byte>, loc: nat, w: Width, type_: Type, t: Tree)
    requires a <= b && ObjectAt(a, loc, w, type_, t)
    ensures ObjectAt(b, loc, w, type_, t)
    decreases t, 0
  {
    if t.Vector? {
      VectorAtGrows(a, b, loc, w, t.elems);
    } else if t.TypedVector? {
      TypedVectorAtGrows(a, b, loc, w, type_, t.elementType, t.elems);
    } else if t.FixedTypedVector? {
      TypedAtGrows(a, b, loc, w, t.elementType, t.elems);
    } else if t.Map? {
      VectorAtGrows(a, b, loc, w, t.vals);
      MapKeysAtGrows(a, b, loc, w, t.keys);
    } else {
      LeafAtGrows(a, b, loc, w, type_, t);
    }
  }

  lemma {:induction false} TypedVectorAtGrows(a: seq<byte>, b: seq<byte>, loc: nat, w: Width, type_: Type, e: Type,
                                              es: seq<Tree>)
    requires a <= b && TypedVectorAt(a, loc, w, type_, e, es)
    ensures TypedVectorAt(b, loc, w, type_, e, es)
    decreases es, 1
  {
    ReadInPrefix(a, b, loc - w, w);
    TypedAtGrows(a, b, loc, w, e, es);
  }

  lemma MapKeysAtGrows(a: seq<byte>, b: seq<byte>, loc: nat, w: Width, ks: seq<seq<byte>>)
    requires a <= b && MapKeysAt(a, loc, w, ks)
    ensures MapKeysAt(b, loc, w, ks)
  {
    var keys := MapKeys(a, loc, w);
    assert MapKeys(b, loc, w) == keys by {
      ReadInPrefix(a, b, loc - 3 * w, w);
      ReadInPrefix(a, b, loc - 2 * w, w);
    }
    KeysAtGrows(a, b, keys.0, keys.1, ks);
  }

  lemma {:induction false} VectorAtGrows(a: seq<byte>, b: seq<byte>, loc: nat, w: Width, es: seq<Tree>)
    requires a <= b && VectorAt(a, loc, w, es)
    ensures VectorAt(b, loc, w, es)
    decreases es, 0
  {
    hide RefReads, ReadUnsigned;
    ReadInPrefix(a, b, loc - w, w);
    forall i | 0 <= i < |es| ensures RefReads(b, VectorElement(b, loc, w, i), es[i]) {
      var r := VectorElement(a, loc, w, i);
      assert r == VectorElement(b, loc, w, i);
      RefReadsGrows(a, b, r, es[i]);
    }
  }

  lemma {:induction false} TypedAtGrows(a: seq<byte>, b: seq<byte>, loc: nat, w: Width, e: Type, es: seq<Tree>)
    requires a <= b && TypedAt(a, loc, w, e, es)
    ensures TypedAt(b, loc, w, e, es)
    decreases es, 0
  {
    forall i | 0 <= i < |es| ensures RefReads(b, TypedElement(loc, w, e, i), es[i]) {
      RefReadsGrows(a, b, TypedElement(loc, w, e, i), es[i]);
    }
  }

  lemma KeyUnique(buf: seq<byte>, loc: nat, k1: seq<byte>, k2: seq<byte>)
    requires KeyAt(buf, loc, k1) && KeyAt(buf, loc, k2)
    ensures k1 == k2
  {
    assert forall i :: 0 <= i < |k1| && i < |k2| ==> k1[i] == buf[loc + i] == k2[i];
  }

  lemma KeysUnique(buf: seq<byte>, loc: int, w: nat, k1: seq<seq<byte>>, k2: seq<seq<byte>>)
    requires KeysAt(buf, loc, w, k1) && KeysAt(buf, loc, w, k2)
    ensures k1 == k2
  {
    forall i | 0 <= i < |k1| ensures k1[i] == k2[i] {
      var r := TypedElement(loc, w, FBT_KEY, i);
      assert KeyElementReads(buf, r, k1[i]) && KeyElementReads(buf, r, k2[i]);
      KeyUnique(buf, Indirect(buf, r), k1[i], k2[i]);
    }
  }

  /** A reference reads as at most one tree, so "reads as" is as strong as a decoder. */
  lemma {:induction false} ReadsUnique(buf: seq<byte>, r: Reference, t1: Tree, t2: Tree)
    requires RefReads(buf, r, t1) && RefReads(buf, r, t2)
    ensures t1 == t2
    decreases t1, 1
  {
    if !IsInline(r.type_) {
      ObjectUnique(buf, Indirect(buf, r), r.byteWidth, r.type_, t1, t2);
    }
  }

  lemma TypeTellsShape(buf: seq<byte>, loc: nat, w: Width, type_: Type, t: Tree)
    requires ObjectAt(buf, loc, w, type_, t)
    ensures t.Vector? <==> type_ == FBT_VECTOR
    ensures t.Map? <==> type_ == FBT_MAP
    ensures t.TypedVector? <==> IsTypedVector(type_)
    ensures t.FixedTypedVector? <==> IsFixedTypedVector(type_)
  {
  }

  lemma {:induction false} ObjectUnique(buf: seq<byte>, loc: nat, w: Width, type_: Type, t1: Tree, t2: Tree)
    requires ObjectAt(buf, loc, w, type_, t1) && ObjectAt(buf, loc, w, type_, t2)
    ensures t1 == t2
    decreases t1, 0
  {
    TypeTellsShape(buf, loc, w, type_, t1);
    TypeTellsShape(buf, loc, w, type_, t2);
    if t1.Vector? {
      VectorUnique(buf, loc, w, t1.elems, t2.elems);
    } else if t1.TypedVector? {
      TypedUnique(buf, loc, w, t1.elementType, t1.elems, t2.elems);
    } else if t1.FixedTypedVector? {
      FixedUnique(buf, loc, w, type_, t1.elementType, t1.elems, t2.elementType, t2.elems);
    } else if t1.Map? {
      MapKeysUnique(buf, loc, w, t1.keys, t2.keys);
      VectorUnique(buf, loc, w, t1.vals, t2.vals);
    } else {
      LeafUnique(buf, loc, w, type_, t1, t2);
    }
  }

  lemma {:induction false} FixedUnique(buf: seq<byte>, loc: nat, w: Width, type_: Type,
                                       e: Type, es: seq<Tree>, f: Type, fs: seq<Tree>)
    requires FixedTypedVectorAt(buf, loc, w, type_, e, es) && FixedTypedVectorAt(buf, loc, w, type_, f, fs)
    ensures e == f && es == fs
    decreases es, 1
  {
    FixedTypeUnique(e, |es|, f, |fs|);
    TypedUnique(buf, loc, w, e, es, fs);
  }

  lemma MapKeysUnique(buf: seq<byte>, loc: nat, w: Width, ks: seq<seq<byte>>, ls: seq<seq<byte>>)
    requires MapKeysAt(buf, loc, w, ks) && MapKeysAt(buf, loc, w, ls)
    ensures ks == ls
  {
    var keys := MapKeys(buf, loc, w);
    KeysUnique(buf, keys.0, keys.1, ks, ls);
  }

  lemma LeafUnique(buf: seq<byte>, loc: nat, w: Width, type_: Type, t1: Tree, t2: Tree)
    requires LeafAt(buf, loc, w, type_, t1) && LeafAt(buf, loc, w, type_, t2)
    ensures t1 == t2
  {
    match t1
    case Key(k) => KeyUnique(buf, loc, k, t2.key);
    case Str(s) => assert forall i :: 0 <= i < |s| ==> s[i] == buf[loc + i];
    case Blob(s) => assert forall i :: 0 <= i < |s| ==> s[i] == buf[loc + i];
    case _ =>
  }

  lemma {:induction false} VectorUnique(buf: seq<byte>, loc: nat, w: Width, es: seq<Tree>, fs: seq<Tree>)
    requires VectorAt(buf, loc, w, es) && VectorAt(buf, loc, w, fs)
    ensures es == fs
    decreases es, 0
  {
    forall i | 0 <= i < |es| ensures es[i] == fs[i] {
      ReadsUnique(buf, VectorElement(buf, loc, w, i), es[i], fs[i]);
    }
  }

  lemma {:induction false} TypedUnique(buf: seq<byte>, loc: nat, w: Width, e: Type, es: seq<Tree>, fs: seq<Tree>)
    requires TypedAt(buf, loc, w, e, es) && TypedAt(buf, loc, w, e, fs) && |es| == |fs|
    ensures es == fs
    decreases es, 0
  {
    forall i | 0 <= i < |es| ensures es[i] == fs[i] {
      ReadsUnique(buf, TypedElement(loc, w, e, i), es[i], fs[i]);
    }
  }

  lemma FixedTypeUnique(e: Type, n: nat, f: Type, m: nat)
    requires FBT_INT <= e <= FBT_FLOAT && 2 <= n <= 4 && FBT_INT <= f <= FBT_FLOAT && 2 <= m <= 4
    requires ToFixedTypedVector(e, n) == ToFixedTypedVector(f, m)
    ensures e == f && n == m
  {
  }
}
