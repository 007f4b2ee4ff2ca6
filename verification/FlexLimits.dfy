/** The limits of the FlexBuffers verifier are exact: of the buffers that encode a tree it accepts those
    within them and no others. */
module FlexLimits {
  import opened Bytes
  import opened Widths
  import opened FlexFormat
  import opened FlexTree
  import opened FlexCost
  import opened FlexVerifier

  /** If the verification succeeds it has cost this much, and has been this deep. */
  predicate Spends(c: Config, s: State, v: Verdict, cost: nat, depth: nat) {
    v.ok ==> v.state.vectors == s.vectors + cost && v.state.depth == s.depth && s.depth + depth <= c.maxDepth
  }

  predicate Runs(c: Config, s: State) {
    s.vectors <= |c.buf| && s.depth <= c.maxDepth
  }

  lemma {:induction false} RefSpends(c: Config, body: seq<byte>, r: Reference, t: Tree, s: State)
    requires IsBody(c, body) && RefReads(body, r, t) && r.data + r.parentWidth <= |c.buf| && Runs(c, s)
    ensures Spends(c, s, VerifyRef(c, r, s), Cost(t), Depth(t))
    decreases t, 1
  {
    ReadInPrefix(body, c.buf, r.data, r.parentWidth);
    if !IsInline(r.type_) {
      ObjectSpends(c, body, Indirect(body, r), r.byteWidth, r.type_, t, s);
    }
  }

  lemma {:induction false} ObjectSpends(c: Config, body: seq<byte>, loc: nat, w: Width, type_: Type, t: Tree, s: State)
    requires IsBody(c, body) && loc <= |body| && ObjectAt(body, loc, w, type_, t) && Runs(c, s)
    ensures Spends(c, s, VerifyObject(c, type_, w, loc, s), Cost(t), Depth(t))
    decreases t, 0
  {
    hide VerifyVector, VerifyKeys, VectorAt, MapKeysAt;
    if t.Vector? {
      VectorSpends(c, body, loc, w, type_, t.elems, s);
    } else if t.TypedVector? {
      FlatSpends(c, type_, w, loc, ElementCheck(type_), s);
    } else if t.Map? {
      VectorSpends(c, body, loc, w, type_, t.vals, s);
      var v := VerifyVector(c, FBT_MAP, w, loc, FBT_NULL, s);
      if v.ok {
        KeysSpend(c, w, loc, v.state);
      }
    } else if t.Str? || t.Blob? {
      FlatSpends(c, type_, w, loc, FBT_UINT, s);
    }
  }

  lemma {:induction false} VectorSpends(c: Config, body: seq<byte>, loc: nat, w: Width, type_: Type, es: seq<Tree>,
                                        s: State)
    requires IsBody(c, body) && VectorAt(body, loc, w, es) && (type_ == FBT_VECTOR || type_ == FBT_MAP) && Runs(c, s)
    ensures Spends(c, s, VerifyVector(c, type_, w, loc, FBT_NULL, s), 1 + TotalCost(es), 1 + MaxDepth(es))
    decreases es, 1
  {
    VectorIsInRange(c, body, loc, w, type_, es);
    assert es[0..] == es;
    if Runs(c, Enter(s)) {
      ElementsSpend(c, body, loc, w, es, 0, Enter(s));
    }
  }

  lemma {:induction false} ElementsSpend(c: Config, body: seq<byte>, loc: nat, w: Width, es: seq<Tree>, i: nat,
                                         s: State)
    requires IsBody(c, body) && VectorAt(body, loc, w, es) && i <= |es|
    requires ElementsInRange(c.buf, loc, w, false, |es|) && Runs(c, s)
    ensures Spends(c, s, VerifyElements(c, w, loc, false, i, |es|, s), TotalCost(es[i..]), MaxDepth(es[i..]))
    decreases es, 0, |es| - i
  {
    hide VectorAt, VerifyRef, Cost, Depth;
    if i < |es| {
      SuffixCost(es, i);
      ElementSpends(c, body, loc, w, es, i, s);
      var v := VerifyRef(c, Element(c.buf, loc, w, false, i), s);
      if v.ok {
        ElementsSpend(c, body, loc, w, es, i + 1, v.state);
      }
    }
  }

  lemma {:induction false} ElementSpends(c: Config, body: seq<byte>, loc: nat, w: Width, es: seq<Tree>, i: nat,
                                         s: State)
    requires IsBody(c, body) && VectorAt(body, loc, w, es) && i < |es|
    requires ElementsInRange(c.buf, loc, w, false, |es|) && Runs(c, s)
    ensures Element(c.buf, loc, w, false, i).data + w <= |c.buf| && Element(c.buf, loc, w, false, i).parentWidth == w
    ensures Spends(c, s, VerifyRef(c, Element(c.buf, loc, w, false, i), s), Cost(es[i]), Depth(es[i]))
    decreases es, 0, 0
  {
    hide RefReads, VerifyRef, Cost, Depth, Spends, VectorAt, Element;
    ElementInBody(c, body, loc, w, es, i);
    RefSpends(c, body, Element(c.buf, loc, w, false, i), es[i], s);
  }

  lemma ElementInBody(c: Config, body: seq<byte>, loc: nat, w: Width, es: seq<Tree>, i: nat)
    requires IsBody(c, body) && VectorAt(body, loc, w, es) && i < |es| && ElementsInRange(c.buf, loc, w, false, |es|)
    ensures var r := Element(c.buf, loc, w, false, i);
      r.data + w <= |c.buf| && r.parentWidth == w && RefReads(body, r, es[i])
  {
    hide RefReads, ReadUnsigned;
    ReadInPrefix(body, c.buf, loc - w, w);
    assert RefReads(body, VectorElement(body, loc, w, i), es[i]);
  }

  /** A vector without vectors in it: only itself is entered. */
  lemma {:induction false} FlatSpends(c: Config, type_: Type, w: Width, p: nat, elemType: Type, s: State)
    requires p <= |c.buf| && Runs(c, s) && elemType != FBT_NULL
    requires type_ == FBT_STRING || type_ == FBT_BLOB ==> elemType == FBT_UINT
    ensures Spends(c, s, VerifyVector(c, type_, w, p, elemType, s), 1, 1)
  {
    var e := Enter(s);
    if Runs(c, e) && VectorInRange(c, type_, w, p, elemType) && elemType == FBT_KEY {
      KeyElementsSpend(c, ElementWidth(type_, w), p, 0, ReadSize(c.buf, p, w), e);
    }
  }

  lemma {:induction false} KeyElementsSpend(c: Config, w: Width, p: nat, i: nat, n: nat, s: State)
    requires ElementsInRange(c.buf, p, w, true, n) && i <= n && Runs(c, s)
    ensures Spends(c, s, VerifyElements(c, w, p, true, i, n, s), 0, 0)
    decreases n - i
  {
    if i < n {
      var r := Element(c.buf, p, w, true, i);
      KeySpends(c, r, s);
      assert VerifyRef(c, r, s).state == s;
      KeyElementsSpend(c, w, p, i + 1, n, s);
    }
  }

  lemma KeySpends(c: Config, r: Reference, s: State)
    requires r.data + r.parentWidth <= |c.buf| && Runs(c, s) && r.type_ == FBT_KEY
    ensures VerifyRef(c, r, s).state == s
  {
  }

  lemma {:induction false} KeysSpend(c: Config, w: Width, p: nat, s: State)
    requires p <= |c.buf| && Runs(c, s)
    ensures Spends(c, s, VerifyKeys(c, w, p, s), 1, 1)
  {
    if 3 * w <= p {
      var at := p - 3 * w;
      var off, keyWidth := ReadUnsigned(c.buf, at, w), ReadUnsigned(c.buf, at + w, w) % 256;
      if VerifyOffset(c, off, at) && IsWidth(keyWidth) {
        FlatSpends(c, FBT_VECTOR_KEY, keyWidth, at - off, FBT_KEY, s);
      }
    }
  }

  /** A finished buffer that encodes a tree is accepted exactly if the tree is nested within the limit and
      its vectors, counted as often as they are referred to, are no more than there are bytes. */
  lemma VerifiedExactly(c: Config, t: Tree)
    requires Encodes(c.buf, t) && |c.buf| < 0x7FFF_FFFF
    ensures VerifyBuffer(c).ok <==> Depth(t) <= c.maxDepth && Cost(t) <= |c.buf|
  {
    if Depth(t) <= c.maxDepth && Cost(t) <= |c.buf| {
      AcceptsEncoded(c, t);
    }
    RefSpends(c, c.buf[..|c.buf| - 2], GetRoot(c.buf), t, State(0, 0));
  }
}
