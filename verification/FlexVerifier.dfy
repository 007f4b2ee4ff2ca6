/** The FlexBuffers verifier without a reuse tracker.  The functions say what a verification
    decides and how it moves the two counters; class Verifier runs it. */
module FlexVerifier {
  import opened Bytes
  import opened Order
  import opened Widths
  import opened FlexFormat
  import opened FlexTree
  import opened FlexCost

  datatype Config = Config(buf: seq<byte>, checkAlignment: bool, maxDepth: nat)

  datatype State = State(depth: nat, vectors: nat)

  datatype Verdict = Verdict(ok: bool, state: State)

  /** Any range within the buffer. */
  predicate VerifyFrom(c: Config, elem: nat, len: nat) {
    len < |c.buf| && elem <= |c.buf| - len
  }

  predicate VerifyOffset(c: Config, off: nat, at: nat) {
    off <= |c.buf| && off <= at
  }

  predicate VerifyAlignment(c: Config, at: nat, w: Width) {
    IsAligned(at, w) || !c.checkAlignment
  }

  /** Any non-zero byte from p on will do. */
  predicate VerifyKey(buf: seq<byte>, p: nat)
    decreases |buf| - p
  {
    p < |buf| && (buf[p] != 0 || VerifyKey(buf, p + 1))
  }

  /** SIZE_MAX / w */
  function MaxElems(w: Width): nat {
    if w == 1 then U64 - 1 else if w == 2 then U64 / 2 - 1 else if w == 4 then U64 / 4 - 1 else U64 / 8 - 1
  }

  /** The element type to verify a typed vector with. */
  function ElementCheck(t: Type): Type
    requires IsTypedVector(t)
  {
    if t == FBT_VECTOR_INT then FBT_INT
    else if t == FBT_VECTOR_UINT || t == FBT_VECTOR_BOOL then FBT_UINT
    else if t == FBT_VECTOR_FLOAT then FBT_FLOAT
    else FBT_KEY
  }

  /** A verification enters at most one vector more than there are bytes, never deeper than one
      beyond the maximum, and if it succeeds is as deep as before. */
  predicate Bounded(c: Config, before: State, v: Verdict) {
    && before.vectors <= v.state.vectors <= |c.buf| + 1
    && before.depth <= v.state.depth <= c.maxDepth + 1
    && (v.ok ==> v.state.depth == before.depth && v.state.vectors <= |c.buf|)
  }

  function VerifyRef(c: Config, r: Reference, s: State): (v: Verdict)
    requires r.data + r.parentWidth <= |c.buf| && s.vectors <= |c.buf| && s.depth <= c.maxDepth
    ensures Bounded(c, s, v)
    decreases |c.buf| - s.vectors, 2, 0
  {
    if r.type_ >= FBT_MAX_TYPE then Verdict(false, s)
    else if IsInline(r.type_) then Verdict(true, s)
    else
      var off := ReadUnsigned(c.buf, r.data, r.parentWidth);
      if !VerifyOffset(c, off, r.data) then Verdict(false, s)
      else if !VerifyAlignment(c, r.data - off, r.byteWidth) then Verdict(false, s)
      else VerifyObject(c, r.type_, r.byteWidth, r.data - off, s)
  }

  function VerifyObject(c: Config, t: Type, w: Width, p: nat, s: State): (v: Verdict)
    requires p <= |c.buf| && s.vectors <= |c.buf| && s.depth <= c.maxDepth
    ensures Bounded(c, s, v)
    decreases |c.buf| - s.vectors, 1, 0
  {
    if FBT_INDIRECT_INT <= t <= FBT_INDIRECT_FLOAT then Verdict(VerifyFrom(c, p, w), s)
    else if t == FBT_KEY then Verdict(VerifyKey(c.buf, p), s)
    else if t == FBT_MAP then
      var v := VerifyVector(c, t, w, p, FBT_NULL, s);
      if v.ok then VerifyKeys(c, w, p, v.state) else v
    else if t == FBT_VECTOR then VerifyVector(c, t, w, p, FBT_NULL, s)
    else if IsTypedVector(t) then VerifyVector(c, t, w, p, ElementCheck(t), s)
    else if t == FBT_BLOB then VerifyVector(c, t, w, p, FBT_UINT, s)
    else if t == FBT_STRING then
      var v := VerifyVector(c, t, w, p, FBT_UINT, s);
      if v.ok && w <= p then Verdict(VerifyFrom(c, p, ReadSize(c.buf, p, w) + 1), v.state) else Verdict(false, v.state)
    else if IsFixedTypedVector(t) then Verdict(VerifyFrom(c, p, Times(ToFixedTypedVectorElementType(t).1, w)), s)
    else Verdict(false, s)
  }

  /** The key vector of the map at p, whose values have been verified. */
  function VerifyKeys(c: Config, w: Width, p: nat, s: State): (v: Verdict)
    requires p <= |c.buf| && s.vectors <= |c.buf| && s.depth <= c.maxDepth
    ensures Bounded(c, s, v)
    decreases |c.buf| - s.vectors, 0, 1
  {
    if 3 * w > p then Verdict(false, s)
    else
      var at := p - 3 * w;
      var off := ReadUnsigned(c.buf, at, w);
      var keyWidth := ReadUnsigned(c.buf, at + w, w) % 256;
      if !VerifyOffset(c, off, at) || !IsWidth(keyWidth) then Verdict(false, s)
      else VerifyVector(c, FBT_VECTOR_KEY, keyWidth, at - off, FBT_KEY, s)
  }

  function Enter(s: State): State {
    State(s.depth + 1, s.vectors + 1)
  }

  /** Any kind of nesting goes through here, so here it is limited. */
  function VerifyVector(c: Config, t: Type, w: Width, p: nat, elemType: Type, s: State): (v: Verdict)
    requires p <= |c.buf| && s.vectors <= |c.buf| && s.depth <= c.maxDepth
    requires t == FBT_STRING || t == FBT_BLOB ==> elemType == FBT_UINT
    ensures Bounded(c, s, v)
    decreases |c.buf| - s.vectors, 0, 0
  {
    var e := Enter(s);
    if e.depth > c.maxDepth || e.vectors > |c.buf| then Verdict(false, e)
    else if !VectorInRange(c, t, w, p, elemType) then Verdict(false, e)
    else if elemType != FBT_NULL && elemType != FBT_KEY then Verdict(true, e.(depth := s.depth))
    else
      var v := VerifyElements(c, ElementWidth(t, w), p, elemType == FBT_KEY, 0, ReadSize(c.buf, p, w), e);
      if v.ok then Verdict(true, v.state.(depth := s.depth)) else v
  }

  function ElementWidth(t: Type, w: Width): Width {
    if t == FBT_STRING || t == FBT_BLOB then 1 else w
  }

  /** The size, the elements and, after elements of any type, the types. */
  predicate VectorInRange(c: Config, t: Type, w: Width, p: nat, elemType: Type)
    requires p <= |c.buf|
  {
    && w <= p
    && var n := ReadSize(c.buf, p, w);
    && n < MaxElems(ElementWidth(t, w))
    && VerifyFrom(c, p, Times(n, ElementWidth(t, w)))
    && (elemType == FBT_NULL ==> VerifyFrom(c, p + Times(n, ElementWidth(t, w)), n))
  }

  /** Element i of a vector of keys, or of a vector of anything. */
  function Element(buf: seq<byte>, p: nat, w: Width, keys: bool, i: nat): Reference
    requires !keys ==> w <= p <= |buf| && p + Times(ReadSize(buf, p, w), w) + ReadSize(buf, p, w) <= |buf|
  {
    if keys then TypedElement(p, w, FBT_KEY, i) else VectorElement(buf, p, w, i)
  }

  predicate ElementsInRange(buf: seq<byte>, p: nat, w: Width, keys: bool, n: nat) {
    if keys then p + Times(n, w) <= |buf|
    else w <= p <= |buf| && n == ReadSize(buf, p, w) && p + Times(n, w) + n <= |buf|
  }

  function VerifyElements(c: Config, w: Width, p: nat, keys: bool, i: nat, n: nat, s: State): (v: Verdict)
    requires ElementsInRange(c.buf, p, w, keys, n) && i <= n && s.vectors <= |c.buf| && s.depth <= c.maxDepth
    ensures Bounded(c, s, v)
    decreases |c.buf| - s.vectors, 3, n - i
  {
    if i == n then Verdict(true, s)
    else
      var v := VerifyRef(c, Element(c.buf, p, w, keys, i), s);
      if v.ok then VerifyElements(c, w, p, keys, i + 1, n, v.state) else v
  }

  /** `VerifyBuffer` from fresh counters. */
  function VerifyBuffer(c: Config): Verdict {
    var s := State(0, 0);
    if |c.buf| < 3 then Verdict(false, s)
    else
      var w := c.buf[|c.buf| - 1];
      if !IsWidth(w) || |c.buf| - 2 < w then Verdict(false, s)
      else VerifyRef(c, GetRoot(c.buf), s)
  }

  // ----- Verification as it runs -----

  class Verifier {
    const c: Config
    var depth: nat
    var numVectors: nat

    constructor (c: Config)
      ensures this.c == c && depth == 0 && numVectors == 0
    {
      this.c := c;
      depth, numVectors := 0, 0;
    }

    ghost predicate Ready()
      reads this
    {
      depth <= c.maxDepth && numVectors <= |c.buf|
    }

    method CheckRef(r: Reference) returns (ok: bool)
      requires Ready() && r.data + r.parentWidth <= |c.buf|
      modifies this`depth, this`numVectors
      ensures Verdict(ok, State(depth, numVectors)) == VerifyRef(c, r, old(State(depth, numVectors)))
      decreases |c.buf| - numVectors, 2, 0
    {
      if r.type_ >= FBT_MAX_TYPE {
        return false;
      }
      if IsInline(r.type_) {
        return true;
      }
      var off := ReadUnsigned(c.buf, r.data, r.parentWidth);
      if !VerifyOffset(c, off, r.data) || !VerifyAlignment(c, r.data - off, r.byteWidth) {
        return false;
      }
      ok := CheckObject(r.type_, r.byteWidth, r.data - off);
    }

    method CheckObject(t: Type, w: Width, p: nat) returns (ok: bool)
      requires Ready() && p <= |c.buf|
      modifies this`depth, this`numVectors
      ensures Verdict(ok, State(depth, numVectors)) == VerifyObject(c, t, w, p, old(State(depth, numVectors)))
      decreases |c.buf| - numVectors, 1, 0
    {
      if FBT_INDIRECT_INT <= t <= FBT_INDIRECT_FLOAT {
        return VerifyFrom(c, p, w);
      } else if t == FBT_KEY {
        return VerifyKey(c.buf, p);
      } else if t == FBT_MAP {
        ok := CheckVector(t, w, p, FBT_NULL);
        if ok {
          ok := CheckKeys(w, p);
        }
      } else if t == FBT_VECTOR {
        ok := CheckVector(t, w, p, FBT_NULL);
      } else if IsTypedVector(t) {
        ok := CheckVector(t, w, p, ElementCheck(t));
      } else if t == FBT_BLOB {
        ok := CheckVector(t, w, p, FBT_UINT);
      } else if t == FBT_STRING {
        ok := CheckVector(t, w, p, FBT_UINT);
        ok := ok && w <= p && VerifyFrom(c, p, ReadSize(c.buf, p, w) + 1);
      } else if IsFixedTypedVector(t) {
        return VerifyFrom(c, p, Times(ToFixedTypedVectorElementType(t).1, w));
      } else {
        return false;
      }
    }

    method CheckKeys(w: Width, p: nat) returns (ok: bool)
      requires Ready() && p <= |c.buf|
      modifies this`depth, this`numVectors
      ensures Verdict(ok, State(depth, numVectors)) == VerifyKeys(c, w, p, old(State(depth, numVectors)))
      decreases |c.buf| - numVectors, 0, 1
    {
      if 3 * w > p {
        return false;
      }
      var at := p - 3 * w;
      var off := ReadUnsigned(c.buf, at, w);
      var keyWidth := ReadUnsigned(c.buf, at + w, w) % 256;
      if !VerifyOffset(c, off, at) || !IsWidth(keyWidth) {
        return false;
      }
      ok := CheckVector(FBT_VECTOR_KEY, keyWidth, at - off, FBT_KEY);
    }

    method CheckVector(t: Type, w: Width, p: nat, elemType: Type) returns (ok: bool)
      requires Ready() && p <= |c.buf|
      requires t == FBT_STRING || t == FBT_BLOB ==> elemType == FBT_UINT
      modifies this`depth, this`numVectors
      ensures Verdict(ok, State(depth, numVectors)) == VerifyVector(c, t, w, p, elemType, old(State(depth, numVectors)))
      decreases |c.buf| - numVectors, 0, 0
    {
      depth := depth + 1;
      numVectors := numVectors + 1;
      if depth > c.maxDepth || numVectors > |c.buf| {
        return false;
      }
      if !VectorInRange(c, t, w, p, elemType) {
        return false;
      }
      if elemType == FBT_NULL || elemType == FBT_KEY {
        var each := CheckElements(ElementWidth(t, w), p, elemType == FBT_KEY, ReadSize(c.buf, p, w));
        if !each {
          return false;
        }
      }
      depth := depth - 1;
      return true;
    }

    method CheckElements(w: Width, p: nat, keys: bool, n: nat) returns (ok: bool)
      requires Ready() && ElementsInRange(c.buf, p, w, keys, n)
      modifies this`depth, this`numVectors
      ensures Verdict(ok, State(depth, numVectors))
        == VerifyElements(c, w, p, keys, 0, n, old(State(depth, numVectors)))
      decreases |c.buf| - numVectors, 3, 0
    {
      for i := 0 to n
        invariant Ready() && numVectors >= old(numVectors)
        invariant VerifyElements(c, w, p, keys, i, n, State(depth, numVectors))
               == VerifyElements(c, w, p, keys, 0, n, old(State(depth, numVectors)))
      {
        var each := CheckRef(Element(c.buf, p, w, keys, i));
        if !each {
          return false;
        }
      }
      return true;
    }

    /** `VerifyBuffer`, on a verifier just made. */
    method CheckBuffer() returns (ok: bool)
      requires depth == 0 && numVectors == 0
      modifies this`depth, this`numVectors
      ensures Verdict(ok, State(depth, numVectors)) == VerifyBuffer(c)
    {
      if |c.buf| < 3 {
        return false;
      }
      var w := c.buf[|c.buf| - 1];
      if !IsWidth(w) || |c.buf| - 2 < w {
        return false;
      }
      ok := CheckRef(GetRoot(c.buf));
    }
  }

  // ----- Everything the builder finishes is accepted -----

  /** body is a finished buffer without its two last bytes. */
  ghost predicate IsBody(c: Config, body: seq<byte>) {
    body <= c.buf && |body| + 2 == |c.buf| && c.buf[|c.buf| - 1] != 0 && |c.buf| < 0x7FFF_FFFF
  }

  predicate Affordable(c: Config, s: State, cost: nat, depth: nat) {
    s.depth + depth <= c.maxDepth && s.vectors + cost <= |c.buf|
  }

  function Spent(s: State, cost: nat): Verdict {
    Verdict(true, State(s.depth, s.vectors + cost))
  }

  lemma {:induction false} VerifyKeyFinds(buf: seq<byte>, p: nat)
    requires p < |buf| && buf[|buf| - 1] != 0
    ensures VerifyKey(buf, p)
    decreases |buf| - p
  {
    if p < |buf| - 1 {
      VerifyKeyFinds(buf, p + 1);
    }
  }

  lemma {:induction false} AcceptsRef(c: Config, body: seq<byte>, r: Reference, t: Tree, s: State)
    requires IsBody(c, body) && RefReads(body, r, t) && Affordable(c, s, Cost(t), Depth(t))
    ensures VerifyRef(c, r, s) == Spent(s, Cost(t))
    decreases t, 1
  {
    hide ObjectAt, VerifyObject, Depth;
    ReadInPrefix(body, c.buf, r.data, r.parentWidth);
    if !IsInline(r.type_) {
      AcceptsObject(c, body, Indirect(body, r), r.byteWidth, r.type_, t, s);
      TypeIsKnown(body, Indirect(body, r), r.byteWidth, r.type_, t);
    }
  }

  lemma TypeIsKnown(buf: seq<byte>, loc: nat, w: Width, type_: Type, t: Tree)
    requires ObjectAt(buf, loc, w, type_, t)
    ensures type_ < FBT_MAX_TYPE && !IsInline(type_) && IsAligned(loc, w)
  {
  }

  lemma {:induction false} AcceptsObject(c: Config, body: seq<byte>, loc: nat, w: Width, type_: Type, t: Tree, s: State)
    requires IsBody(c, body) && loc <= |body| && ObjectAt(body, loc, w, type_, t) && Affordable(c, s, Cost(t), Depth(t))
    ensures VerifyObject(c, type_, w, loc, s) == Spent(s, Cost(t))
    decreases t, 0
  {
    hide VerifyVector, VerifyKeys, VectorAt, TypedAt, MapKeysAt;
    if t.Vector? {
      AcceptsVector(c, body, loc, w, type_, t.elems, s);
    } else if t.TypedVector? {
      AcceptsTypedVector(c, body, loc, w, type_, t.elementType, t.elems, s);
    } else if t.FixedTypedVector? {
      AcceptsFixedTypedVector(c, body, loc, w, type_, t.elementType, t.elems, s);
    } else if t.Map? {
      AcceptsVector(c, body, loc, w, type_, t.vals, s);
      AcceptsKeys(c, body, loc, w, t.keys, Spent(s, 1 + TotalCost(t.vals)).state);
      EnterMap(c, w, loc, s, TotalCost(t.vals));
    } else {
      AcceptsLeaf(c, body, loc, w, type_, t, s);
    }
  }

  lemma EnterMap(c: Config, w: Width, p: nat, s: State, cost: nat)
    requires p <= |c.buf| && Affordable(c, s, 2 + cost, 1)
    requires VerifyVector(c, FBT_MAP, w, p, FBT_NULL, s) == Spent(s, 1 + cost)
    requires VerifyKeys(c, w, p, Spent(s, 1 + cost).state) == Spent(Spent(s, 1 + cost).state, 1)
    ensures VerifyObject(c, FBT_MAP, w, p, s) == Spent(s, 2 + cost)
  {
  }

  lemma AcceptsLeaf(c: Config, body: seq<byte>, loc: nat, w: Width, type_: Type, t: Tree, s: State)
    requires IsBody(c, body) && loc <= |body| && LeafAt(body, loc, w, type_, t) && Affordable(c, s, Cost(t), Depth(t))
    ensures VerifyObject(c, type_, w, loc, s) == Spent(s, Cost(t))
  {
    if t.Key? {
      VerifyKeyFinds(c.buf, loc);
    } else if t.Str? {
      AcceptsSized(c, body, loc, w, type_, |t.str|, s);
    } else if t.Blob? {
      AcceptsSized(c, body, loc, w, type_, |t.blob|, s);
    }
  }

  /** A string or a blob, for its bytes. */
  lemma AcceptsSized(c: Config, body: seq<byte>, loc: nat, w: Width, type_: Type, len: nat, s: State)
    requires IsBody(c, body) && SizedAt(body, loc, w, len) && loc + len <= |body| && Affordable(c, s, 1, 1)
    requires type_ == FBT_STRING || type_ == FBT_BLOB
    ensures w <= loc && ReadSize(c.buf, loc, w) == len
    ensures VerifyVector(c, type_, w, loc, FBT_UINT, s) == Spent(s, 1)
  {
    ReadInPrefix(body, c.buf, loc - w, w);
  }

  lemma AcceptsFixedTypedVector(c: Config, body: seq<byte>, loc: nat, w: Width, type_: Type, e: Type, es: seq<Tree>,
                                s: State)
    requires IsBody(c, body) && loc <= |body| && FixedTypedVectorAt(body, loc, w, type_, e, es)
      && Affordable(c, s, 0, 0)
    ensures VerifyObject(c, type_, w, loc, s) == Spent(s, 0)
  {
    var decoded := ToFixedTypedVectorElementType(type_);
    FixedTypeUnique(decoded.0, decoded.1, e, |es|);
  }

  /** The vector at loc of the body is in range of the whole buffer, and the same there. */
  lemma VectorIsInRange(c: Config, body: seq<byte>, loc: nat, w: Width, type_: Type, es: seq<Tree>)
    requires IsBody(c, body) && VectorAt(body, loc, w, es) && (type_ == FBT_VECTOR || type_ == FBT_MAP)
    ensures VectorInRange(c, type_, w, loc, FBT_NULL) && ReadSize(c.buf, loc, w) == |es|
    ensures ElementsInRange(c.buf, loc, w, false, |es|)
  {
    ReadInPrefix(body, c.buf, loc - w, w);
  }

  lemma EnterVector(c: Config, type_: Type, w: Width, p: nat, elemType: Type, n: nat, s: State, cost: nat)
    requires p <= |c.buf| && VectorInRange(c, type_, w, p, elemType) && ReadSize(c.buf, p, w) == n
    requires elemType == FBT_NULL || elemType == FBT_KEY
    requires ElementsInRange(c.buf, p, w, elemType == FBT_KEY, n)
    requires type_ != FBT_STRING && type_ != FBT_BLOB
    requires Affordable(c, s, 1 + cost, 1)
    requires VerifyElements(c, w, p, elemType == FBT_KEY, 0, n, Enter(s)) == Spent(Enter(s), cost)
    ensures VerifyVector(c, type_, w, p, elemType, s) == Spent(s, 1 + cost)
  {
  }

  lemma {:induction false} AcceptsVector(c: Config, body: seq<byte>, loc: nat, w: Width, type_: Type, es: seq<Tree>,
                                         s: State)
    requires IsBody(c, body) && VectorAt(body, loc, w, es) && (type_ == FBT_VECTOR || type_ == FBT_MAP)
    requires Affordable(c, s, 1 + TotalCost(es), 1 + MaxDepth(es))
    ensures VerifyVector(c, type_, w, loc, FBT_NULL, s) == Spent(s, 1 + TotalCost(es))
    decreases es, 1
  {
    VectorIsInRange(c, body, loc, w, type_, es);
    assert es[0..] == es;
    AcceptsElements(c, body, loc, w, es, 0, Enter(s));
    EnterVector(c, type_, w, loc, FBT_NULL, |es|, s, TotalCost(es));
  }

  lemma {:induction false} AcceptsElements(c: Config, body: seq<byte>, loc: nat, w: Width, es: seq<Tree>, i: nat,
                                           s: State)
    requires IsBody(c, body) && VectorAt(body, loc, w, es) && i <= |es|
    requires ElementsInRange(c.buf, loc, w, false, |es|)
    requires Affordable(c, s, TotalCost(es[i..]), MaxDepth(es[i..]))
    ensures VerifyElements(c, w, loc, false, i, |es|, s) == Spent(s, TotalCost(es[i..]))
    decreases es, 0, |es| - i
  {
    if i < |es| {
      SuffixCost(es, i);
      AcceptsElement(c, body, loc, w, es, i, s);
      AcceptsElements(c, body, loc, w, es, i + 1, Spent(s, Cost(es[i])).state);
      NextElement(c, w, loc, i, |es|, s, Cost(es[i]), TotalCost(es[i + 1..]));
    }
  }

  lemma NextElement(c: Config, w: Width, p: nat, i: nat, n: nat, s: State, first: nat, rest: nat)
    requires ElementsInRange(c.buf, p, w, false, n) && i < n && Affordable(c, s, first + rest, 0)
    requires VerifyRef(c, Element(c.buf, p, w, false, i), s) == Spent(s, first)
    requires VerifyElements(c, w, p, false, i + 1, n, Spent(s, first).state) == Spent(Spent(s, first).state, rest)
    ensures VerifyElements(c, w, p, false, i, n, s) == Spent(s, first + rest)
  {
  }

  lemma {:induction false} AcceptsElement(c: Config, body: seq<byte>, loc: nat, w: Width, es: seq<Tree>, i: nat,
                                          s: State)
    requires IsBody(c, body) && VectorAt(body, loc, w, es) && i < |es|
    requires ElementsInRange(c.buf, loc, w, false, |es|)
    requires Affordable(c, s, Cost(es[i]), Depth(es[i]))
    ensures Element(c.buf, loc, w, false, i).data + w <= |c.buf| && Element(c.buf, loc, w, false, i).parentWidth == w
    ensures VerifyRef(c, Element(c.buf, loc, w, false, i), s) == Spent(s, Cost(es[i]))
    decreases es, 0, 0
  {
    ReadInPrefix(body, c.buf, loc - w, w);
    var r := VectorElement(body, loc, w, i);
    assert Element(c.buf, loc, w, false, i) == r;
    assert RefReads(body, r, es[i]);
    AcceptsRef(c, body, r, es[i], s);
  }

  lemma AcceptsTypedVector(c: Config, body: seq<byte>, loc: nat, w: Width, type_: Type, e: Type, es: seq<Tree>,
                           s: State)
    requires IsBody(c, body) && TypedVectorAt(body, loc, w, type_, e, es) && Affordable(c, s, 1, 1)
    ensures VerifyObject(c, type_, w, loc, s) == Spent(s, 1)
  {
    if e == FBT_KEY || e == FBT_STRING {
      forall i | 0 <= i < |es| ensures KeyElementIn(c, body, loc, w, i) {
        KeyElementIsIn(c, body, loc, w, e, es, i);
      }
      AcceptsKeyVector(c, body, loc, w, type_, |es|, s);
    } else {
      ReadInPrefix(body, c.buf, loc - w, w);
      assert VectorInRange(c, type_, w, loc, ElementCheck(type_));
    }
  }

  /** Element i leads to somewhere inside the body. */
  ghost predicate KeyElementIn(c: Config, body: seq<byte>, loc: nat, w: Width, i: nat) {
    var r := TypedElement(loc, w, FBT_KEY, i);
    r.data + w <= |body| && 0 <= Indirect(body, r) < |body|
  }

  lemma KeyElementIsIn(c: Config, body: seq<byte>, loc: nat, w: Width, e: Type, es: seq<Tree>, i: nat)
    requires TypedAt(body, loc, w, e, es) && i < |es| && (e == FBT_KEY || e == FBT_STRING)
    ensures KeyElementIn(c, body, loc, w, i)
  {
    var r := TypedElement(loc, w, e, i);
    assert RefReads(body, r, es[i]);
    TypeTellsLeaf(body, Indirect(body, r), 1, FBT_KEY, es[i]);
  }

  lemma AcceptsKeyVector(c: Config, body: seq<byte>, loc: nat, w: Width, type_: Type, n: nat, s: State)
    requires IsBody(c, body) && SizedAt(body, loc, w, n) && loc + Times(n, w) <= |body| && Affordable(c, s, 1, 1)
    requires type_ == FBT_VECTOR_KEY || type_ == FBT_VECTOR_STRING_DEPRECATED
    requires forall k :: 0 <= k < n ==> KeyElementIn(c, body, loc, w, k)
    ensures VerifyVector(c, type_, w, loc, FBT_KEY, s) == Spent(s, 1)
  {
    ReadInPrefix(body, c.buf, loc - w, w);
    AcceptsKeyElements(c, body, loc, w, 0, n, Enter(s));
    EnterVector(c, type_, w, loc, FBT_KEY, n, s, 0);
  }

  lemma {:induction false} AcceptsKeyElements(c: Config, body: seq<byte>, loc: nat, w: Width, i: nat, n: nat, s: State)
    requires IsBody(c, body) && i <= n && loc + Times(n, w) <= |c.buf| && Affordable(c, s, 0, 0)
    requires forall k :: 0 <= k < n ==> KeyElementIn(c, body, loc, w, k)
    ensures VerifyElements(c, w, loc, true, i, n, s) == Spent(s, 0)
    decreases n - i
  {
    if i < n {
      AcceptsKeyElement(c, body, loc, w, i, s);
      AcceptsKeyElements(c, body, loc, w, i + 1, n, s);
    }
  }

  lemma AcceptsKeyElement(c: Config, body: seq<byte>, loc: nat, w: Width, i: nat, s: State)
    requires IsBody(c, body) && KeyElementIn(c, body, loc, w, i) && Affordable(c, s, 0, 0)
    ensures VerifyRef(c, TypedElement(loc, w, FBT_KEY, i), s) == Spent(s, 0)
  {
    var r := TypedElement(loc, w, FBT_KEY, i);
    ReadInPrefix(body, c.buf, r.data, w);
    VerifyKeyFinds(c.buf, Indirect(body, r));
  }

  lemma AcceptsKeys(c: Config, body: seq<byte>, loc: nat, w: Width, ks: seq<seq<byte>>, s: State)
    requires IsBody(c, body) && MapKeysAt(body, loc, w, ks) && Affordable(c, s, 1, 1)
    ensures VerifyKeys(c, w, loc, s) == Spent(s, 1)
  {
    var (at, keyWidth) := MapKeys(body, loc, w);
    forall i | 0 <= i < |ks| ensures KeyElementIn(c, body, at, keyWidth, i) {
      assert KeyElementReads(body, TypedElement(at, keyWidth, FBT_KEY, i), ks[i]);
    }
    AcceptsKeyVector(c, body, at, keyWidth, FBT_VECTOR_KEY, |ks|, s);
    KeysRead(c, body, loc, w, at, keyWidth, s);
  }

  lemma KeysRead(c: Config, body: seq<byte>, loc: nat, w: Width, at: nat, keyWidth: Width, s: State)
    requires body <= c.buf && 3 * w <= loc <= |body| && MapKeys(body, loc, w) == (at, keyWidth)
      && Affordable(c, s, 1, 1)
    ensures VerifyKeys(c, w, loc, s) == VerifyVector(c, FBT_VECTOR_KEY, keyWidth, at, FBT_KEY, s)
  {
    ReadInPrefix(body, c.buf, loc - 3 * w, w);
    ReadInPrefix(body, c.buf, loc - 2 * w, w);
  }

  /** A finished buffer that encodes a tree within the depth limit, whose parts are not referred
      to twice, is accepted with or without alignment checking. */
  lemma AcceptsEncoded(c: Config, t: Tree)
    requires Encodes(c.buf, t) && |c.buf| < 0x7FFF_FFFF && Depth(t) <= c.maxDepth && Cost(t) <= |c.buf|
    ensures VerifyBuffer(c).ok
  {
    var body := c.buf[..|c.buf| - 2];
    AcceptsRef(c, body, GetRoot(c.buf), t, State(0, 0));
  }

  // ----- What a verified buffer guarantees, whoever made it -----

  /** Following r and then up to n more references with the accessors reads only inside buf. */
  ghost predicate SafeRef(buf: seq<byte>, r: Reference, n: nat)
    decreases n, 2
  {
    && r.data + r.parentWidth <= |buf|
    && (IsInline(r.type_) || (0 <= Indirect(buf, r) && SafeObject(buf, Indirect(buf, r), r.byteWidth, r.type_, n)))
  }

  ghost predicate SafeObject(buf: seq<byte>, p: nat, w: Width, t: Type, n: nat)
    decreases n, 1
  {
    if FBT_INDIRECT_INT <= t <= FBT_INDIRECT_FLOAT then p + w <= |buf|
    else if t == FBT_KEY then p < |buf|
    else if t == FBT_VECTOR then SafeElements(buf, p, w, false, n)
    else if t == FBT_MAP then
      && SafeElements(buf, p, w, false, n) && 3 * w <= p && 0 <= MapKeys(buf, p, w).0 && IsWidth(MapKeys(buf, p, w).1)
      && SafeElements(buf, MapKeys(buf, p, w).0, MapKeys(buf, p, w).1, true, n)
    else if t == FBT_VECTOR_KEY || t == FBT_VECTOR_STRING_DEPRECATED then SafeElements(buf, p, w, true, n)
    else if IsTypedVector(t) then w <= p <= |buf| && p + Times(ReadSize(buf, p, w), w) <= |buf|
    else if t == FBT_BLOB then w <= p <= |buf| && p + ReadSize(buf, p, w) <= |buf|
    else if t == FBT_STRING then w <= p <= |buf| && p + ReadSize(buf, p, w) + 1 <= |buf|
    else IsFixedTypedVector(t) && p + Times(ToFixedTypedVectorElementType(t).1, w) <= |buf|
  }

  ghost predicate SafeElements(buf: seq<byte>, p: nat, w: Width, keys: bool, n: nat)
    decreases n, 0
  {
    && w <= p <= |buf| && ElementsInRange(buf, p, w, keys, ReadSize(buf, p, w))
    && (n > 0 ==> forall i :: 0 <= i < ReadSize(buf, p, w) ==> SafeRef(buf, Element(buf, p, w, keys, i), n - 1))
  }

  /** Whatever verifies is safe to follow, to any depth. */
  lemma {:induction false} VerifiedRefIsSafe(c: Config, r: Reference, s: State, n: nat)
    requires r.data + r.parentWidth <= |c.buf| && s.vectors <= |c.buf| && s.depth <= c.maxDepth
    requires VerifyRef(c, r, s).ok
    ensures SafeRef(c.buf, r, n)
    decreases n, 1
  {
    if !IsInline(r.type_) {
      VerifiedObjectIsSafe(c, r.type_, r.byteWidth, Indirect(c.buf, r), s, n);
    }
  }

  lemma {:induction false} VerifiedObjectIsSafe(c: Config, t: Type, w: Width, p: nat, s: State, n: nat)
    requires p <= |c.buf| && s.vectors <= |c.buf| && s.depth <= c.maxDepth && VerifyObject(c, t, w, p, s).ok
    ensures SafeObject(c.buf, p, w, t, n)
    decreases n, 0, 2
  {
    if t == FBT_MAP {
      VerifiedVectorIsSafe(c, t, w, p, FBT_NULL, s, n);
      VerifiedKeysAreSafe(c, w, p, VerifyVector(c, t, w, p, FBT_NULL, s).state, n);
    } else if t == FBT_VECTOR {
      VerifiedVectorIsSafe(c, t, w, p, FBT_NULL, s, n);
    } else if t == FBT_VECTOR_KEY || t == FBT_VECTOR_STRING_DEPRECATED {
      VerifiedVectorIsSafe(c, t, w, p, FBT_KEY, s, n);
    }
  }

  lemma {:induction false} VerifiedKeysAreSafe(c: Config, w: Width, p: nat, s: State, n: nat)
    requires p <= |c.buf| && s.vectors <= |c.buf| && s.depth <= c.maxDepth && VerifyKeys(c, w, p, s).ok
    ensures 3 * w <= p && 0 <= MapKeys(c.buf, p, w).0 && IsWidth(MapKeys(c.buf, p, w).1)
    ensures SafeElements(c.buf, MapKeys(c.buf, p, w).0, MapKeys(c.buf, p, w).1, true, n)
    decreases n, 0, 1
  {
    var (at, keyWidth) := MapKeys(c.buf, p, w);
    VerifiedVectorIsSafe(c, FBT_VECTOR_KEY, keyWidth, at, FBT_KEY, s, n);
  }

  lemma {:induction false} VerifiedVectorIsSafe(c: Config, t: Type, w: Width, p: nat, elemType: Type, s: State, n: nat)
    requires p <= |c.buf| && s.vectors <= |c.buf| && s.depth <= c.maxDepth
    requires t != FBT_STRING && t != FBT_BLOB && (elemType == FBT_NULL || elemType == FBT_KEY)
    requires VerifyVector(c, t, w, p, elemType, s).ok
    ensures SafeElements(c.buf, p, w, elemType == FBT_KEY, n)
    decreases n, 0, 0
  {
    hide SafeRef, VerifyElements, ReadUnsigned, FromPacked;
    if n > 0 {
      var keys, len := elemType == FBT_KEY, ReadSize(c.buf, p, w);
      forall i | 0 <= i < len ensures SafeRef(c.buf, Element(c.buf, p, w, keys, i), n - 1) {
        var e := VerifiedElement(c, w, p, keys, 0, len, Enter(s), i);
        VerifiedRefIsSafe(c, Element(c.buf, p, w, keys, i), e, n - 1);
      }
    }
  }

  /** Every element of a verified vector was verified, from some state. */
  lemma {:induction false} VerifiedElement(c: Config, w: Width, p: nat, keys: bool, i: nat, n: nat, s: State, k: nat)
    returns (e: State)
    requires ElementsInRange(c.buf, p, w, keys, n) && i <= k < n && s.vectors <= |c.buf| && s.depth <= c.maxDepth
    requires VerifyElements(c, w, p, keys, i, n, s).ok
    ensures e.vectors <= |c.buf| && e.depth <= c.maxDepth
    ensures Element(c.buf, p, w, keys, k).data + Element(c.buf, p, w, keys, k).parentWidth <= |c.buf|
    ensures VerifyRef(c, Element(c.buf, p, w, keys, k), e).ok
    decreases n - i
  {
    if i == k {
      e := s;
    } else {
      e := VerifiedElement(c, w, p, keys, i + 1, n, VerifyRef(c, Element(c.buf, p, w, keys, i), s).state, k);
    }
  }

  /** A verified buffer, cyclic or not, is safe to read from its root along any path. */
  lemma VerifiedBufferIsSafe(c: Config, n: nat)
    requires VerifyBuffer(c).ok
    ensures 3 <= |c.buf| && IsWidth(c.buf[|c.buf| - 1]) && c.buf[|c.buf| - 1] + 2 <= |c.buf|
    ensures SafeRef(c.buf, GetRoot(c.buf), n)
  {
    VerifiedRefIsSafe(c, GetRoot(c.buf), State(0, 0), n);
  }

  // ----- Keys in verified buffers -----

  /** `VerifyKey` looks for a byte that is not zero instead of one that is: in a buffer that ends with its
      root's width it accepts every position.  There is a key at one exactly if a zero byte follows. */
  lemma KeyCheckTellsNothing(buf: seq<byte>, p: nat)
    requires buf != [] && buf[|buf| - 1] != 0
    ensures VerifyKey(buf, p) <==> p < |buf|
    ensures VerifyKey(buf, p) ==> ((exists k :: KeyAt(buf, p, k)) <==> 0 in buf[p..])
  {
    if p < |buf| {
      VerifyKeyFinds(buf, p);
      if k :| KeyAt(buf, p, k) {
        assert BytesAt(buf, p, k + [0]) && (k + [0])[|k|] == 0;
        assert buf[p..][|k|] == 0;
      }
      if 0 in buf[p..] {
        var k := CString(buf[p..]);
        assert BytesAt(buf, p, k + [0]);
        assert KeyAt(buf, p, k);
      }
    }
  }

  /** A buffer that verifies, whose root is a key without an end. */
  lemma EndlessKeyVerifies(c: Config)
    requires c.buf == [0x61, 0x01, 0x10, 0x01]
    ensures VerifyBuffer(c).ok
    ensures var r := GetRoot(c.buf); r.type_ == FBT_KEY && Indirect(c.buf, r) == 0
    ensures !exists k :: KeyAt(c.buf, 0, k)
  {
    KeyCheckTellsNothing(c.buf, 0);
    assert c.buf[0..] == c.buf;
    var r := GetRoot(c.buf);
    assert r == Reference(1, 1, 1, FBT_KEY);
    assert ReadUnsigned(c.buf, 1, 1) == 1;
    assert VerifyObject(c, FBT_KEY, 1, 0, State(0, 0)).ok;
    assert VerifyRef(c, r, State(0, 0)).ok;
  }
}
