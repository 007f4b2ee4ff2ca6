/** What the FlexBuffers verifier accepts, for any bytes: a definition without its counters, its order or its
    early ends, and the proof that the two agree. */
module FlexWellFormed {
  import opened Bytes
  import opened Widths
  import opened FlexFormat
  import opened FlexVerifier

  /** What an element refers to, nested at most n deep.  Types are given by number: 0 to 3 and 26 are stored
      inline, and there are 37. */
  ghost predicate RefWellFormed(buf: seq<byte>, aligned: bool, r: Reference, n: nat)
    requires r.data + r.parentWidth <= |buf|
    decreases n, 2, 0
  {
    && r.type_ < 37
    && (r.type_ <= 3 || r.type_ == 26 || (
      var off := ReadUnsigned(buf, r.data, r.parentWidth);
      && off <= r.data && (aligned ==> (r.data - off) % r.byteWidth == 0)
      && ObjectWellFormed(buf, aligned, r.type_, r.byteWidth, r.data - off, n)))
  }

  /** A scalar, a key, a vector or a string of this type and width at p. */
  ghost predicate ObjectWellFormed(buf: seq<byte>, aligned: bool, t: Type, w: Width, p: nat, n: nat)
    requires p <= |buf|
    decreases n, 1, 0
  {
    if t == 4 then KeyFrom(buf, p)
    else if 6 <= t <= 8 then Inside(buf, p, w)
    else if t == 9 then VectorWellFormed(buf, aligned, w, p, n) && MapKeysWellFormed(buf, w, p, n)
    else if t == 10 then VectorWellFormed(buf, aligned, w, p, n)
    else if 11 <= t <= 13 || t == 36 then n > 0 && Sized(buf, w, p, w)
    else if t == 14 || t == 15 then n > 0 && KeysWellFormed(buf, w, p)
    else if 16 <= t <= 24 then Inside(buf, p, Times((t - 16) / 3 + 2, w))
    else if t == 25 then n > 0 && Sized(buf, w, p, 1)
    else t == 5 && n > 0 && Sized(buf, w, p, 1) && Inside(buf, p, ReadUnsigned(buf, p - w, w) + 1)
  }

  /** What the verifier takes for a key: a byte that is not zero, at p or after it. */
  ghost predicate KeyFrom(buf: seq<byte>, p: nat) {
    exists k :: p <= k < |buf| && buf[k] != 0
  }

  /** A size of w bytes before p, and from p on so many elements. */
  predicate Sized(buf: seq<byte>, w: Width, p: nat, elem: Width)
    requires p <= |buf|
  {
    && w <= p && ReadUnsigned(buf, p - w, w) < (U64 - 1) / elem
    && Inside(buf, p, Times(ReadUnsigned(buf, p - w, w), elem))
  }

  /** Elements of any type, with their types after them. */
  ghost predicate VectorWellFormed(buf: seq<byte>, aligned: bool, w: Width, p: nat, n: nat)
    requires p <= |buf|
    decreases n, 0, 0
  {
    && n > 0 && Sized(buf, w, p, w)
    && var size := ReadUnsigned(buf, p - w, w);
    && Inside(buf, p + Times(size, w), size) && ElementsWellFormed(buf, aligned, w, p, size, 0, n - 1)
  }

  /** Of m elements those from number i on are well formed. */
  ghost predicate ElementsWellFormed(buf: seq<byte>, aligned: bool, w: Width, p: nat, m: nat, i: nat, n: nat)
    requires p + Times(m, w) + m <= |buf|
    decreases n, 3, 0
  {
    forall k :: i <= k < m ==> RefWellFormed(buf, aligned, ElementOf(buf, w, p, m, k), n)
  }

  /** Element k of m: its type is the k-th byte after them. */
  function ElementOf(buf: seq<byte>, w: Width, p: nat, m: nat, k: nat): (r: Reference)
    requires p + Times(m, w) + m <= |buf| && k < m
    ensures r.data + r.parentWidth <= |buf|
  {
    FromPacked(p + Times(k, w), w, buf[p + Times(m, w) + k])
  }

  /** A vector of offsets, each of a key. */
  ghost predicate KeysWellFormed(buf: seq<byte>, w: Width, p: nat)
    requires p <= |buf|
  {
    && Sized(buf, w, p, w)
    && forall i :: 0 <= i < ReadUnsigned(buf, p - w, w) ==> KeyOffset(buf, p + Times(i, w), w)
  }

  ghost predicate KeyOffset(buf: seq<byte>, at: nat, w: Width) {
    && at + w <= |buf| && ReadUnsigned(buf, at, w) <= at
    && KeyFrom(buf, at - ReadUnsigned(buf, at, w))
  }

  /** Before the size of a map the offset of its key vector, and that vector's width. */
  ghost predicate MapKeysWellFormed(buf: seq<byte>, w: Width, p: nat, n: nat)
    requires p <= |buf|
  {
    && n > 0 && 3 * w <= p && ReadUnsigned(buf, p - 3 * w, w) <= p - 3 * w
    && var keyWidth := ReadUnsigned(buf, p - 2 * w, w) % 256;
    && (keyWidth == 1 || keyWidth == 2 || keyWidth == 4 || keyWidth == 8)
    && KeysWellFormed(buf, keyWidth, p - 3 * w - ReadUnsigned(buf, p - 3 * w, w))
  }

  // ----- How many vectors there are -----

  ghost function VectorsOfRef(buf: seq<byte>, aligned: bool, r: Reference, n: nat): nat
    requires r.data + r.parentWidth <= |buf| && RefWellFormed(buf, aligned, r, n)
    decreases n, 2, 0
  {
    if r.type_ <= 3 || r.type_ == 26 then 0
    else VectorsOfObject(buf, aligned, r.type_, r.byteWidth, r.data - ReadUnsigned(buf, r.data, r.parentWidth), n)
  }

  /** Strings and blobs count, and the key vectors of maps. */
  ghost function VectorsOfObject(buf: seq<byte>, aligned: bool, t: Type, w: Width, p: nat, n: nat): nat
    requires p <= |buf| && ObjectWellFormed(buf, aligned, t, w, p, n)
    decreases n, 1, 0
  {
    if t == 9 then VectorsOf(buf, aligned, w, p, n) + 1
    else if t == 10 then VectorsOf(buf, aligned, w, p, n)
    else if t == 5 || 11 <= t <= 15 || t == 25 || t == 36 then 1
    else 0
  }

  ghost function VectorsOf(buf: seq<byte>, aligned: bool, w: Width, p: nat, n: nat): nat
    requires p <= |buf| && VectorWellFormed(buf, aligned, w, p, n)
    decreases n, 0, 0
  {
    1 + VectorsOfElements(buf, aligned, w, p, ReadUnsigned(buf, p - w, w), 0, n - 1)
  }

  ghost function VectorsOfElements(buf: seq<byte>, aligned: bool, w: Width, p: nat, m: nat, i: nat, n: nat): nat
    requires p + Times(m, w) + m <= |buf| && i <= m && ElementsWellFormed(buf, aligned, w, p, m, i, n)
    decreases n, 3, m - i
  {
    if i == m then 0
    else
      VectorsOfRef(buf, aligned, ElementOf(buf, w, p, m, i), n)
      + VectorsOfElements(buf, aligned, w, p, m, i + 1, n)
  }

  // ----- The verifier -----

  /** A verification succeeds exactly if what it is of is well formed and its vectors are no more than the bytes
      of the buffer; then it has counted them. */
  ghost predicate Decides(c: Config, s: State, v: Verdict, wellFormed: bool, vectors: nat) {
    && (v.ok <==> wellFormed && s.vectors + vectors <= |c.buf|)
    && (v.ok ==> v.state.vectors == s.vectors + vectors)
  }

  ghost predicate Within(c: Config, s: State) {
    s.vectors <= |c.buf| && s.depth <= c.maxDepth
  }

  lemma {:induction false} KeyExact(buf: seq<byte>, p: nat)
    ensures VerifyKey(buf, p) <==> KeyFrom(buf, p)
    decreases |buf| - p
  {
    if p < |buf| {
      KeyExact(buf, p + 1);
    }
  }

  lemma {:induction false} RefExact(c: Config, r: Reference, s: State)
    requires r.data + r.parentWidth <= |c.buf| && Within(c, s)
    ensures var n := c.maxDepth - s.depth; var w := RefWellFormed(c.buf, c.checkAlignment, r, n);
      Decides(c, s, VerifyRef(c, r, s), w, if w then VectorsOfRef(c.buf, c.checkAlignment, r, n) else 0)
    decreases c.maxDepth - s.depth, 2, 0
  {
    hide ObjectWellFormed, VectorsOfObject, VerifyObject;
    if r.type_ < FBT_MAX_TYPE && !IsInline(r.type_) {
      var off := ReadUnsigned(c.buf, r.data, r.parentWidth);
      if off <= r.data {
        AlignedIsMultiple(r.data - off, r.byteWidth);
        ObjectExact(c, r.type_, r.byteWidth, r.data - off, s);
      }
    }
  }

  lemma {:induction false} ObjectExact(c: Config, t: Type, w: Width, p: nat, s: State)
    requires p <= |c.buf| && Within(c, s) && t < 37 && !IsInline(t)
    ensures var n := c.maxDepth - s.depth; var x := ObjectWellFormed(c.buf, c.checkAlignment, t, w, p, n);
      Decides(c, s, VerifyObject(c, t, w, p, s), x,
        if x then VectorsOfObject(c.buf, c.checkAlignment, t, w, p, n) else 0)
    decreases c.maxDepth - s.depth, 1, 0
  {
    if t == 9 {
      hide VectorWellFormed, VectorsOf, VerifyVector, VerifyKeys, MapKeysWellFormed;
      VectorExact(c, t, w, p, s);
      var v := VerifyVector(c, t, w, p, FBT_NULL, s);
      if v.ok {
        MapKeysExact(c, w, p, v.state);
      }
    } else if t == 10 {
      hide VectorWellFormed, VectorsOf, VerifyVector;
      VectorExact(c, t, w, p, s);
    } else if t == 4 || 6 <= t <= 8 || 16 <= t <= 24 {
      hide KeyFrom, VerifyKey, Times, Inside, VerifyFrom;
      LeafExact(c, t, w, p, s);
    } else if t == 5 || 11 <= t <= 15 || t == 25 || t == 36 {
      hide KeysWellFormed, Sized, Inside, VerifyVector, ReadUnsigned, VerifyFrom;
      SizedObjectExact(c, t, w, p, s);
    }
  }

  lemma LeafExact(c: Config, t: Type, w: Width, p: nat, s: State)
    requires p <= |c.buf| && Within(c, s) && (t == 4 || 6 <= t <= 8 || 16 <= t <= 24)
    ensures VerifyObject(c, t, w, p, s)
      == Verdict(ObjectWellFormed(c.buf, c.checkAlignment, t, w, p, c.maxDepth - s.depth), s)
  {
    hide KeyFrom, VerifyKey, Times;
    KeyExact(c.buf, p);
  }

  lemma SizedObjectExact(c: Config, t: Type, w: Width, p: nat, s: State)
    requires p <= |c.buf| && Within(c, s) && (t == 5 || 11 <= t <= 15 || t == 25 || t == 36)
    ensures Decides(c, s, VerifyObject(c, t, w, p, s),
              ObjectWellFormed(c.buf, c.checkAlignment, t, w, p, c.maxDepth - s.depth), 1)
  {
    hide KeysWellFormed, Sized, VerifyVector, ReadUnsigned;
    if t == 14 || t == 15 {
      KeysExact(c, t, w, p, s);
    } else {
      SizedExact(c, t, w, p, if t == 5 || t == 25 then FBT_UINT else ElementCheck(t), s);
    }
  }

  /** What needs no look at the elements. */
  lemma SizedExact(c: Config, t: Type, w: Width, p: nat, elemType: Type, s: State)
    requires p <= |c.buf| && Within(c, s) && elemType != FBT_NULL && elemType != FBT_KEY
    requires t == FBT_STRING || t == FBT_BLOB ==> elemType == FBT_UINT
    ensures Decides(c, s, VerifyVector(c, t, w, p, elemType, s),
              s.depth < c.maxDepth && Sized(c.buf, w, p, ElementWidth(t, w)), 1)
    ensures Sized(c.buf, w, p, ElementWidth(t, w)) ==> w <= p && ReadSize(c.buf, p, w) == ReadUnsigned(c.buf, p - w, w)
  {
  }

  lemma {:induction false} VectorExact(c: Config, t: Type, w: Width, p: nat, s: State)
    requires p <= |c.buf| && Within(c, s) && (t == FBT_VECTOR || t == FBT_MAP)
    ensures var n := c.maxDepth - s.depth; var x := VectorWellFormed(c.buf, c.checkAlignment, w, p, n);
      Decides(c, s, VerifyVector(c, t, w, p, FBT_NULL, s), x,
        if x then VectorsOf(c.buf, c.checkAlignment, w, p, n) else 0)
    decreases c.maxDepth - s.depth, 0, 0
  {
    hide ElementsWellFormed, VerifyElements, VectorsOfElements, ReadUnsigned, Times, VectorInRange, Sized, Inside;
    AnyInRange(c, t, w, p);
    if s.depth < c.maxDepth && s.vectors < |c.buf| && VectorInRange(c, t, w, p, FBT_NULL) {
      ElementsExact(c, w, p, ReadSize(c.buf, p, w), 0, Enter(s));
    }
  }

  lemma AnyInRange(c: Config, t: Type, w: Width, p: nat)
    requires p <= |c.buf| && (t == FBT_VECTOR || t == FBT_MAP)
    ensures VectorInRange(c, t, w, p, FBT_NULL) <==>
      && Sized(c.buf, w, p, w)
      && var size := ReadUnsigned(c.buf, p - w, w); Inside(c.buf, p + Times(size, w), size)
    ensures VectorInRange(c, t, w, p, FBT_NULL) ==>
      w <= p && ElementsInRange(c.buf, p, w, false, ReadUnsigned(c.buf, p - w, w))
  {
    hide ReadUnsigned;
  }

  lemma KeysInRange(c: Config, t: Type, w: Width, p: nat)
    requires p <= |c.buf| && (t == FBT_VECTOR_KEY || t == FBT_VECTOR_STRING_DEPRECATED)
    ensures VectorInRange(c, t, w, p, FBT_KEY) <==> Sized(c.buf, w, p, w)
  {
    hide ReadUnsigned;
  }

  lemma ElementIs(buf: seq<byte>, w: Width, p: nat, m: nat, i: nat)
    requires w <= p <= |buf| && ElementsInRange(buf, p, w, false, m) && i < m
    ensures var r := Element(buf, p, w, false, i);
      && p + Times(m, w) + m <= |buf| && r == ElementOf(buf, w, p, m, i)
      && r.data + r.parentWidth <= |buf|
  {
    hide ReadUnsigned;
  }

  /** What is verified first of the elements from number i on. */
  lemma ElementsStep(c: Config, w: Width, p: nat, m: nat, i: nat, s: State)
    requires w <= p <= |c.buf| && ElementsInRange(c.buf, p, w, false, m) && i <= m && Within(c, s)
    ensures i == m ==> VerifyElements(c, w, p, false, i, m, s) == Verdict(true, s)
    ensures i < m ==>
      var r := Element(c.buf, p, w, false, i);
      && r.data + r.parentWidth <= |c.buf|
      && var v := VerifyRef(c, r, s);
         VerifyElements(c, w, p, false, i, m, s)
           == if v.ok then VerifyElements(c, w, p, false, i + 1, m, v.state) else v
  {
    hide VerifyRef, ReadUnsigned, FromPacked, Times;
    if i < m {
      ElementIs(c.buf, w, p, m, i);
    }
  }

  lemma {:induction false} ElementsExact(c: Config, w: Width, p: nat, m: nat, i: nat, s: State)
    requires w <= p <= |c.buf| && ElementsInRange(c.buf, p, w, false, m) && i <= m && Within(c, s)
    ensures p + Times(m, w) + m <= |c.buf|
    ensures var n := c.maxDepth - s.depth; var x := ElementsWellFormed(c.buf, c.checkAlignment, w, p, m, i, n);
      Decides(c, s, VerifyElements(c, w, p, false, i, m, s), x,
        if x then VectorsOfElements(c.buf, c.checkAlignment, w, p, m, i, n) else 0)
    decreases c.maxDepth - s.depth, 3, m - i
  {
    hide RefWellFormed, VerifyRef, VectorsOfRef, ElementOf, Element, Times, ReadUnsigned, VerifyElements;
    ElementsStep(c, w, p, m, i, s);
    if i < m {
      ElementIs(c.buf, w, p, m, i);
      var r := Element(c.buf, p, w, false, i);
      RefExact(c, r, s);
      var v := VerifyRef(c, r, s);
      if v.ok {
        ElementsExact(c, w, p, m, i + 1, v.state);
      }
    }
  }

  lemma KeysExact(c: Config, t: Type, w: Width, p: nat, s: State)
    requires p <= |c.buf| && Within(c, s) && (t == FBT_VECTOR_KEY || t == FBT_VECTOR_STRING_DEPRECATED)
    ensures Decides(c, s, VerifyVector(c, t, w, p, FBT_KEY, s),
              s.depth < c.maxDepth && KeysWellFormed(c.buf, w, p), 1)
  {
    hide KeyOffset, VerifyElements, ReadUnsigned, Times;
    KeysInRange(c, t, w, p);
    if s.depth < c.maxDepth && s.vectors < |c.buf| && VectorInRange(c, t, w, p, FBT_KEY) {
      KeyElementsExact(c, w, p, 0, ReadSize(c.buf, p, w), Enter(s));
    }
  }

  lemma {:induction false} KeyElementsExact(c: Config, w: Width, p: nat, i: nat, m: nat, s: State)
    requires ElementsInRange(c.buf, p, w, true, m) && i <= m && Within(c, s)
    ensures Decides(c, s, VerifyElements(c, w, p, true, i, m, s),
              forall k :: i <= k < m ==> KeyOffset(c.buf, p + Times(k, w), w), 0)
    decreases m - i
  {
    hide KeyOffset, VerifyRef;
    if i < m {
      KeyElementExact(c, w, p, i, m, s);
      KeyElementsExact(c, w, p, i + 1, m, s);
    }
  }

  lemma KeyElementExact(c: Config, w: Width, p: nat, i: nat, m: nat, s: State)
    requires ElementsInRange(c.buf, p, w, true, m) && i < m && Within(c, s)
    ensures Element(c.buf, p, w, true, i) == Reference(p + Times(i, w), w, 1, FBT_KEY)
    ensures p + Times(i, w) + w <= |c.buf|
    ensures VerifyRef(c, Reference(p + Times(i, w), w, 1, FBT_KEY), s)
      == Verdict(KeyOffset(c.buf, p + Times(i, w), w), s)
  {
    hide KeyFrom, VerifyKey;
    var at := p + Times(i, w);
    if ReadUnsigned(c.buf, at, w) <= at {
      KeyExact(c.buf, at - ReadUnsigned(c.buf, at, w));
    }
  }

  lemma MapKeysExact(c: Config, w: Width, p: nat, s: State)
    requires p <= |c.buf| && Within(c, s)
    ensures Decides(c, s, VerifyKeys(c, w, p, s), MapKeysWellFormed(c.buf, w, p, c.maxDepth - s.depth), 1)
  {
    hide KeysWellFormed, VerifyVector;
    if 3 * w <= p {
      var at := p - 3 * w;
      var off, keyWidth := ReadUnsigned(c.buf, at, w), ReadUnsigned(c.buf, at + w, w) % 256;
      if off <= at && IsWidth(keyWidth) {
        KeysExact(c, FBT_VECTOR_KEY, keyWidth, at - off, s);
      }
    }
  }

  // ----- Whole buffers -----

  /** At the end the width of the root, before it the type, and before that the root. */
  ghost predicate BufferWellFormed(buf: seq<byte>, aligned: bool, n: nat) {
    && |buf| >= 3
    && var w := buf[|buf| - 1];
    && (w == 1 || w == 2 || w == 4 || w == 8) && w + 2 <= |buf|
    && RefWellFormed(buf, aligned, FromPacked(|buf| - 2 - w, w, buf[|buf| - 2]), n)
  }

  ghost function VectorsIn(buf: seq<byte>, aligned: bool, n: nat): nat
    requires BufferWellFormed(buf, aligned, n)
  {
    var w: Width := buf[|buf| - 1];
    VectorsOfRef(buf, aligned, FromPacked(|buf| - 2 - w, w, buf[|buf| - 2]), n)
  }

  /** Any bytes verify exactly if they are well formed, nested no deeper than allowed, and have no more vectors
      than bytes. */
  lemma VerifiesExactly(c: Config)
    ensures VerifyBuffer(c).ok <==>
      && BufferWellFormed(c.buf, c.checkAlignment, c.maxDepth)
      && VectorsIn(c.buf, c.checkAlignment, c.maxDepth) <= |c.buf|
  {
    hide RefWellFormed, VerifyRef, VectorsOfRef;
    if |c.buf| >= 3 && IsWidth(c.buf[|c.buf| - 1]) && c.buf[|c.buf| - 1] + 2 <= |c.buf| {
      RefExact(c, GetRoot(c.buf), State(0, 0));
    }
  }

  /** A number of two bytes at an odd position: refused exactly if alignment is checked. */
  lemma MisalignedRefused(c: Config)
    requires c.buf == [0, 5, 0, 2, 25, 1]
    ensures VerifyBuffer(c).ok <==> !c.checkAlignment
  {
    var r := GetRoot(c.buf);
    assert r == Reference(3, 1, 2, FBT_INDIRECT_INT);
    assert ReadUnsigned(c.buf, 3, 1) == c.buf[3] + 256 * ReadUnsigned(c.buf, 4, 0) == 2;
    assert VerifyRef(c, r, State(0, 0)).ok <==> !c.checkAlignment;
  }
}
