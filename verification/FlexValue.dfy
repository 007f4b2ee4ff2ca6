/** Values waiting on the builder's stack, and the choice of element width.  An offset's width
    depends on where it will be written, and that position depends on the width. */
module FlexValue {
  import opened Bytes
  import opened Order
  import opened Widths
  import opened FlexFormat
  import opened FlexTree
  import opened FlexCost

  /** u is the 64-bit scalar, or the absolute position of the object for types stored by offset. */
  datatype Value = Value(u: nat, type_: Type, minBitWidth: BitWidth) {

    /** An offset leads to an object of its own width; a scalar is as wide as it is stored. */
    function StoredWidth(parentBitWidth: BitWidth): (b: BitWidth)
      ensures !IsInline(type_) ==> b == minBitWidth
      ensures IsInline(type_) ==> parentBitWidth <= b && minBitWidth <= b && (b == parentBitWidth || b == minBitWidth)
    {
      if IsInline(type_) && minBitWidth < parentBitWidth then parentBitWidth else minBitWidth
    }

    function StoredPackedType(parentBitWidth: BitWidth): byte {
      PackedType(StoredWidth(parentBitWidth), type_)
    }
  }

  /** The type byte of a root, which has no parent: StoredPackedType's default argument. */
  function RootPackedType(v: Value): (p: byte)
    ensures p == PackedType(v.minBitWidth, v.type_)
  {
    v.StoredPackedType(0)
  }

  /** v denotes t in a buffer that starts with buf. */
  ghost predicate ValueReads(buf: seq<byte>, v: Value, t: Tree) {
    if IsInline(v.type_) then InlineValue(v, t)
    else v.u <= |buf| && ObjectAt(buf, v.u, ByteWidth(v.minBitWidth), v.type_, t)
  }

  /** All trees that v denotes. */
  ghost function Denotations(buf: seq<byte>, v: Value): iset<Tree> {
    iset t | ValueReads(buf, v, t)
  }

  predicate InlineValue(v: Value, t: Tree) {
    match t
    case Null => v == Value(0, FBT_NULL, 0)
    case Bool(b) => v == Value(if b then 1 else 0, FBT_BOOL, 0)
    case Int(i) => IsInt64(i) && v == Value(ToUint64(i), FBT_INT, WidthI(i))
    case UInt(u) => u < U64 && v == Value(u, FBT_UINT, WidthU(u))
    case _ => false
  }

  lemma ValueReadsGrows(a: seq<byte>, b: seq<byte>, v: Value, t: Tree)
    requires a <= b && ValueReads(a, v, t)
    ensures ValueReads(b, v, t)
  {
    if !IsInline(v.type_) {
      ObjectAtGrows(a, b, v.u, ByteWidth(v.minBitWidth), v.type_, t);
    }
  }

  /** The least width for a number without sign. */
  predicate IsLeastUnsigned(b: BitWidth, u: nat) {
    forall c: BitWidth :: b <= c <==> c == 3 || u < Capacity(ByteWidth(c))
  }

  /** The least width for a number with sign. */
  predicate IsLeastSigned(b: BitWidth, i: int) {
    forall c: BitWidth :: b <= c <==> c == 3 || -(Capacity(ByteWidth(c)) / 2) <= i < Capacity(ByteWidth(c)) / 2
  }

  lemma WidthUChosen(u: nat)
    ensures IsLeastUnsigned(WidthU(u), u)
  {
  }

  lemma WidthIChosen(i: int)
    requires IsInt64(i)
    ensures IsLeastSigned(WidthI(i), i)
  {
    hide WidthI;
    WidthIIsLeast(i, 0);
    WidthIIsLeast(i, 1);
    WidthIIsLeast(i, 2);
  }

  // ----- Element widths -----

  /** Where element number index of a vector of width w starts, if it is begun at bufSize. */
  function OffsetLocation(bufSize: nat, index: nat, b: BitWidth): (loc: nat)
    ensures loc >= bufSize
  {
    bufSize + Padding(bufSize, ByteWidth(b)) + Times(index, ByteWidth(b))
  }

  predicate OffsetFits(bufSize: nat, index: nat, u: nat, b: BitWidth) {
    OffsetLocation(bufSize, index, b) - u < Capacity(ByteWidth(b))
  }

  /** The smallest width that can hold v as element number index; 64 bits hold anything. */
  function LeastWidth(v: Value, bufSize: nat, index: nat): BitWidth {
    if IsInline(v.type_) then v.minBitWidth
    else if OffsetFits(bufSize, index, v.u, 0) then 0
    else if OffsetFits(bufSize, index, v.u, 1) then 1
    else if OffsetFits(bufSize, index, v.u, 2) then 2
    else 3
  }

  /** As element number index of a vector begun at bufSize, an offset that leads to u fits the width of the
      vector: 64 bits hold any. */
  predicate HoldsOffset(u: nat, bufSize: nat, index: nat, b: BitWidth) {
    var w := ByteWidth(b);
    b == 3 || bufSize + Padding(bufSize, w) + Times(index, w) - u < Capacity(w)
  }

  predicate HoldsValue(v: Value, bufSize: nat, index: nat, b: BitWidth) {
    if IsInline(v.type_) then v.minBitWidth <= b else HoldsOffset(v.u, bufSize, index, b)
  }

  /** LeastWidth is the least width that holds the value. */
  lemma LeastWidthHolds(v: Value, bufSize: nat, index: nat, b: BitWidth)
    requires !IsInline(v.type_) ==> v.u <= bufSize
    ensures LeastWidth(v, bufSize, index) <= b <==> HoldsValue(v, bufSize, index, b)
  {
    if !IsInline(v.type_) {
      if OffsetFits(bufSize, index, v.u, b) {
        assert LeastWidth(v, bufSize, index) <= b;
      } else if LeastWidth(v, bufSize, index) <= b < 3 {
        FitsWider(bufSize, index, v.u, LeastWidth(v, bufSize, index), b);
      }
    }
  }

  lemma PaddingGrows(n: nat, b: BitWidth)
    requires b < 3
    ensures Padding(n, ByteWidth(b)) <= Padding(n, ByteWidth(b + 1))
  {
    if b == 1 {
      ModAddMultiple(2 * (n / 4) + n % 4 / 2, n % 4 % 2, 2);
    } else if b == 2 {
      ModAddMultiple(2 * (n / 8) + n % 8 / 4, n % 8 % 4, 4);
    }
  }

  /** The loop of ElemWidth always finds a width equal to the one it tries, so the assertion
      after it is unreachable. */
  method ElemWidth(v: Value, bufSize: nat, index: nat) returns (b: BitWidth)
    requires !IsInline(v.type_) ==> v.u <= bufSize
    ensures b == LeastWidth(v, bufSize, index)
    ensures HoldsValue(v, bufSize, index, b) && forall c: BitWidth :: c < b ==> !HoldsValue(v, bufSize, index, c)
  {
    forall c: BitWidth ensures LeastWidth(v, bufSize, index) <= c <==> HoldsValue(v, bufSize, index, c) {
      LeastWidthHolds(v, bufSize, index, c);
    }
    if IsInline(v.type_) {
      return v.minBitWidth;
    }
    var log := 0;
    while log <= 3
      invariant 0 <= log <= 3
      invariant forall c: BitWidth :: c < log ==> !OffsetFits(bufSize, index, v.u, c)
    {
      var offset := OffsetLocation(bufSize, index, log) - v.u;
      var bitWidth := WidthU(offset);
      if log > 0 {
        PaddingGrows(bufSize, log - 1);
        assert !OffsetFits(bufSize, index, v.u, log - 1);
      }
      if ByteWidth(bitWidth) == ByteWidth(log) {
        return bitWidth;
      }
      assert !OffsetFits(bufSize, index, v.u, log);
      log := log + 1;
    }
    assert false;
  }

  lemma FitsDoubled(bufSize: nat, index: nat, u: nat, b: BitWidth)
    requires u <= bufSize && b < 3 && OffsetFits(bufSize, index, u, b)
    ensures OffsetFits(bufSize, index, u, b + 1)
  {
    var a := ByteWidth(b);
    assert ByteWidth(b + 1) == 2 * a && Times(index, 2 * a) == 2 * Times(index, a);
  }

  lemma {:induction false} FitsWider(bufSize: nat, index: nat, u: nat, b: BitWidth, c: BitWidth)
    requires u <= bufSize && b <= c && OffsetFits(bufSize, index, u, b)
    ensures OffsetFits(bufSize, index, u, c)
    decreases c - b
  {
    if b < c {
      FitsDoubled(bufSize, index, u, b);
      FitsWider(bufSize, index, u, b + 1, c);
    }
  }

  /** An offset still fits when the vector ends up wider than this element needs and the element
      comes earlier than estimated (map vectors estimate with stride two). */
  lemma OffsetFitsFinalWidth(v: Value, bufSize: nat, estimate: nat, index: nat, b: BitWidth)
    requires !IsInline(v.type_) && v.u <= bufSize
    requires LeastWidth(v, bufSize, estimate) <= b && index <= estimate
    ensures b == 3 || OffsetFits(bufSize, index, v.u, b)
  {
    if b < 3 {
      FitsWider(bufSize, estimate, v.u, LeastWidth(v, bufSize, estimate), b);
    }
  }

  // ----- One element written and read back -----

  /** What `WriteAny` appends for v when the buffer has `at` bytes. */
  function AnyBytes(v: Value, at: nat, w: Width): (s: seq<byte>)
    requires !IsInline(v.type_) ==> v.u <= at
    ensures |s| == w
  {
    LittleEndian(if IsInline(v.type_) then v.u else at - v.u, w)
  }

  lemma IntReadsBack(buf: seq<byte>, at: nat, w: Width, i: int)
    requires IsInt64(i) && ByteWidth(WidthI(i)) <= w && BytesAt(buf, at, LittleEndian(ToUint64(i), w))
    ensures ReadInt64(buf, at, w) == i
  {
    var b: BitWidth := if w == 1 then 0 else if w == 2 then 1 else if w == 4 then 2 else 3;
    WidthIIsLeast(i, b);
    CapacityIsLimit(w);
    if i >= 0 {
      StoredReadsBack(buf, at, w, i);
    } else {
      NegativeBytes(i, w);
      StoredReadsBack(buf, at, w, i + Limit(w));
    }
  }

  lemma NegativeBytes(i: int, w: Width)
    requires IsInt64(i) && -(Capacity(w) as int) <= i < 0
    ensures LittleEndian(ToUint64(i), w) == LittleEndian(i + Limit(w), w)
  {
    CapacityIsLimit(w);
    var q := U64 / Capacity(w) - 1;
    assert q * Limit(w) + (i + Limit(w)) == i + U64 by {
      assert (q + 1) * Capacity(w) == U64;
    }
    LittleEndianNarrow(i + Limit(w), q, w);
  }

  lemma IndirectReadsBack(buf: seq<byte>, loc: nat, b: BitWidth, type_: Type, t: Tree, u: nat)
    requires t.IndirectInt? || t.IndirectUInt?
    requires t.IndirectInt? ==> type_ == FBT_INDIRECT_INT && IsInt64(t.i) && u == ToUint64(t.i) && b == WidthI(t.i)
    requires t.IndirectUInt? ==> type_ == FBT_INDIRECT_UINT && t.u == u < U64 && b == WidthU(u)
    requires BytesAt(buf, loc, LittleEndian(u, ByteWidth(b)))
    ensures LeafAt(buf, loc, ByteWidth(b), type_, t)
  {
    if t.IndirectInt? {
      IntReadsBack(buf, loc, ByteWidth(b), t.i);
    } else {
      WidthUIsLeast(u, b);
      ScalarReadsBack(buf, loc, ByteWidth(b), u);
    }
  }

  /** A length written at its own width, then the bytes, then maybe a terminator. */
  lemma BlobReadsBack(aligned: seq<byte>, buf: seq<byte>, w: Width, data: seq<byte>, trailing: bool)
    requires |data| < U64 && w == ByteWidth(WidthU(|data|)) && IsAligned(|aligned|, w)
    requires buf == aligned + LittleEndian(|data|, w) + (data + if trailing then [0] else [])
    ensures ObjectAt(buf, |aligned| + w, w, if trailing then FBT_STRING else FBT_BLOB,
                     if trailing then Tree.Str(data) else Tree.Blob(data))
  {
    hide SizedAt, BytesAt, TerminatedAt, LittleEndian, WidthU, ByteWidth, IsAligned;
    AlignedAfter(|aligned|, w);
    BlobBytes(aligned, buf, w, data, trailing);
  }

  lemma AlignedAfter(n: nat, w: Width)
    requires IsAligned(n, w)
    ensures IsAligned(n + w, w)
  {
  }

  lemma BlobBytes(aligned: seq<byte>, buf: seq<byte>, w: Width, data: seq<byte>, trailing: bool)
    requires |data| < U64 && w == ByteWidth(WidthU(|data|))
    requires buf == aligned + LittleEndian(|data|, w) + (data + if trailing then [0] else [])
    ensures var loc := |aligned| + w;
      SizedAt(buf, loc, w, |data|) && BytesAt(buf, loc, data) && (trailing ==> TerminatedAt(buf, loc, data))
  {
    hide WidthU, LittleEndian, ReadUnsigned, Capacity;
    var loc := |aligned| + w;
    WidthUIsLeast(|data|, WidthU(|data|));
    assert BytesAt(buf, loc - w, LittleEndian(|data|, w));
    ScalarReadsBack(buf, loc - w, w, |data|);
  }

  lemma InlineReadsBack(buf: seq<byte>, r: Reference, v: Value, t: Tree)
    requires IsInline(v.type_) && InlineValue(v, t) && r.type_ == v.type_
    requires r.data + r.parentWidth <= |buf| && ByteWidth(v.minBitWidth) <= r.parentWidth
    requires BytesAt(buf, r.data, LittleEndian(v.u, r.parentWidth))
    ensures InlineReads(buf, r, t)
  {
    var w := r.parentWidth;
    if t.Int? {
      IntReadsBack(buf, r.data, w, t.i);
    } else {
      WidthUIsLeast(v.u, v.minBitWidth);
      ScalarReadsBack(buf, r.data, w, v.u);
    }
  }

  lemma OffsetReadsBack(base: seq<byte>, buf: seq<byte>, r: Reference, loc: nat, t: Tree)
    requires base <= buf && loc <= r.data && r.data + r.parentWidth <= |buf|
    requires !IsInline(r.type_) && ObjectAt(base, loc, r.byteWidth, r.type_, t)
    requires r.data - loc < Capacity(r.parentWidth)
    requires BytesAt(buf, r.data, LittleEndian(r.data - loc, r.parentWidth))
    ensures RefReads(buf, r, t)
  {
    ScalarReadsBack(buf, r.data, r.parentWidth, r.data - loc);
    ObjectAtGrows(base, buf, loc, r.byteWidth, r.type_, t);
    OffsetReads(buf, r, loc, t);
  }

  /** An element written at a width that can hold it is read back as what its value denotes. */
  lemma ElementReadsBack(base: seq<byte>, buf: seq<byte>, r: Reference, v: Value, t: Tree)
    requires base <= buf && |base| <= r.data && r.data + r.parentWidth <= |buf|
    requires ValueReads(base, v, t) && r.type_ == v.type_
    requires BytesAt(buf, r.data, AnyBytes(v, r.data, r.parentWidth))
    requires if IsInline(v.type_) then ByteWidth(v.minBitWidth) <= r.parentWidth
             else r.data - v.u < Capacity(r.parentWidth) && r.byteWidth == ByteWidth(v.minBitWidth)
    ensures RefReads(buf, r, t)
  {
    if IsInline(v.type_) {
      InlineReadsBack(buf, r, v, t);
    } else {
      OffsetReadsBack(base, buf, r, v.u, t);
    }
  }

  /** A typed vector gives its elements no width, and reads strings as keys: a string comes back
      as its C string. */
  function AsTyped(t: Tree): Tree {
    if t.Str? then Tree.Key(CString(t.str)) else t
  }

  lemma TypedElementReadsBack(base: seq<byte>, buf: seq<byte>, r: Reference, v: Value, t: Tree)
    requires base <= buf && |base| <= r.data && r.data + r.parentWidth <= |buf|
    requires ValueReads(base, v, t) && IsTypedVectorElementType(v.type_)
    requires r.type_ == (if v.type_ == FBT_STRING then FBT_KEY else v.type_) && r.byteWidth == 1
    requires BytesAt(buf, r.data, AnyBytes(v, r.data, r.parentWidth))
    requires if IsInline(v.type_) then ByteWidth(v.minBitWidth) <= r.parentWidth
             else r.data - v.u < Capacity(r.parentWidth)
    ensures RefReads(buf, r, AsTyped(t))
  {
    if v.type_ == FBT_STRING {
      StringObjectIsKey(base, v.u, ByteWidth(v.minBitWidth), t);
      OffsetReadsBack(base, buf, r, v.u, AsTyped(t));
    } else {
      if !IsInline(v.type_) {
        TypeTellsLeaf(base, v.u, ByteWidth(v.minBitWidth), v.type_, t);
      }
      assert !t.Str?;
      ElementReadsBack(base, buf, r, v, t);
    }
  }

  lemma StringObjectIsKey(buf: seq<byte>, loc: nat, w: Width, t: Tree)
    requires ObjectAt(buf, loc, w, FBT_STRING, t)
    ensures t.Str? && ObjectAt(buf, loc, 1, FBT_KEY, AsTyped(t))
  {
    TypeTellsLeaf(buf, loc, w, FBT_STRING, t);
    StringIsKey(buf, loc, t.str);
  }

  lemma StringIsKey(buf: seq<byte>, loc: nat, s: seq<byte>)
    requires TerminatedAt(buf, loc, s)
    ensures KeyAt(buf, loc, CString(s))
  {
    var c := CString(s);
    if 0 in s {
      assert buf[loc + |c|] == s[|c|];
    }
  }

  // ----- Elements of a vector -----

  /** How an accessor of the vector at loc, of width ByteWidth(b), refers to element k. */
  function ElementReference(loc: nat, b: BitWidth, v: Value, k: nat, typed: bool): Reference {
    if typed then TypedElement(loc, ByteWidth(b), v.type_, k)
    else Reference(loc + Times(k, ByteWidth(b)), ByteWidth(b), ByteWidth(v.StoredWidth(b)), v.type_)
  }

  function ElementTree(t: Tree, typed: bool): Tree {
    if typed then AsTyped(t) else t
  }

  /** v can be written at position loc at width ByteWidth(b): for an offset, the assertion in
      `WriteOffset` holds. */
  predicate FitsAt(v: Value, loc: nat, b: BitWidth) {
    if IsInline(v.type_) then v.minBitWidth <= b
    else v.u <= loc && (b == 3 || loc - v.u < Capacity(ByteWidth(b)))
  }

  lemma LocationOfElement(bufSize: nat, prefix: nat, k: nat, b: BitWidth)
    ensures OffsetLocation(bufSize, prefix, b) + Times(k, ByteWidth(b)) == OffsetLocation(bufSize, prefix + k, b)
  {
  }

  lemma ElementWritten(base: seq<byte>, buf: seq<byte>, loc: nat, k: nat, b: BitWidth, v: Value, t: Tree, typed: bool)
    requires base <= buf && |base| <= loc && ValueReads(base, v, t)
    requires typed ==> IsTypedVectorElementType(v.type_)
    requires |buf| == loc + Times(k, ByteWidth(b)) + ByteWidth(b) < U64
    requires FitsAt(v, |buf| - ByteWidth(b), b)
    requires BytesAt(buf, |buf| - ByteWidth(b), AnyBytes(v, |buf| - ByteWidth(b), ByteWidth(b)))
    ensures RefReads(buf, ElementReference(loc, b, v, k, typed), ElementTree(t, typed))
  {
    var r := ElementReference(loc, b, v, k, typed);
    if typed {
      TypedElementReadsBack(base, buf, r, v, t);
    } else {
      ElementReadsBack(base, buf, r, v, t);
    }
  }

  /** The first n elements of the vector at loc read as the trees ts. */
  ghost predicate ElementsRead(buf: seq<byte>, loc: nat, b: BitWidth, vals: seq<Value>, ts: seq<Tree>, typed: bool,
                               n: nat)
    requires n <= |vals| == |ts|
  {
    n == 0 || (
      && ElementsRead(buf, loc, b, vals, ts, typed, n - 1)
      && RefReads(buf, ElementReference(loc, b, vals[n - 1], n - 1, typed), ElementTree(ts[n - 1], typed)))
  }

  lemma {:induction false} ElementsReadAt(buf: seq<byte>, loc: nat, b: BitWidth, vals: seq<Value>, ts: seq<Tree>,
                                          typed: bool, n: nat, k: nat)
    requires k < n <= |vals| == |ts| && ElementsRead(buf, loc, b, vals, ts, typed, n)
    ensures RefReads(buf, ElementReference(loc, b, vals[k], k, typed), ElementTree(ts[k], typed))
  {
    if k < n - 1 {
      ElementsReadAt(buf, loc, b, vals, ts, typed, n - 1, k);
    }
  }

  lemma {:induction false} ElementsReadGrows(x: seq<byte>, y: seq<byte>, loc: nat, b: BitWidth, vals: seq<Value>,
                                             ts: seq<Tree>, typed: bool, n: nat)
    requires n <= |vals| == |ts| && x <= y && ElementsRead(x, loc, b, vals, ts, typed, n)
    ensures ElementsRead(y, loc, b, vals, ts, typed, n)
  {
    if n > 0 {
      ElementsReadGrows(x, y, loc, b, vals, ts, typed, n - 1);
      RefReadsGrows(x, y, ElementReference(loc, b, vals[n - 1], n - 1, typed), ElementTree(ts[n - 1], typed));
    }
  }

  // ----- The width of a vector -----

  /** Fields before the elements: the size, and for the values of a map its key vector's offset
      and width. */
  function PrefixElems(keys: Option<Value>): nat {
    if keys.Some? then 3 else 1
  }

  function Stride(k: nat, step: nat): nat {
    if step == 2 then 2 * k else k
  }

  /** Everything a vector's width must be able to hold, as widths. */
  function WidthCandidates(force: BitWidth, len: nat, bufSize: nat, keys: Option<Value>, vals: seq<Value>,
                           step: nat): seq<BitWidth> {
    [force, WidthU(len)]
    + (if keys.Some? then [LeastWidth(keys.value, bufSize, 0)] else [])
    + seq(|vals|, k requires 0 <= k < |vals| => LeastWidth(vals[k], bufSize, Stride(k, step) + PrefixElems(keys)))
  }

  ghost predicate IsMaximum(b: BitWidth, ws: seq<BitWidth>) {
    b in ws && forall i :: 0 <= i < |ws| ==> ws[i] <= b
  }

  lemma MaximumAppend(b: BitWidth, ws: seq<BitWidth>, w: BitWidth)
    requires IsMaximum(b, ws)
    ensures IsMaximum(if b < w then w else b, ws + [w])
  {
    assert (ws + [w])[|ws|] == w;
  }

  lemma CandidatesAppend(force: BitWidth, len: nat, bufSize: nat, keys: Option<Value>, vals: seq<Value>, step: nat,
                         k: nat)
    requires k < |vals|
    ensures WidthCandidates(force, len, bufSize, keys, vals[..k + 1], step)
      == WidthCandidates(force, len, bufSize, keys, vals[..k], step)
       + [LeastWidth(vals[k], bufSize, Stride(k, step) + PrefixElems(keys))]
  {
  }

  lemma NextCandidate(force: BitWidth, len: nat, bufSize: nat, keys: Option<Value>, vals: seq<Value>, step: nat,
                      k: nat, b: BitWidth)
    requires k < |vals| && IsMaximum(b, WidthCandidates(force, len, bufSize, keys, vals[..k], step))
    ensures var w := LeastWidth(vals[k], bufSize, Stride(k, step) + PrefixElems(keys));
            IsMaximum(if b < w then w else b, WidthCandidates(force, len, bufSize, keys, vals[..k + 1], step))
  {
    CandidatesAppend(force, len, bufSize, keys, vals, step, k);
    MaximumAppend(b, WidthCandidates(force, len, bufSize, keys, vals[..k], step),
                  LeastWidth(vals[k], bufSize, Stride(k, step) + PrefixElems(keys)));
  }

  lemma FirstCandidates(force: BitWidth, len: nat, bufSize: nat, keys: Option<Value>, step: nat)
    ensures var b := if force < WidthU(len) then WidthU(len) else force;
            var w := if keys.Some? then LeastWidth(keys.value, bufSize, 0) else 0;
            IsMaximum(if b < w then w else b, WidthCandidates(force, len, bufSize, keys, [], step))
  {
    var ws := WidthCandidates(force, len, bufSize, keys, [], step);
    assert ws[0] == force && ws[1] == WidthU(len);
    assert keys.Some? ==> ws[2] == LeastWidth(keys.value, bufSize, 0);
  }

  /** The width is at least the one forced, and holds the size, the offset of the keys and every element: for the
      values of a map, each measured twice as far on. */
  ghost predicate VectorFits(force: BitWidth, len: nat, bufSize: nat, keys: Option<Value>, vals: seq<Value>, step: nat,
                             b: BitWidth) {
    && force <= b && (b == 3 || len < Capacity(ByteWidth(b)))
    && (keys.Some? ==> HoldsOffset(keys.value.u, bufSize, 0, b))
    && forall k :: 0 <= k < |vals| ==>
      HoldsValue(vals[k], bufSize, (if step == 2 then 2 * k else k) + (if keys.Some? then 3 else 1), b)
  }

  ghost predicate IsLeastFit(force: BitWidth, len: nat, bufSize: nat, keys: Option<Value>, vals: seq<Value>, step: nat,
                             b: BitWidth) {
    && VectorFits(force, len, bufSize, keys, vals, step, b)
    && forall c: BitWidth :: c < b ==> !VectorFits(force, len, bufSize, keys, vals, step, c)
  }

  /** The largest of the candidates is the least width that holds everything. */
  lemma MaximumIsLeast(force: BitWidth, len: nat, bufSize: nat, keys: Option<Value>, vals: seq<Value>, step: nat,
                       b: BitWidth)
    requires IsMaximum(b, WidthCandidates(force, len, bufSize, keys, vals, step))
    requires keys.Some? ==> !IsInline(keys.value.type_) && keys.value.u <= bufSize
    requires forall k :: 0 <= k < |vals| && !IsInline(vals[k].type_) ==> vals[k].u <= bufSize
    ensures IsLeastFit(force, len, bufSize, keys, vals, step, b)
  {
    hide LeastWidth, HoldsValue, IsMaximum, VectorFits;
    forall c: BitWidth
      ensures VectorFits(force, len, bufSize, keys, vals, step, c)
        <==> AllAtMost(WidthCandidates(force, len, bufSize, keys, vals, step), c)
    {
      CandidatesFit(force, len, bufSize, keys, vals, step, c);
    }
    MaximumAtMost(b, WidthCandidates(force, len, bufSize, keys, vals, step));
  }

  predicate AllAtMost(ws: seq<BitWidth>, c: BitWidth) {
    forall i :: 0 <= i < |ws| ==> ws[i] <= c
  }

  lemma MaximumAtMost(b: BitWidth, ws: seq<BitWidth>)
    requires IsMaximum(b, ws)
    ensures forall c: BitWidth :: AllAtMost(ws, c) <==> b <= c
  {
  }

  lemma CandidatesFit(force: BitWidth, len: nat, bufSize: nat, keys: Option<Value>, vals: seq<Value>, step: nat,
                      c: BitWidth)
    requires keys.Some? ==> !IsInline(keys.value.type_) && keys.value.u <= bufSize
    requires forall k :: 0 <= k < |vals| && !IsInline(vals[k].type_) ==> vals[k].u <= bufSize
    ensures VectorFits(force, len, bufSize, keys, vals, step, c)
      <==> AllAtMost(WidthCandidates(force, len, bufSize, keys, vals, step), c)
  {
    hide LeastWidth, HoldsValue, HoldsOffset, AllAtMost;
    var widths := seq(|vals|, k requires 0 <= k < |vals| =>
      LeastWidth(vals[k], bufSize, Stride(k, step) + PrefixElems(keys)));
    var keyWidth := if keys.Some? then [LeastWidth(keys.value, bufSize, 0)] else [];
    assert WidthCandidates(force, len, bufSize, keys, vals, step) == [force, WidthU(len)] + keyWidth + widths;
    AllAtMostConcat([force, WidthU(len)], keyWidth, c);
    AllAtMostConcat([force, WidthU(len)] + keyWidth, widths, c);
    LengthFits(force, len, c);
    if keys.Some? {
      OneAtMost(LeastWidth(keys.value, bufSize, 0), c);
      KeysHeld(keys.value, bufSize, c);
    } else {
      NoneAtMost(c);
    }
    ElementsHeld(bufSize, vals, step, PrefixElems(keys), widths, c);
  }

  lemma AllAtMostConcat(a: seq<BitWidth>, b: seq<BitWidth>, c: BitWidth)
    ensures AllAtMost(a + b, c) <==> AllAtMost(a, c) && AllAtMost(b, c)
  {
    if AllAtMost(a + b, c) {
      assert forall i :: 0 <= i < |a| ==> (a + b)[i] == a[i];
      assert forall i :: 0 <= i < |b| ==> (a + b)[|a| + i] == b[i];
    }
  }

  lemma LengthFits(force: BitWidth, len: nat, c: BitWidth)
    ensures AllAtMost([force, WidthU(len)], c) <==> force <= c && (c == 3 || len < Capacity(ByteWidth(c)))
  {
    var ws := [force, WidthU(len)];
    assert ws[0] == force && ws[1] == WidthU(len);
  }

  lemma OneAtMost(w: BitWidth, c: BitWidth)
    ensures AllAtMost([w], c) <==> w <= c
  {
    assert [w][0] == w;
  }

  lemma NoneAtMost(c: BitWidth)
    ensures AllAtMost([], c)
  {
  }

  lemma KeysHeld(keys: Value, bufSize: nat, c: BitWidth)
    requires !IsInline(keys.type_) && keys.u <= bufSize
    ensures LeastWidth(keys, bufSize, 0) <= c <==> HoldsOffset(keys.u, bufSize, 0, c)
  {
    LeastWidthHolds(keys, bufSize, 0, c);
  }

  lemma ElementsHeld(bufSize: nat, vals: seq<Value>, step: nat, prefix: nat, widths: seq<BitWidth>, c: BitWidth)
    requires forall k :: 0 <= k < |vals| && !IsInline(vals[k].type_) ==> vals[k].u <= bufSize
    requires |widths| == |vals|
    requires forall k :: 0 <= k < |vals| ==> widths[k] == LeastWidth(vals[k], bufSize, Stride(k, step) + prefix)
    ensures AllAtMost(widths, c) <==>
      forall k :: 0 <= k < |vals| ==> HoldsValue(vals[k], bufSize, Stride(k, step) + prefix, c)
  {
    hide LeastWidth, HoldsValue;
    forall k | 0 <= k < |vals|
      ensures widths[k] <= c <==> HoldsValue(vals[k], bufSize, Stride(k, step) + prefix, c)
    {
      LeastWidthHolds(vals[k], bufSize, Stride(k, step) + prefix, c);
    }
  }

  /** Every element fits the width chosen, where it will be written. */
  lemma ElementFits(force: BitWidth, len: nat, bufSize: nat, keys: Option<Value>, vals: seq<Value>, step: nat,
                    b: BitWidth, prefix: nat, k: nat)
    requires IsMaximum(b, WidthCandidates(force, len, bufSize, keys, vals, step))
    requires k < |vals| && prefix <= PrefixElems(keys)
    requires !IsInline(vals[k].type_) ==> vals[k].u <= bufSize
    ensures FitsAt(vals[k], OffsetLocation(bufSize, prefix, b) + Times(k, ByteWidth(b)), b)
  {
    var ws := WidthCandidates(force, len, bufSize, keys, vals, step);
    var estimate := Stride(k, step) + PrefixElems(keys);
    assert ws[(if keys.Some? then 3 else 2) + k] == LeastWidth(vals[k], bufSize, estimate);
    LocationOfElement(bufSize, prefix, k, b);
    if !IsInline(vals[k].type_) {
      OffsetFitsFinalWidth(vals[k], bufSize, estimate, prefix + k, b);
    }
  }

  lemma PackedReads(data: nat, w: Width, b: BitWidth, t: Type)
    ensures FromPacked(data, w, PackedType(b, t)) == Reference(data, w, ByteWidth(b), t)
  {
  }

  // ----- A whole vector -----

  lemma MapFieldsRead(buf: seq<byte>, at: nat, w: Width, keys: nat, keyWidth: Width, len: nat)
    requires |buf| == at + 3 * w && keys <= at
    requires ReadUnsigned(buf, at, w) == at - keys
    requires ReadUnsigned(buf, at + w, w) == keyWidth
    requires len < Capacity(w) ==> ReadUnsigned(buf, at + 2 * w, w) == len
    ensures MapKeys(buf, |buf|, w) == (keys, keyWidth) && (len < Capacity(w) ==> SizedAt(buf, |buf|, w, len))
  {
    assert |buf| - w == at + 2 * w && |buf| - 2 * w == at + w && |buf| - 3 * w == at;
  }

  lemma PrefixAligned(bufSize: nat, prefix: nat, b: BitWidth)
    requires prefix <= 3
    ensures IsAligned(OffsetLocation(bufSize, prefix, b), ByteWidth(b))
    ensures OffsetLocation(bufSize, prefix, b) == OffsetLocation(bufSize, 0, b) + Times(prefix, ByteWidth(b))
  {
    hide Padding, IsAligned, ByteWidth;
    AlignedSteps(bufSize + Padding(bufSize, ByteWidth(b)), prefix, ByteWidth(b));
  }

  lemma {:induction false} AlignedSteps(n: nat, k: nat, w: Width)
    requires IsAligned(n, w)
    ensures IsAligned(n + Times(k, w), w)
    decreases k
  {
    hide IsAligned;
    if k > 0 {
      AlignedSteps(n, k - 1, w);
      AlignedAfter(n + Times(k - 1, w), w);
    }
  }

  /** The last bytes are the types of vals, with the widths of what they lead to, or of the elements. */
  predicate TypesStored(buf: seq<byte>, b: BitWidth, vals: seq<Value>) {
    && |vals| <= |buf|
    && forall k :: 0 <= k < |vals| ==>
      buf[|buf| - |vals| + k] == 4 * vals[k].type_
        + if IsInline(vals[k].type_) && vals[k].minBitWidth < b then b else vals[k].minBitWidth
  }

  /** The type bytes after an untyped vector. */
  function PackedTypes(vals: seq<Value>, b: BitWidth): (s: seq<byte>)
    ensures |s| == |vals|
  {
    seq(|vals|, k requires 0 <= k < |vals| => vals[k].StoredPackedType(b))
  }

  lemma TypesAreStored(written: seq<byte>, buf: seq<byte>, b: BitWidth, vals: seq<Value>)
    requires buf == written + PackedTypes(vals, b)
    ensures TypesStored(buf, b, vals)
  {
    forall k | 0 <= k < |vals|
      ensures buf[|buf| - |vals| + k] == 4 * vals[k].type_
        + if IsInline(vals[k].type_) && vals[k].minBitWidth < b then b else vals[k].minBitWidth
    {
      assert buf[|buf| - |vals| + k] == PackedTypes(vals, b)[k];
    }
  }

  lemma VectorElementBuilt(buf: seq<byte>, loc: nat, b: BitWidth, vals: seq<Value>, k: nat)
    requires SizedAt(buf, loc, ByteWidth(b), |vals|) && k < |vals|
    requires |buf| == loc + Times(|vals|, ByteWidth(b)) + |vals|
    requires BytesAt(buf, loc + Times(|vals|, ByteWidth(b)), PackedTypes(vals, b))
    ensures VectorElement(buf, loc, ByteWidth(b), k) == ElementReference(loc, b, vals[k], k, false)
  {
    var w, v := ByteWidth(b), vals[k];
    assert buf[loc + Times(|vals|, w) + k] == v.StoredPackedType(b);
    PackedReads(loc + Times(k, w), w, v.StoredWidth(b), v.type_);
  }

  lemma VectorBuilt(buf: seq<byte>, loc: nat, b: BitWidth, vals: seq<Value>, ts: seq<Tree>)
    requires |vals| == |ts| && SizedAt(buf, loc, ByteWidth(b), |ts|)
    requires |buf| == loc + Times(|ts|, ByteWidth(b)) + |ts|
    requires BytesAt(buf, loc + Times(|ts|, ByteWidth(b)), PackedTypes(vals, b))
    requires ElementsRead(buf, loc, b, vals, ts, false, |ts|)
    ensures VectorAt(buf, loc, ByteWidth(b), ts)
  {
    forall k | 0 <= k < |ts| {
      VectorElementReads(buf, loc, b, vals, ts, k);
    }
  }

  lemma VectorElementReads(buf: seq<byte>, loc: nat, b: BitWidth, vals: seq<Value>, ts: seq<Tree>, k: nat)
    requires |vals| == |ts| && k < |ts| && SizedAt(buf, loc, ByteWidth(b), |ts|)
    requires |buf| == loc + Times(|ts|, ByteWidth(b)) + |ts|
    requires BytesAt(buf, loc + Times(|ts|, ByteWidth(b)), PackedTypes(vals, b))
    requires ElementsRead(buf, loc, b, vals, ts, false, |ts|)
    ensures RefReads(buf, VectorElement(buf, loc, ByteWidth(b), k), ts[k])
  {
    VectorElementBuilt(buf, loc, b, vals, k);
    ElementsReadAt(buf, loc, b, vals, ts, false, |ts|, k);
  }

  lemma UntypedBuilt(prefixed: seq<byte>, written: seq<byte>, buf: seq<byte>, b: BitWidth, vals: seq<Value>,
                     ts: seq<Tree>)
    requires |vals| == |ts| && SizedAt(prefixed, |prefixed|, ByteWidth(b), |ts|)
    requires prefixed <= written && |written| == |prefixed| + Times(|ts|, ByteWidth(b))
    requires ElementsRead(written, |prefixed|, b, vals, ts, false, |ts|)
    requires buf == written + PackedTypes(vals, b)
    ensures VectorAt(buf, |prefixed|, ByteWidth(b), ts)
  {
    ElementsReadGrows(written, buf, |prefixed|, b, vals, ts, false, |ts|);
    ReadInPrefix(prefixed, buf, |prefixed| - ByteWidth(b), ByteWidth(b));
    VectorBuilt(buf, |prefixed|, b, vals, ts);
  }

  function AsTypedAll(ts: seq<Tree>): (r: seq<Tree>)
    ensures |r| == |ts|
  {
    seq(|ts|, k requires 0 <= k < |ts| => AsTyped(ts[k]))
  }

  lemma TypedBuilt(buf: seq<byte>, loc: nat, b: BitWidth, vals: seq<Value>, ts: seq<Tree>, e: Type)
    requires |vals| == |ts| && forall k :: 0 <= k < |vals| ==> vals[k].type_ == e
    requires |buf| == loc + Times(|ts|, ByteWidth(b))
    requires ElementsRead(buf, loc, b, vals, ts, true, |ts|)
    ensures TypedAt(buf, loc, ByteWidth(b), e, AsTypedAll(ts))
  {
    forall k | 0 <= k < |ts| ensures RefReads(buf, TypedElement(loc, ByteWidth(b), e, k), AsTypedAll(ts)[k]) {
      ElementsReadAt(buf, loc, b, vals, ts, true, |ts|, k);
    }
  }

  function ElementTypeOf(vals: seq<Value>): Type {
    if vals == [] then FBT_KEY else vals[0].type_
  }

  predicate AllOfType(vals: seq<Value>, e: Type) {
    forall k :: 0 <= k < |vals| ==> vals[k].type_ == e
  }

  /** The width chosen holds the key offset and every element where they will be written. */
  lemma CandidatesHold(force: BitWidth, bufSize: nat, keys: Option<Value>, vals: seq<Value>, step: nat, b: BitWidth,
                       prefix: nat)
    requires IsMaximum(b, WidthCandidates(force, |vals|, bufSize, keys, vals, step))
    requires prefix <= PrefixElems(keys)
    requires keys.Some? ==> !IsInline(keys.value.type_) && keys.value.u <= bufSize
    requires forall k :: 0 <= k < |vals| && !IsInline(vals[k].type_) ==> vals[k].u <= bufSize
    ensures WidthU(|vals|) <= b
    ensures keys.Some? ==> FitsAt(keys.value, OffsetLocation(bufSize, 0, b), b)
    ensures forall k :: 0 <= k < |vals| ==>
      FitsAt(vals[k], OffsetLocation(bufSize, prefix, b) + Times(k, ByteWidth(b)), b)
  {
    var ws := WidthCandidates(force, |vals|, bufSize, keys, vals, step);
    assert ws[1] == WidthU(|vals|);
    if keys.Some? {
      assert ws[2] == LeastWidth(keys.value, bufSize, 0);
      OffsetFitsFinalWidth(keys.value, bufSize, 0, 0, b);
    }
    forall k | 0 <= k < |vals| {
      ElementFits(force, |vals|, bufSize, keys, vals, step, b, prefix, k);
    }
  }

  /** What `CreateVector` makes of its elements. */
  function VectorTree(typed: bool, fixed: bool, keys: Option<seq<seq<byte>>>, e: Type, ts: seq<Tree>): Tree {
    if keys.Some? then Tree.Map(keys.value, ts)
    else if !typed then Tree.Vector(ts)
    else if fixed then Tree.FixedTypedVector(e, AsTypedAll(ts))
    else Tree.TypedVector(e, AsTypedAll(ts))
  }

  function VectorType(typed: bool, fixed: bool, isMap: bool, e: Type, len: nat): Type
    requires typed ==> IsTypedVectorElementType(e)
    requires fixed ==> FBT_INT <= e <= FBT_FLOAT && 2 <= len <= 4
  {
    if isMap then FBT_MAP
    else if !typed then FBT_VECTOR
    else if fixed then ToFixedTypedVector(e, len)
    else ToTypedVector(e)
  }

  lemma VectorObject(buf: seq<byte>, loc: nat, w: Width, typed: bool, fixed: bool, keys: Option<seq<seq<byte>>>,
                     e: Type, ts: seq<Tree>)
    requires (typed ==> IsTypedVectorElementType(e) && keys.None?) && (fixed ==> typed)
    requires fixed ==> FBT_INT <= e <= FBT_FLOAT && 2 <= |ts| <= 4
    requires IsAligned(loc, w) && (!fixed ==> SizedAt(buf, loc, w, |ts|))
    requires if typed then TypedAt(buf, loc, w, e, AsTypedAll(ts)) else VectorAt(buf, loc, w, ts)
    requires keys.Some? ==> |keys.value| == |ts| && MapKeysAt(buf, loc, w, keys.value)
    ensures ObjectAt(buf, loc, w, VectorType(typed, fixed, keys.Some?, e, |ts|), VectorTree(typed, fixed, keys, e, ts))
  {
  }

  lemma VectorTreeCost(typed: bool, fixed: bool, keys: Option<seq<seq<byte>>>, e: Type, ts: seq<Tree>)
    ensures Cost(VectorTree(typed, fixed, keys, e, ts))
         == if keys.Some? then 2 + TotalCost(ts) else if !typed then 1 + TotalCost(ts) else if fixed then 0 else 1
  {
  }
}
