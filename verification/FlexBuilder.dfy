/** The FlexBuffers builder: a stack of values and an append-only byte buffer.  Ghost trees record
    what each value on the stack means; Valid says the bytes agree. */
module FlexBuilder {
  import opened Bytes
  import opened Order
  import opened Widths
  import opened FlexFormat
  import opened FlexTree
  import opened FlexValue
  import opened FlexCost
  import opened FlexSort

  /** `max_size()` of the byte vector; growing beyond it throws, which ends the run. */
  const MAX_SIZE: nat := 0x7FFF_FFFF_FFFF_FFFF

  datatype Result<+T> = Success(value: T) | OutOfMemory {
    predicate IsFailure() {
      OutOfMemory?
    }

    function PropagateFailure<U>(): Result<U>
      requires IsFailure()
    {
      Result.OutOfMemory
    }

    function Extract(): T
      requires Success?
    {
      value
    }
  }

  /** The entries of s at start, start + step, and so on to the end: the first n of them. */
  function Strided<T>(s: seq<T>, start: nat, step: nat, n: nat): (r: seq<T>)
    requires n > 0 ==> start + Stride(n - 1, step) < |s|
    ensures |r| == n
  {
    seq(n, k requires 0 <= k < n => s[start + Stride(k, step)])
  }

  datatype StringOffset = StringOffset(offset: nat, len: nat)

  ghost predicate StackReads(buf: seq<byte>, stack: seq<Value>, trees: seq<Tree>) {
    |stack| == |trees| && forall i :: 0 <= i < |stack| ==> ValueReads(buf, stack[i], trees[i])
  }

  lemma StackReadsGrows(a: seq<byte>, b: seq<byte>, stack: seq<Value>, trees: seq<Tree>)
    requires a <= b && StackReads(a, stack, trees)
    ensures StackReads(b, stack, trees)
  {
    forall i | 0 <= i < |stack| ensures ValueReads(b, stack[i], trees[i]) {
      ValueReadsGrows(a, b, stack[i], trees[i]);
    }
  }

  lemma OneMoreReads(buf: seq<byte>, stack: seq<Value>, trees: seq<Tree>, v: Value, t: Tree)
    requires StackReads(buf, stack, trees) && t in Denotations(buf, v)
    ensures StackReads(buf, stack + [v], trees + [t])
  {
  }

  lemma StackReadsPrefix(buf: seq<byte>, stack: seq<Value>, trees: seq<Tree>, n: nat)
    requires StackReads(buf, stack, trees) && n <= |stack|
    ensures StackReads(buf, stack[..n], trees[..n])
  {
  }

  /** The pool of keys: no two positions hold the same text. */
  ghost predicate KeyPoolOk(buf: seq<byte>, pool: map<nat, seq<byte>>) {
    && (forall p :: p in pool ==> KeyAt(buf, p, pool[p]))
    && forall p, q :: p in pool && q in pool && pool[p] == pool[q] ==> p == q
  }

  /** A pooled string's size field has the width its length asks for. */
  ghost predicate PooledString(buf: seq<byte>, at: StringOffset, text: seq<byte>) {
    |text| == at.len && ObjectAt(buf, at.offset, ByteWidth(WidthU(at.len)), FBT_STRING, Tree.Str(text))
  }

  ghost predicate StringPoolOk(buf: seq<byte>, pool: map<StringOffset, seq<byte>>) {
    && (forall p :: p in pool ==> PooledString(buf, p, pool[p]))
    && forall p, q :: p in pool && q in pool && pool[p] == pool[q] ==> p == q
  }

  lemma StringPoolGrows(a: seq<byte>, b: seq<byte>, pool: map<StringOffset, seq<byte>>)
    requires a <= b && StringPoolOk(a, pool)
    ensures StringPoolOk(b, pool)
  {
    forall p | p in pool ensures PooledString(b, p, pool[p]) {
      ObjectAtGrows(a, b, p.offset, ByteWidth(WidthU(p.len)), FBT_STRING, Tree.Str(pool[p]));
    }
  }

  lemma StringPoolInsert(buf: seq<byte>, pool: map<StringOffset, seq<byte>>, so: StringOffset, text: seq<byte>)
    requires StringPoolOk(buf, pool) && PooledString(buf, so, text) && text !in pool.Values
    ensures StringPoolOk(buf, pool[so := text])
  {
    assert forall p :: p in pool ==> pool[p] in pool.Values;
  }

  lemma KeyPoolInsert(buf: seq<byte>, pool: map<nat, seq<byte>>, at: nat, text: seq<byte>)
    requires KeyPoolOk(buf, pool) && KeyAt(buf, at, text) && text !in pool.Values
    ensures KeyPoolOk(buf, pool[at := text])
  {
    assert forall p :: p in pool ==> pool[p] in pool.Values;
  }

  // ----- The pools' comparators -----

  /** What a pointer to position at points to. */
  function Memory(buf: seq<byte>, at: nat): seq<byte>
    requires at <= |buf|
  {
    buf[at..]
  }

  lemma KeyInMemory(buf: seq<byte>, at: nat, k: seq<byte>)
    requires KeyAt(buf, at, k)
    ensures 0 in Memory(buf, at) && CString(Memory(buf, at)) == k
  {
    var m := buf[at..];
    assert m[|k|] == 0;
    assert k + [0] == m[..|k| + 1];
    CStringUnique(m, k);
  }

  /** `KeyOffsetCompare`. */
  predicate KeyLess(buf: seq<byte>, a: nat, b: nat)
    requires a <= |buf| && b <= |buf| && 0 in Memory(buf, a) && 0 in Memory(buf, b)
  {
    Strcmp(Memory(buf, a), Memory(buf, b)) < 0
  }

  /** The key comparator orders positions by text, so equivalent positions hold equal keys. */
  lemma KeyLessIsLess(buf: seq<byte>, a: nat, k: seq<byte>, b: nat, l: seq<byte>)
    requires KeyAt(buf, a, k) && KeyAt(buf, b, l)
    ensures 0 in Memory(buf, a) && 0 in Memory(buf, b)
    ensures KeyLess(buf, a, b) <==> Less(k, l)
    ensures !KeyLess(buf, a, b) && !KeyLess(buf, b, a) <==> k == l
  {
    KeyInMemory(buf, a, k);
    KeyInMemory(buf, b, l);
    StrcmpOrders(Memory(buf, a), Memory(buf, b));
    StrcmpOrders(Memory(buf, b), Memory(buf, a));
    LessTotal(k, l);
    LessIrreflexive(k);
  }

  /** `StringOffsetCompare`; a is a position and a length. */
  predicate StringLess(buf: seq<byte>, a: StringOffset, b: StringOffset)
    requires a.offset + a.len < |buf| && b.offset + b.len < |buf|
  {
    PooledStringLessThan(buf[a.offset..a.offset + a.len + 1], buf[b.offset..b.offset + b.len + 1])
  }

  lemma StringLessIsLess(buf: seq<byte>, a: StringOffset, s: seq<byte>, b: StringOffset, t: seq<byte>)
    requires TerminatedAt(buf, a.offset, s) && a.len == |s| && TerminatedAt(buf, b.offset, t) && b.len == |t|
    ensures StringLess(buf, a, b) <==> Less(s, t)
    ensures !StringLess(buf, a, b) && !StringLess(buf, b, a) <==> s == t
  {
    hide Less, PooledStringLessThan, Memcmp;
    assert buf[a.offset..a.offset + a.len + 1] == s + [0];
    assert buf[b.offset..b.offset + b.len + 1] == t + [0];
    PooledStringLessThanIsLess(s, t);
    PooledStringLessThanIsLess(t, s);
    LessTotal(s, t);
    LessIrreflexive(s);
  }

  ghost predicate BuilderOk(buf: seq<byte>, stack: seq<Value>, trees: seq<Tree>, keyPool: map<nat, seq<byte>>,
                            stringPool: map<StringOffset, seq<byte>>, reused: bool) {
    && |buf| <= MAX_SIZE
    && StackReads(buf, stack, trees)
    && KeyPoolOk(buf, keyPool)
    && StringPoolOk(buf, stringPool)
    && (!reused ==> TotalCost(trees) <= |buf| + |trees|)
  }

  ghost predicate ValuesWithin(bufSize: nat, vals: seq<Value>) {
    forall k :: 0 <= k < |vals| && !IsInline(vals[k].type_) ==> vals[k].u <= bufSize
  }

  /** A vector begun at bufSize: padding, what precedes the elements, the elements, and the types of an untyped
      one, with nothing between. */
  predicate IsLaidOut(bufSize: nat, n: nat, typed: bool, fixed: bool, isMap: bool, v: Value, size: nat) {
    var w := ByteWidth(v.minBitWidth);
    && v.u == bufSize + Padding(bufSize, w) + Times(if isMap then 3 else if fixed then 0 else 1, w)
    && size == v.u + Times(n, w) + if typed then 0 else n
  }

  /** The pairs of s from start on as a map: first the vector of the keys, at keys, then that of the values, each
      in the least width for it where it is. */
  ghost predicate IsMapOfVectors(force: BitWidth, bufSize: nat, s: seq<Value>, start: nat, n: nat, keys: Value,
                                 mid: nat, v: Value, size: nat)
    requires start + 2 * n <= |s|
  {
    && IsLeastFit(force, n, bufSize, None, Strided(s, start, 2, n), 2, keys.minBitWidth)
    && IsLaidOut(bufSize, n, true, false, false, keys, mid)
    && IsLeastFit(force, n, mid, Some(keys), Strided(s, start + 1, 2, n), 2, v.minBitWidth)
    && IsLaidOut(mid, n, false, false, true, v, size)
  }

  ghost predicate IsMapLaidOut(force: BitWidth, bufSize: nat, s: seq<Value>, start: nat, n: nat, v: Value, size: nat)
    requires start + 2 * n <= |s|
  {
    exists keys: Value, mid: nat :: IsMapOfVectors(force, bufSize, s, start, n, keys, mid, v, size)
  }

  /** The same, for the pairs in some order. */
  ghost predicate IsSortedMapLaidOut(force: BitWidth, bufSize: nat, s: seq<Value>, start: nat, v: Value, size: nat) {
    exists perm: seq<nat> :: start + 2 * |perm| == |s| && IsArrangement(perm, |perm|)
      && (forall i :: 0 <= i < |perm| ==> perm[i] < |perm|)
      && IsMapLaidOut(force, bufSize, Rearranged(s, start, perm), start, |perm|, v, size)
  }

  /** A scalar of its own width at the end of the buffer, aligned to it. */
  predicate IsIndirect(bufSize: nat, v: Value, t: Type, size: nat) {
    var w := ByteWidth(v.minBitWidth);
    v == Value(bufSize + Padding(bufSize, w), t, v.minBitWidth) && size == v.u + w
  }

  /** After padding the length, in the least width for it, then the bytes, and of a string a terminator. */
  predicate IsBlob(bufSize: nat, len: nat, trailing: bool, v: Value, size: nat) {
    var w := ByteWidth(v.minBitWidth);
    && IsLeastUnsigned(v.minBitWidth, len)
    && v.u == bufSize + Padding(bufSize, w) + w && size == v.u + len + if trailing then 1 else 0
  }

  /** The last byte, w, is the least width that holds the root, which follows padding to it. */
  predicate IsRootWidth(v: Value, bufSize: nat, size: nat, w: nat) {
    exists b: BitWidth :: w == ByteWidth(b) && size == bufSize + Padding(bufSize, w) + w + 2
      && (if IsInline(v.type_) then b == v.minBitWidth
          else HoldsValue(v, bufSize, 0, b) && forall c: BitWidth :: c < b ==> !HoldsValue(v, bufSize, 0, c))
  }

  ghost predicate ElementsFit(loc: nat, b: BitWidth, vals: seq<Value>) {
    forall k :: 0 <= k < |vals| ==> FitsAt(vals[k], loc + Times(k, ByteWidth(b)), b)
  }

  /** The smallest width that every element, the size, the key offset and the forced minimum
      fit, for a vector begun at bufSize whose elements were step apart on the stack. */
  method VectorBitWidth(vals: seq<Value>, step: nat, bufSize: nat, force: BitWidth, keys: Option<Value>)
    returns (bitWidth: BitWidth)
    requires ValuesWithin(bufSize, vals)
    requires keys.Some? ==> !IsInline(keys.value.type_) && keys.value.u <= bufSize
    ensures IsMaximum(bitWidth, WidthCandidates(force, |vals|, bufSize, keys, vals, step))
  {
    FirstCandidates(force, |vals|, bufSize, keys, step);
    bitWidth := if force < WidthU(|vals|) then WidthU(|vals|) else force;
    if keys.Some? {
      var w := ElemWidth(keys.value, bufSize, 0);
      bitWidth := if bitWidth < w then w else bitWidth;
    }
    assert vals[..0] == [];
    for k := 0 to |vals|
      invariant IsMaximum(bitWidth, WidthCandidates(force, |vals|, bufSize, keys, vals[..k], step))
    {
      var w := ElemWidth(vals[k], bufSize, Stride(k, step) + PrefixElems(keys));
      NextCandidate(force, |vals|, bufSize, keys, vals, step, k, bitWidth);
      bitWidth := if bitWidth < w then w else bitWidth;
    }
    assert vals[..|vals|] == vals;
  }

  class Builder {
    var buf: seq<byte>
    var stack: seq<Value>
    var finished: bool
    var hasDuplicateKeys: bool
    var forceMinBitWidth: BitWidth
    var keyPool: set<nat>
    var stringPool: set<StringOffset>
    const shareKeys: bool
    const shareStrings: bool

    /** What the values on the stack mean. */
    ghost var trees: seq<Tree>
    /** Whether ReuseValue was called: then a value may be referred to twice. */
    ghost var reused: bool

    /** The text at each pooled position. */
    ghost var keyTexts: map<nat, seq<byte>>
    ghost var stringTexts: map<StringOffset, seq<byte>>

    ghost predicate Valid()
      reads this
    {
      && keyTexts.Keys == keyPool && stringTexts.Keys == stringPool
      && BuilderOk(buf, stack, trees, keyTexts, stringTexts, reused)
    }

    constructor (shareKeys: bool, shareStrings: bool)
      ensures Valid() && buf == [] && stack == [] && trees == [] && !finished && !reused
      ensures forceMinBitWidth == 0 && keyPool == {} && stringPool == {} && !hasDuplicateKeys
      ensures this.shareKeys == shareKeys && this.shareStrings == shareStrings
    {
      buf, stack, trees := [], [], [];
      finished, hasDuplicateKeys, reused := false, false, false;
      forceMinBitWidth := 0;
      keyPool, stringPool := {}, {};
      keyTexts, stringTexts := map[], map[];
      this.shareKeys, this.shareStrings := shareKeys, shareStrings;
    }

    // ----- Appending bytes -----

    method Append(s: seq<byte>) returns (r: Result<()>)
      modifies this`buf
      ensures r.Success? <==> |old(buf)| + |s| <= MAX_SIZE
      ensures buf == if r.Success? then old(buf) + s else old(buf)
    {
      if |buf| + |s| > MAX_SIZE {
        return OutOfMemory;
      }
      buf := buf + s;
      return Success(());
    }

    method Align(alignment: BitWidth) returns (r: Result<Width>)
      modifies this`buf
      ensures r.Success? ==>
        && r.value == ByteWidth(alignment) && |buf| <= MAX_SIZE
        && buf == old(buf) + Zeros(Padding(|old(buf)|, r.value))
      ensures r.OutOfMemory? ==> |old(buf)| + 8 > MAX_SIZE
    {
      var _ :- Append(Zeros(Padding(|buf|, ByteWidth(alignment))));
      return Success(ByteWidth(alignment));
    }

    /** Append the low w bytes of v. */
    method Write(v: nat, w: Width) returns (r: Result<()>)
      modifies this`buf
      ensures r.Success? <==> |old(buf)| + w <= MAX_SIZE
      ensures r.Success? ==>
        && buf == old(buf) + LittleEndian(v, w)
        && (v < Capacity(w) ==> ReadUnsigned(buf, |old(buf)|, w) == v)
    {
      var at := |buf|;
      var _ :- Append(LittleEndian(v, w));
      if v < Capacity(w) {
        ScalarReadsBack(buf, at, w, v);
      }
      return Success(());
    }

    /** The precondition is the original's assertion on the relative offset. */
    method WriteOffset(o: nat, w: Width) returns (r: Result<()>)
      requires o <= |buf| <= MAX_SIZE && (w == 8 || |buf| - o < Capacity(w))
      modifies this`buf
      ensures r.Success? <==> |old(buf)| + w <= MAX_SIZE
      ensures r.Success? ==>
        && buf == old(buf) + LittleEndian(|old(buf)| - o, w)
        && ReadUnsigned(buf, |old(buf)|, w) == |old(buf)| - o
    {
        r := Write(|buf| - o, w);
    }

    method WriteAny(v: Value, w: Width) returns (r: Result<()>)
      requires |buf| <= MAX_SIZE
      requires !IsInline(v.type_) ==> v.u <= |buf| && (w == 8 || |buf| - v.u < Capacity(w))
      modifies this`buf
      ensures r.Success? <==> |old(buf)| + w <= MAX_SIZE
      ensures r.Success? ==> buf == old(buf) + AnyBytes(v, |old(buf)|, w)
    {
      if IsInline(v.type_) {
        r := Append(LittleEndian(v.u, w));
      } else {
        r := WriteOffset(v.u, w);
      }
    }

    /** Replace everything on the stack from start on by v, meaning t, after the buffer grew
        from a valid builder's. */
    method ReplaceTop(start: nat, v: Value, ghost before: seq<byte>, ghost t: Tree)
      requires before <= buf && |buf| <= MAX_SIZE && t in Denotations(buf, v) && start <= |stack|
      requires keyTexts.Keys == keyPool && stringTexts.Keys == stringPool
      requires KeyPoolOk(before, keyTexts) && StringPoolOk(before, stringTexts)
      requires |trees| == |stack| && StackReads(before, stack[..start], trees[..start])
      requires !reused ==> TotalCost(trees[..start]) + Cost(t) <= |buf| + start + 1
      modifies this`stack, this`trees
      ensures stack == old(stack)[..start] + [v] && trees == old(trees)[..start] + [t] && Valid()
    {
      hide StackReads, StringPoolOk, Denotations;
      StackReadsGrows(before, buf, stack[..start], trees[..start]);
      OneMoreReads(buf, stack[..start], trees[..start], v, t);
      StringPoolGrows(before, buf, stringTexts);
      TotalCostAppend(trees[..start], [t]);
      stack, trees := stack[..start] + [v], trees[..start] + [t];
    }

    method Push(v: Value, ghost before: seq<byte>, ghost t: Tree)
      requires before <= buf && |buf| <= MAX_SIZE && t in Denotations(buf, v)
      requires keyTexts.Keys == keyPool && stringTexts.Keys == stringPool
      requires BuilderOk(before, stack, trees, keyTexts, stringTexts, reused)
      requires !reused ==> TotalCost(trees) + Cost(t) <= |buf| + |trees| + 1
      modifies this`stack, this`trees
      ensures stack == old(stack) + [v] && trees == old(trees) + [t] && Valid()
    {
      assert stack[..|stack|] == stack && trees[..|trees|] == trees;
      ReplaceTop(|stack|, v, before, t);
    }

    // ----- Scalars -----

    method Null()
      requires Valid()
      modifies this`stack, this`trees
      ensures Valid() && trees == old(trees) + [Tree.Null] && stack == old(stack) + [Value(0, 0, 0)]
    {
      Push(Value(0, FBT_NULL, 0), buf, Tree.Null);
    }

    method Bool(b: bool)
      requires Valid()
      modifies this`stack, this`trees
      ensures Valid() && trees == old(trees) + [Tree.Bool(b)]
      ensures stack == old(stack) + [Value(if b then 1 else 0, 26, 0)]
    {
      Push(Value(if b then 1 else 0, FBT_BOOL, 0), buf, Tree.Bool(b));
    }

    method Int(i: int)
      requires Valid() && IsInt64(i)
      modifies this`stack, this`trees
      ensures Valid() && trees == old(trees) + [Tree.Int(i)]
      ensures |stack| == |old(stack)| + 1 && IsLeastSigned(stack[|old(stack)|].minBitWidth, i)
      ensures stack == old(stack) + [Value(ToUint64(i), 1, stack[|old(stack)|].minBitWidth)]
    {
      hide IsLeastSigned, WidthI;
      WidthIChosen(i);
      Push(Value(ToUint64(i), FBT_INT, WidthI(i)), buf, Tree.Int(i));
    }

    method UInt(u: nat)
      requires Valid() && u < U64
      modifies this`stack, this`trees
      ensures Valid() && trees == old(trees) + [Tree.UInt(u)]
      ensures |stack| == |old(stack)| + 1 && IsLeastUnsigned(stack[|old(stack)|].minBitWidth, u)
      ensures stack == old(stack) + [Value(u, 2, stack[|old(stack)|].minBitWidth)]
    {
      hide IsLeastUnsigned, WidthU;
      WidthUChosen(u);
      Push(Value(u, FBT_UINT, WidthU(u)), buf, Tree.UInt(u));
    }

    // ----- Objects stored by offset -----

    method PushIndirect(u: nat, type_: Type, bitWidth: BitWidth, ghost t: Tree) returns (r: Result<()>)
      requires Valid() && (t.IndirectInt? || t.IndirectUInt?)
      requires t.IndirectInt? ==>
        && type_ == FBT_INDIRECT_INT && IsInt64(t.i) && u == ToUint64(t.i) && bitWidth == WidthI(t.i)
      requires t.IndirectUInt? ==> type_ == FBT_INDIRECT_UINT && t.u == u < U64 && bitWidth == WidthU(u)
      modifies this`buf, this`stack, this`trees
      ensures r.Success? ==> Valid() && trees == old(trees) + [t] && old(buf) <= buf && |buf| <= |old(buf)| + 16
      ensures r.Success? ==>
        && |buf| == |old(buf)| + Padding(|old(buf)|, ByteWidth(bitWidth)) + ByteWidth(bitWidth)
        && stack == old(stack) + [Value(|buf| - ByteWidth(bitWidth), type_, bitWidth)]
      ensures r.OutOfMemory? ==> |old(buf)| + 16 > MAX_SIZE
    {
      hide StackReads, KeyPoolOk, StringPoolOk, TotalCost, LittleEndian, LeafAt, WidthU, WidthI, Capacity;
      var w :- Align(bitWidth);
      var iloc := |buf|;
      var _ :- Append(LittleEndian(u, w));
      IndirectReadsBack(buf, iloc, bitWidth, type_, t, u);
      Push(Value(iloc, type_, bitWidth), old(buf), t);
      return Success(());
    }

    method IndirectInt(i: int) returns (r: Result<()>)
      requires Valid() && IsInt64(i)
      modifies this`buf, this`stack, this`trees
      ensures r.Success? ==>
        && Valid() && trees == old(trees) + [Tree.IndirectInt(i)] && old(buf) <= buf && |buf| <= |old(buf)| + 16
        && |stack| == |old(stack)| + 1 && stack[..|old(stack)|] == old(stack)
        && IsIndirect(|old(buf)|, stack[|old(stack)|], 6, |buf|) && IsLeastSigned(stack[|old(stack)|].minBitWidth, i)
      ensures r.OutOfMemory? ==> |old(buf)| + 16 > MAX_SIZE
    {
      hide IsLeastSigned, WidthI;
      WidthIChosen(i);
      r := PushIndirect(ToUint64(i), FBT_INDIRECT_INT, WidthI(i), Tree.IndirectInt(i));
    }

    method IndirectUInt(u: nat) returns (r: Result<()>)
      requires Valid() && u < U64
      modifies this`buf, this`stack, this`trees
      ensures r.Success? ==>
        && Valid() && trees == old(trees) + [Tree.IndirectUInt(u)] && old(buf) <= buf && |buf| <= |old(buf)| + 16
        && |stack| == |old(stack)| + 1 && stack[..|old(stack)|] == old(stack)
        && IsIndirect(|old(buf)|, stack[|old(stack)|], 7, |buf|) && IsLeastUnsigned(stack[|old(stack)|].minBitWidth, u)
      ensures r.OutOfMemory? ==> |old(buf)| + 16 > MAX_SIZE
    {
      hide IsLeastUnsigned, WidthU;
      WidthUChosen(u);
      r := PushIndirect(u, FBT_INDIRECT_UINT, WidthU(u), Tree.IndirectUInt(u));
    }

    method WriteBlob(data: seq<byte>, trailing: bool) returns (r: Result<nat>)
      requires |buf| <= MAX_SIZE
      modifies this`buf
      ensures r.Success? ==>
        && old(buf) <= buf && |buf| <= MAX_SIZE && r.value <= |buf| <= |old(buf)| + |data| + 17
        && ObjectAt(buf, r.value, ByteWidth(WidthU(|data|)), if trailing then FBT_STRING else FBT_BLOB,
                    if trailing then Tree.Str(data) else Tree.Blob(data))
        && IsBlob(|old(buf)|, |data|, trailing,
                  Value(r.value, if trailing then FBT_STRING else FBT_BLOB, WidthU(|data|)), |buf|)
      ensures r.OutOfMemory? ==> |old(buf)| + |data| + 17 > MAX_SIZE
    {
      var sloc :- WriteSize(|data|, WidthU(|data|));
      var w := ByteWidth(WidthU(|data|));
      ghost var aligned := buf[..sloc - w];
      var _ :- Append(data + if trailing then [0] else []);
      BlobReadsBack(aligned, buf, w, data, trailing);
      WidthUChosen(|data|);
      return Success(sloc);
    }

    /** Align, and write a size field; the object starts after it. */
    method WriteSize(size: nat, b: BitWidth) returns (r: Result<nat>)
      modifies this`buf
      ensures r.Success? ==>
        && r.value == |buf| <= MAX_SIZE
        && buf == old(buf) + Zeros(Padding(|old(buf)|, ByteWidth(b))) + LittleEndian(size, ByteWidth(b))
      ensures r.OutOfMemory? ==> |old(buf)| + 16 > MAX_SIZE
    {
      var w :- Align(b);
      var _ :- Append(LittleEndian(size, w));
      return Success(|buf|);
    }

    method CreateBlob(data: seq<byte>, trailing: bool, type_: Type) returns (r: Result<nat>)
      requires Valid() && type_ == if trailing then FBT_STRING else FBT_BLOB
      modifies this`buf, this`stack, this`trees
      ensures r.Success? ==>
        && Valid() && trees == old(trees) + [if trailing then Tree.Str(data) else Tree.Blob(data)]
        && old(buf) <= buf && |buf| <= |old(buf)| + |data| + 17
        && stack == old(stack) + [Value(r.value, type_, WidthU(|data|))]
        && IsBlob(|old(buf)|, |data|, trailing, stack[|old(stack)|], |buf|)
      ensures r.OutOfMemory? ==> |old(buf)| + |data| + 17 > MAX_SIZE
    {
      r := WriteBlob(data, trailing);
      if r.Success? {
        Push(Value(r.value, type_, WidthU(|data|)), old(buf), if trailing then Tree.Str(data) else Tree.Blob(data));
      }
    }

    method Blob(data: seq<byte>) returns (r: Result<nat>)
      requires Valid()
      modifies this`buf, this`stack, this`trees
      ensures r.Success? ==>
        && Valid() && trees == old(trees) + [Tree.Blob(data)] && old(buf) <= buf && |buf| <= |old(buf)| + |data| + 17
        && |stack| == |old(stack)| + 1 && stack[..|old(stack)|] == old(stack)
        && stack[|old(stack)|].u == r.value && stack[|old(stack)|].type_ == 25
        && IsBlob(|old(buf)|, |data|, false, stack[|old(stack)|], |buf|)
      ensures r.OutOfMemory? ==> |old(buf)| + |data| + 17 > MAX_SIZE
    {
      r := CreateBlob(data, false, FBT_BLOB);
    }

    /** `key_pool.find`: any member the comparator finds equivalent. */
    method FindKey(sloc: nat, ghost text: seq<byte>) returns (it: Option<nat>)
      requires keyTexts.Keys == keyPool && KeyPoolOk(buf, keyTexts) && KeyAt(buf, sloc, text)
      ensures it.Some? ==> it.value in keyPool && keyTexts[it.value] == text
      ensures it.None? ==> text !in keyTexts.Values
    {
      forall p | p in keyPool
        ensures 0 in Memory(buf, p) && 0 in Memory(buf, sloc)
        ensures !KeyLess(buf, p, sloc) && !KeyLess(buf, sloc, p) <==> keyTexts[p] == text
      {
        KeyLessIsLess(buf, p, keyTexts[p], sloc, text);
      }
      if p :| p in keyPool && !KeyLess(buf, p, sloc) && !KeyLess(buf, sloc, p) {
        return Some(p);
      }
      return None;
    }

    /** A key is its C string.  With sharing on, equal keys get equal positions and different
        keys different ones (keyTexts is injective and never loses an entry), and a hit leaves
        the buffer as it was. */
    method Key(str: seq<byte>) returns (r: Result<nat>)
      requires Valid()
      modifies this`buf, this`stack, this`trees, this`keyPool, this`keyTexts
      ensures r.Success? ==>
        && Valid() && trees == old(trees) + [Tree.Key(CString(str))] && old(buf) <= buf
          && |buf| <= |old(buf)| + |str| + 1
        && stack == old(stack) + [Value(r.value, FBT_KEY, 0)]
        && KeyAt(buf, r.value, CString(str))
        && (shareKeys ==> keyTexts == old(keyTexts)[r.value := CString(str)])
        && (shareKeys && CString(str) in old(keyTexts).Values ==> buf == old(buf) && keyTexts == old(keyTexts))
        && (!shareKeys ==> keyTexts == old(keyTexts))
        && (!shareKeys || CString(str) !in old(keyTexts).Values ==>
              buf == old(buf) + str + [0] && r.value == |old(buf)|)
      ensures r.OutOfMemory? ==> |old(buf)| + |str| + 1 > MAX_SIZE
    {
      hide KeyPoolOk, StringPoolOk, StackReads, TotalCost, KeyAt;
      var sloc := |buf|;
      ghost var text := CString(str);
      var _ :- Append(str + [0]);
      assert TerminatedAt(buf, sloc, str);
      StringIsKey(buf, sloc, str);
      if shareKeys {
        assert buf[..sloc] == old(buf);
        sloc := PoolKey(sloc, text);
      }
      PushKey(sloc, old(buf), text);
      return Success(sloc);
    }

    /** Reuse an equal pooled key, dropping the one at the end of the buffer, or pool that. */
    method PoolKey(at: nat, ghost text: seq<byte>) returns (sloc: nat)
      requires at <= |buf| && KeyAt(buf, at, text)
      requires keyTexts.Keys == keyPool && KeyPoolOk(buf[..at], keyTexts)
      modifies this`buf, this`keyPool, this`keyTexts
      ensures keyTexts.Keys == keyPool && KeyPoolOk(buf, keyTexts)
      ensures keyTexts == old(keyTexts)[sloc := text] && KeyAt(buf, sloc, text)
      ensures if text in old(keyTexts).Values then buf == old(buf[..at]) && keyTexts == old(keyTexts)
              else buf == old(buf) && sloc == at
    {
      var it := FindKey(at, text);
      if it.Some? {
        buf := buf[..at];
        sloc := it.value;
      } else {
        KeyPoolInsert(buf, keyTexts, at, text);
        keyPool := keyPool + {at};
        keyTexts := keyTexts[at := text];
        sloc := at;
      }
    }

    method PushKey(sloc: nat, ghost before: seq<byte>, ghost text: seq<byte>)
      requires before <= buf && |buf| <= MAX_SIZE && KeyAt(buf, sloc, text)
      requires keyTexts.Keys == keyPool && stringTexts.Keys == stringPool
      requires KeyPoolOk(buf, keyTexts) || KeyPoolOk(before, keyTexts)
      requires StackReads(before, stack, trees) && StringPoolOk(before, stringTexts)
      requires !reused ==> TotalCost(trees) <= |before| + |trees|
      modifies this`stack, this`trees
      ensures stack == old(stack) + [Value(sloc, FBT_KEY, 0)] && trees == old(trees) + [Tree.Key(text)] && Valid()
    {
      StackReadsGrows(before, buf, stack, trees);
      StringPoolGrows(before, buf, stringTexts);
      assert LeafAt(buf, sloc, 1, FBT_KEY, Tree.Key(text));
      Push(Value(sloc, FBT_KEY, 0), buf, Tree.Key(text));
    }

    /** `string_pool.find`. */
    method FindString(so: StringOffset, ghost text: seq<byte>) returns (it: Option<StringOffset>)
      requires stringTexts.Keys == stringPool && StringPoolOk(buf, stringTexts)
      requires PooledString(buf, so, text)
      ensures it.Some? ==> it.value in stringPool && stringTexts[it.value] == text
      ensures it.None? ==> text !in stringTexts.Values
    {
      TypeTellsLeaf(buf, so.offset, ByteWidth(WidthU(so.len)), FBT_STRING, Tree.Str(text));
      forall p | p in stringPool
        ensures p.offset + p.len < |buf|
        ensures !StringLess(buf, p, so) && !StringLess(buf, so, p) <==> stringTexts[p] == text
      {
        TypeTellsLeaf(buf, p.offset, ByteWidth(WidthU(p.len)), FBT_STRING, Tree.Str(stringTexts[p]));
        StringLessIsLess(buf, p, stringTexts[p], so, text);
      }
      if p :| p in stringPool && !StringLess(buf, p, so) && !StringLess(buf, so, p) {
        return Some(p);
      }
      return None;
    }

    /** With sharing on, equal contents get equal positions, and a hit leaves the buffer as it
        was, padding included. */
    method String(str: seq<byte>) returns (r: Result<nat>)
      requires Valid()
      modifies this`buf, this`stack, this`trees, this`stringPool, this`stringTexts
      ensures r.Success? ==>
        && Valid() && trees == old(trees) + [Tree.Str(str)] && old(buf) <= buf && |buf| <= |old(buf)| + |str| + 17
        && stack == old(stack) + [Value(r.value, FBT_STRING, WidthU(|str|))]
        && (shareStrings ==> stringTexts == old(stringTexts)[StringOffset(r.value, |str|) := str])
        && (shareStrings && str in old(stringTexts).Values ==> buf == old(buf) && stringTexts == old(stringTexts))
        && (!shareStrings ==> stringTexts == old(stringTexts))
        && (!shareStrings || str !in old(stringTexts).Values ==>
              IsBlob(|old(buf)|, |str|, true, stack[|old(stack)|], |buf|))
      ensures r.OutOfMemory? ==> |old(buf)| + |str| + 17 > MAX_SIZE
    {
      hide IsBlob, ObjectAt, KeyPoolOk, StackReads, TotalCost, WidthU;
      var resetTo := |buf|;
      var sloc :- WriteBlob(str, true);
      StringPoolGrows(old(buf), buf, stringTexts);
      if shareStrings {
        var so: StringOffset := StringOffset(sloc, |str|);
        assert buf[..resetTo] == old(buf);
        sloc := PoolString(so, resetTo, str);
      }
      PushString(sloc, |str|, old(buf), str);
      return Success(sloc);
    }

    /** Reuse an equal pooled string, dropping the one at the end of the buffer, or pool that. */
    method PoolString(so: StringOffset, resetTo: nat, ghost text: seq<byte>) returns (sloc: nat)
      requires resetTo <= |buf| && PooledString(buf, so, text) && so.offset <= |buf|
      requires stringTexts.Keys == stringPool && StringPoolOk(buf, stringTexts)
      requires StringPoolOk(buf[..resetTo], stringTexts)
      modifies this`buf, this`stringPool, this`stringTexts
      ensures stringTexts.Keys == stringPool && StringPoolOk(buf, stringTexts)
      ensures stringTexts == old(stringTexts)[StringOffset(sloc, so.len) := text]
      ensures sloc <= |buf| && PooledString(buf, StringOffset(sloc, so.len), text)
      ensures if text in old(stringTexts).Values then buf == old(buf[..resetTo]) && stringTexts == old(stringTexts)
              else buf == old(buf) && sloc == so.offset
    {
      var it := FindString(so, text);
      if it.Some? {
        buf := buf[..resetTo];
        sloc := it.value.offset;
        assert it.value == StringOffset(sloc, so.len);
        TypeTellsLeaf(buf, sloc, ByteWidth(WidthU(so.len)), FBT_STRING, Tree.Str(text));
      } else {
        StringPoolInsert(buf, stringTexts, so, text);
        stringPool := stringPool + {so};
        stringTexts := stringTexts[so := text];
        sloc := so.offset;
      }
    }

    method PushString(sloc: nat, len: nat, ghost before: seq<byte>, ghost text: seq<byte>)
      requires before <= buf && |buf| <= MAX_SIZE && sloc <= |buf| && PooledString(buf, StringOffset(sloc, len), text)
      requires keyTexts.Keys == keyPool && stringTexts.Keys == stringPool && StringPoolOk(buf, stringTexts)
      requires StackReads(before, stack, trees) && KeyPoolOk(before, keyTexts)
      requires !reused ==> TotalCost(trees) <= |before| + |trees|
      modifies this`stack, this`trees
      ensures stack == old(stack) + [Value(sloc, FBT_STRING, WidthU(len))]
      ensures trees == old(trees) + [Tree.Str(text)] && Valid()
    {
      StackReadsGrows(before, buf, stack, trees);
      Push(Value(sloc, FBT_STRING, WidthU(len)), buf, Tree.Str(text));
    }

    // ----- Vectors -----

    /** Write the elements; base is what the buffer held before the vector. */
    method WriteElements(vals: seq<Value>, b: BitWidth, ghost typed: bool, ghost base: seq<byte>,
                         ghost ts: seq<Tree>) returns (r: Result<()>)
      requires base <= buf && |buf| <= MAX_SIZE
      requires StackReads(base, vals, ts) && ElementsFit(|buf|, b, vals)
      requires typed ==> forall k :: 0 <= k < |vals| ==> IsTypedVectorElementType(vals[k].type_)
      modifies this`buf
      ensures r.Success? ==>
        && old(buf) <= buf && |buf| == |old(buf)| + Times(|vals|, ByteWidth(b)) <= MAX_SIZE
        && ElementsRead(buf, |old(buf)|, b, vals, ts, typed, |vals|)
      ensures r.OutOfMemory? ==> |old(buf)| + Times(|vals|, ByteWidth(b)) > MAX_SIZE
    {
      hide ValueReads, RefReads, FitsAt;
      ghost var vloc := |buf|;
      for k := 0 to |vals|
        invariant old(buf) <= buf && |buf| == vloc + Times(k, ByteWidth(b)) <= MAX_SIZE
        invariant ElementsRead(buf, vloc, b, vals, ts, typed, k)
      {
        ghost var before := buf;
        var _ :- WriteElement(vals[k], b, typed, base, vloc, k, ts[k]);
        ElementsReadGrows(before, buf, vloc, b, vals, ts, typed, k);
      }
      return Success(());
    }

    method WriteElement(v: Value, b: BitWidth, ghost typed: bool, ghost base: seq<byte>, ghost loc: nat,
                        ghost k: nat, ghost t: Tree) returns (r: Result<()>)
      requires base <= buf && |base| <= loc && |buf| == loc + Times(k, ByteWidth(b)) <= MAX_SIZE
      requires ValueReads(base, v, t) && FitsAt(v, |buf|, b)
      requires typed ==> IsTypedVectorElementType(v.type_)
      modifies this`buf
      ensures r.Success? <==> |old(buf)| + ByteWidth(b) <= MAX_SIZE
      ensures r.Success? ==>
        && old(buf) <= buf && |buf| == |old(buf)| + ByteWidth(b)
        && RefReads(buf, ElementReference(loc, b, v, k, typed), ElementTree(t, typed))
    {
      var _ :- WriteAny(v, ByteWidth(b));
      ElementWritten(base, buf, loc, k, b, v, t, typed);
      return Success(());
    }

    /** Align, and write what precedes the elements. */
    method WritePrefix(b: BitWidth, len: nat, fixed: bool, keys: Option<Value>) returns (r: Result<()>)
      requires |buf| <= MAX_SIZE && (keys.Some? ==> !fixed)
      requires keys.Some? ==> !IsInline(keys.value.type_) && FitsAt(keys.value, OffsetLocation(|buf|, 0, b), b)
      modifies this`buf
      ensures r.Success? ==>
        && old(buf) <= buf && |buf| <= MAX_SIZE && IsAligned(|buf|, ByteWidth(b))
        && |buf| == OffsetLocation(|old(buf)|, if keys.Some? then 3 else if fixed then 0 else 1, b)
        && (!fixed && len < Capacity(ByteWidth(b)) ==> SizedAt(buf, |buf|, ByteWidth(b), len))
        && (keys.Some? ==>
             && 3 * ByteWidth(b) <= |buf|
             && MapKeys(buf, |buf|, ByteWidth(b)) == (keys.value.u, ByteWidth(keys.value.minBitWidth)))
      ensures r.OutOfMemory? ==> |old(buf)| + 32 > MAX_SIZE
    {
      hide IsAligned, MapKeys, LittleEndian, Padding, Capacity, ReadUnsigned;
      ghost var prefix := if keys.Some? then 3 else if fixed then 0 else 1;
      PrefixAligned(|buf|, prefix, b);
      var w :- Align(b);
      if keys.Some? {
        ghost var at := |buf|;
        r := WriteMapFields(keys.value, len, w);
        assert r.Success? ==> |buf| == at + 3 * w;
      } else if !fixed {
        r := Write(len, w);
      } else {
        r := Success(());
      }
    }

    /** The key vector's offset, its width in bytes, and the size. */
    method WriteMapFields(keys: Value, len: nat, w: Width) returns (r: Result<()>)
      requires |buf| <= MAX_SIZE && keys.u <= |buf| && (w == 8 || |buf| - keys.u < Capacity(w))
      modifies this`buf
      ensures r.Success? ==>
        && old(buf) <= buf && |buf| == |old(buf)| + 3 * w <= MAX_SIZE
        && MapKeys(buf, |buf|, w) == (keys.u, ByteWidth(keys.minBitWidth))
        && (len < Capacity(w) ==> SizedAt(buf, |buf|, w, len))
      ensures r.OutOfMemory? ==> |old(buf)| + 24 > MAX_SIZE
    {
      var at := |buf|;
      var _ :- WriteOffset(keys.u, w);
      ghost var buf1 := buf;
      var _ :- Write(ByteWidth(keys.minBitWidth), w);
      ghost var buf2 := buf;
      var _ :- Write(len, w);
      ReadInPrefix(buf1, buf, at, w);
      ReadInPrefix(buf2, buf, at + w, w);
      MapFieldsRead(buf, at, w, keys.u, ByteWidth(keys.minBitWidth), len);
      return Success(());
    }

    method WriteTypes(vals: seq<Value>, b: BitWidth) returns (r: Result<()>)
      modifies this`buf
      ensures r.Success? <==> |old(buf)| + |vals| <= MAX_SIZE
      ensures r.Success? ==> buf == old(buf) + PackedTypes(vals, b)
    {
      if |buf| + |vals| > MAX_SIZE {
        return OutOfMemory;
      }
      for k := 0 to |vals|
        invariant buf == old(buf) + PackedTypes(vals, b)[..k]
      {
        buf := buf + [vals[k].StoredPackedType(b)];
      }
      return Success(());
    }

    /** Make a vector of every step-th value from start on, n of them.  For the values of a map,
        keys is its key vector and ks what it reads as. */
    method CreateVector(start: nat, n: nat, step: nat, typed: bool, fixed: bool, keys: Option<Value>,
                        ghost ks: Option<seq<seq<byte>>>) returns (r: Result<Value>)
      requires |buf| <= MAX_SIZE && StackReads(buf, stack, trees)
      requires n > 0 ==> start + Stride(n - 1, step) < |stack|
      requires var vals := Strided(stack, start, step, n); var e := ElementTypeOf(vals);
        && (typed ==> AllOfType(vals, e) && IsTypedVectorElementType(e))
        && (fixed ==> typed && FBT_INT <= e <= FBT_FLOAT && 2 <= n <= 4)
      requires keys.Some? <==> ks.Some?
      requires keys.Some? ==>
        && !typed && |ks.value| == n && keys.value.type_ == FBT_VECTOR_KEY && keys.value.u <= |buf|
        && KeysAt(buf, keys.value.u, ByteWidth(keys.value.minBitWidth), ks.value)
      modifies this`buf
      ensures r.Success? ==>
        && old(buf) <= buf && |buf| <= MAX_SIZE
        && |buf| <= |old(buf)| + 9 * n + 39
        && |buf| >= |old(buf)| + n + (if fixed then 0 else 1) + (if typed then 0 else n) + (if keys.Some? then 2 else 0)
        && r.value.type_ == VectorType(typed, fixed, keys.Some?, ElementTypeOf(Strided(stack, start, step, n)), n)
        && VectorTree(typed, fixed, ks, ElementTypeOf(Strided(stack, start, step, n)), Strided(trees, start, step, n))
           in Denotations(buf, r.value)
        && IsLeastFit(forceMinBitWidth, n, |old(buf)|, keys, Strided(stack, start, step, n), step, r.value.minBitWidth)
        && IsLaidOut(|old(buf)|, n, typed, fixed, keys.Some?, r.value, |buf|)
        && (!typed ==> TypesStored(buf, r.value.minBitWidth, Strided(stack, start, step, n)))
      ensures r.OutOfMemory? ==> |old(buf)| + 9 * n + 39 > MAX_SIZE
    {
      hide Denotations, VectorTree, VectorType, WidthCandidates, IsMaximum, KeysAt, OffsetLocation, AllOfType, FitsAt,
        IsLeastFit, IsLaidOut, TypesStored;
      var vals := Strided(stack, start, step, n);
      ghost var ts := Strided(trees, start, step, n);
      assert StackReads(buf, vals, ts);
      var b := VectorBitWidth(vals, step, |buf|, forceMinBitWidth, keys);
      CandidatesHold(forceMinBitWidth, |buf|, keys, vals, step, b, if keys.Some? then 3 else if fixed then 0 else 1);
      MaximumIsLeast(forceMinBitWidth, n, |buf|, keys, vals, step, b);
      r := WriteVector(vals, b, typed, fixed, keys, ks, ts);
    }

    method WriteVector(vals: seq<Value>, b: BitWidth, typed: bool, fixed: bool, keys: Option<Value>,
                       ghost ks: Option<seq<seq<byte>>>, ghost ts: seq<Tree>) returns (r: Result<Value>)
      requires |buf| <= MAX_SIZE && StackReads(buf, vals, ts) && WidthU(|vals|) <= b
      requires typed ==>
        && keys.None? && AllOfType(vals, ElementTypeOf(vals)) && IsTypedVectorElementType(ElementTypeOf(vals))
      requires fixed ==> typed && FBT_INT <= ElementTypeOf(vals) <= FBT_FLOAT && 2 <= |vals| <= 4
      requires ElementsFit(OffsetLocation(|buf|, if keys.Some? then 3 else if fixed then 0 else 1, b), b, vals)
      requires keys.Some? <==> ks.Some?
      requires keys.Some? ==>
        && !IsInline(keys.value.type_) && FitsAt(keys.value, OffsetLocation(|buf|, 0, b), b)
        && |ks.value| == |vals| && KeysAt(buf, keys.value.u, ByteWidth(keys.value.minBitWidth), ks.value)
      modifies this`buf
      ensures r.Success? ==>
        && old(buf) <= buf && |buf| <= MAX_SIZE
        && |buf| <= |old(buf)| + 9 * |vals| + 39
        && |buf| >= |old(buf)| + |vals| + (if fixed then 0 else 1)
                    + (if typed then 0 else |vals|) + (if keys.Some? then 2 else 0)
        && r.value.type_ == VectorType(typed, fixed, keys.Some?, ElementTypeOf(vals), |vals|)
        && r.value.minBitWidth == b && IsLaidOut(|old(buf)|, |vals|, typed, fixed, keys.Some?, r.value, |buf|)
        && (!typed ==> TypesStored(buf, b, vals))
        && VectorTree(typed, fixed, ks, ElementTypeOf(vals), ts) in Denotations(buf, r.value)
      ensures r.OutOfMemory? ==> |old(buf)| + 9 * |vals| + 39 > MAX_SIZE
    {
      hide ValueReads, KeysAt, MapKeys, TypedAt, VectorAt, SizedAt, ElementsFit, AllOfType, TypesStored;
      ghost var base := buf;
      var e := ElementTypeOf(vals);
      var written := WritePrefix(b, |vals|, fixed, keys);
      ghost var prefixed := buf;
      var vloc := |buf|;
      if written.Success? {
        written := WriteBody(vals, b, typed, base, ts, e);
      }
      r := OutOfMemory;
      if written.Success? {
        WidthUIsLeast(|vals|, b);
        VectorComplete(base, prefixed, buf, b, typed, fixed, keys, ks, e, ts);
        r := Success(Value(vloc, VectorType(typed, fixed, keys.Some?, e, |vals|), b));
      }
    }

    /** The elements, and for an untyped vector their types. */
    method WriteBody(vals: seq<Value>, b: BitWidth, typed: bool, ghost base: seq<byte>, ghost ts: seq<Tree>,
                       ghost e: Type) returns (r: Result<()>)
      requires base <= buf && |buf| <= MAX_SIZE
      requires StackReads(base, vals, ts) && ElementsFit(|buf|, b, vals)
      requires typed ==> AllOfType(vals, e) && IsTypedVectorElementType(e)
      modifies this`buf
      ensures r.Success? ==>
        && old(buf) <= buf && |vals| <= |buf| <= MAX_SIZE
        && |buf| == |old(buf)| + Times(|vals|, ByteWidth(b)) + (if typed then 0 else |vals|)
        && (typed ==> TypedAt(buf, |old(buf)|, ByteWidth(b), e, AsTypedAll(ts)))
        && (!typed && SizedAt(old(buf), |old(buf)|, ByteWidth(b), |ts|) ==> VectorAt(buf, |old(buf)|, ByteWidth(b), ts))
        && (!typed ==> TypesStored(buf, b, vals))
      ensures r.OutOfMemory? ==> |old(buf)| + 9 * |vals| > MAX_SIZE
    {
      hide TypesStored, SizedAt, VectorAt, TypedAt, ElementsFit, ValueReads, ElementsRead, PackedTypes, AsTypedAll,
        Padding, ReadUnsigned;
      ghost var prefixed := buf;
      var _ :- WriteElements(vals, b, typed, base, ts);
      ghost var written := buf;
      if typed {
        TypedBuilt(buf, |prefixed|, b, vals, ts, e);
      } else {
        var _ :- WriteTypes(vals, b);
        TypesAreStored(written, buf, b, vals);
        if SizedAt(prefixed, |prefixed|, ByteWidth(b), |ts|) {
          UntypedBuilt(prefixed, written, buf, b, vals, ts);
        }
      }
      return Success(());
    }

    /** A typed vector of strings becomes one of their C strings; an empty typed vector has key
        elements. */
    method EndVector(start: nat, typed: bool, fixed: bool) returns (r: Result<nat>)
      requires Valid() && start <= |stack|
      requires var e := ElementTypeOf(stack[start..]);
        && (typed ==> AllOfType(stack[start..], e) && IsTypedVectorElementType(e))
        && (fixed ==> typed && FBT_INT <= e <= FBT_FLOAT && 2 <= |stack| - start <= 4)
      modifies this`buf, this`stack, this`trees
      ensures r.Success? ==>
        && Valid() && old(buf) <= buf && |buf| <= |old(buf)| + 9 * (|old(stack)| - start) + 39
        && trees == old(trees)[..start]
                  + [VectorTree(typed, fixed, None, ElementTypeOf(old(stack)[start..]), old(trees)[start..])]
        && |stack| == start + 1 && stack[..start] == old(stack)[..start] && stack[start].u == r.value
        && IsLeastFit(forceMinBitWidth, |old(stack)| - start, |old(buf)|, None, old(stack)[start..], 1,
                      stack[start].minBitWidth)
        && IsLaidOut(|old(buf)|, |old(stack)| - start, typed, fixed, false, stack[start], |buf|)
        && (!typed ==> TypesStored(buf, stack[start].minBitWidth, old(stack)[start..]))
        && (typed && start == |old(stack)| ==> stack[start].type_ == 14)
      ensures r.OutOfMemory? ==> |old(buf)| + 9 * (|old(stack)| - start) + 39 > MAX_SIZE
    {
      hide KeyPoolOk, StringPoolOk, ValueReads, IsLeastFit, IsLaidOut, TypesStored;
      var n := |stack| - start;
      assert Strided(stack, start, 1, n) == stack[start..] && Strided(trees, start, 1, n) == trees[start..];
      ghost var t := VectorTree(typed, fixed, None, ElementTypeOf(stack[start..]), trees[start..]);
      TotalCostSplit(trees, start);
      VectorTreeCost(typed, fixed, None, ElementTypeOf(stack[start..]), trees[start..]);
      var vec :- CreateVector(start, n, 1, typed, fixed, None, None);
      ReplaceTop(start, vec, old(buf), t);
      return Success(vec.u);
    }

    /** The pairs of keys and values from start on become one map, in key order.  Of equal keys
        any order may result; then, and only then, the builder remembers that there were some. */
    method EndMap(start: nat) returns (r: Result<nat>)
      requires Valid() && start <= |stack| && (|stack| - start) % 2 == 0
      requires forall i :: 0 <= i < (|stack| - start) / 2 ==> stack[start + 2 * i].type_ == FBT_KEY
      modifies this`buf, this`stack, this`trees, this`hasDuplicateKeys
      ensures r.Success? ==>
        && Valid() && old(buf) <= buf && |buf| <= |old(buf)| + 9 * (|old(stack)| - start) + 78
        && EntriesAreKeys(old(trees)[start..])
        && |trees| == start + 1 && trees[..start] == old(trees)[..start]
        && IsMapOf(trees[start], old(trees)[start..])
        && |stack| == start + 1 && stack[..start] == old(stack)[..start] && stack[start].u == r.value
        && IsSortedMapLaidOut(forceMinBitWidth, |old(buf)|, old(stack), start, stack[start], |buf|)
        && (hasDuplicateKeys <==> old(hasDuplicateKeys) || !Distinct(EntryKeys(old(trees)[start..])))
      ensures r.OutOfMemory? ==> |old(buf)| + 9 * (|old(stack)| - start) + 78 > MAX_SIZE
    {
      hide IsMapLaidOut, IsArrangement, IsMapOf;
      ghost var perm := SortEntries(start);
      RearrangedStart(old(stack), start, perm);
      ghost var ks := Permute(EntryKeys(old(trees)[start..]), perm);
      r := FinishMap(start, |perm|, ks);
      if r.Success? {
        SortedEntries(trees[start], old(trees)[start..], perm);
      }
    }

    /** Replace the sorted pairs from start on by their map. */
    method FinishMap(start: nat, ghost n: nat, ghost ks: seq<seq<byte>>) returns (r: Result<nat>)
      requires Valid() && start + 2 * n == |stack| && |ks| == n
      requires forall i :: 0 <= i < n ==>
        stack[start + 2 * i].type_ == FBT_KEY && trees[start + 2 * i] == Tree.Key(ks[i])
      modifies this`buf, this`stack, this`trees
      ensures r.Success? ==>
        && Valid() && old(buf) <= buf && |buf| <= |old(buf)| + 18 * n + 78
        && trees == old(trees)[..start] + [Tree.Map(ks, Strided(old(trees), start + 1, 2, n))]
        && |stack| == start + 1 && stack[..start] == old(stack)[..start] && stack[start].u == r.value
        && IsMapLaidOut(forceMinBitWidth, |old(buf)|, old(stack), start, n, stack[start], |buf|)
      ensures r.OutOfMemory? ==> |old(buf)| + 18 * n + 78 > MAX_SIZE
    {
      hide IsMapLaidOut;
      ghost var vs := Strided(trees, start + 1, 2, n);
      MapCost(trees, start, n, ks);
      StackReadsPrefix(buf, stack, trees, start);
      var vec :- CreateMap(start, (|stack| - start) / 2, ks, vs);
      ReplaceTop(start, vec, old(buf), Tree.Map(ks, vs));
      return Success(vec.u);
    }

    /** A vector of the sorted keys, then one of the values that refers to it. */
    method CreateMap(start: nat, n: nat, ghost ks: seq<seq<byte>>, ghost vs: seq<Tree>) returns (r: Result<Value>)
      requires |buf| <= MAX_SIZE && StackReads(buf, stack, trees) && start + 2 * n == |stack| && |ks| == n
      requires forall i :: 0 <= i < n ==>
        stack[start + 2 * i].type_ == FBT_KEY && trees[start + 2 * i] == Tree.Key(ks[i])
      requires vs == Strided(trees, start + 1, 2, n)
      modifies this`buf
      ensures r.Success? ==>
        && old(buf) <= buf && |old(buf)| + 2 * n + 2 <= |buf| <= MAX_SIZE && |buf| <= |old(buf)| + 18 * n + 78
        && !IsInline(r.value.type_) && Tree.Map(ks, vs) in Denotations(buf, r.value)
        && IsMapLaidOut(forceMinBitWidth, |old(buf)|, stack, start, n, r.value, |buf|)
      ensures r.OutOfMemory? ==> |old(buf)| + 18 * n + 78 > MAX_SIZE
    {
      hide IsLeastFit, IsLaidOut;
      var keys :- CreateKeyVector(start, n, ks);
      ghost var mid := |buf|;
      StackReadsGrows(old(buf), buf, stack, trees);
      r := CreateValueVector(start, n, keys, ks, vs);
      assert r.Success? ==>
        IsMapOfVectors(forceMinBitWidth, |old(buf)|, stack, start, n, keys, mid, r.value, |buf|);
    }

    method CreateValueVector(start: nat, n: nat, keys: Value, ghost ks: seq<seq<byte>>, ghost vs: seq<Tree>)
      returns (r: Result<Value>)
      requires |buf| <= MAX_SIZE && StackReads(buf, stack, trees) && start + 2 * n == |stack| && |ks| == n
      requires vs == Strided(trees, start + 1, 2, n)
      requires keys.type_ == FBT_VECTOR_KEY && keys.u <= |buf|
      requires KeysAt(buf, keys.u, ByteWidth(keys.minBitWidth), ks)
      modifies this`buf
      ensures r.Success? ==>
        && old(buf) <= buf && |old(buf)| + n + 1 <= |buf| <= MAX_SIZE && |buf| <= |old(buf)| + 9 * n + 39
        && !IsInline(r.value.type_) && Tree.Map(ks, vs) in Denotations(buf, r.value)
        && IsLeastFit(forceMinBitWidth, n, |old(buf)|, Some(keys), Strided(stack, start + 1, 2, n), 2,
                      r.value.minBitWidth)
        && IsLaidOut(|old(buf)|, n, false, false, true, r.value, |buf|)
      ensures r.OutOfMemory? ==> |old(buf)| + 9 * n + 39 > MAX_SIZE
    {
      hide IsLeastFit, IsLaidOut, TypesStored;
      r := CreateVector(start + 1, n, 2, false, false, Some(keys), Some(ks));
    }

    /** Put the pairs from start on in key order. */
    method SortEntries(start: nat) returns (ghost perm: seq<nat>)
      requires Valid() && start <= |stack| && (|stack| - start) % 2 == 0
      requires forall i :: 0 <= i < (|stack| - start) / 2 ==> stack[start + 2 * i].type_ == FBT_KEY
      modifies this`stack, this`trees, this`hasDuplicateKeys
      ensures start + 2 * |perm| == |old(stack)| == |stack| && IsArrangement(perm, |perm|)
      ensures forall i :: 0 <= i < |perm| ==> perm[i] < |perm|
      ensures stack == Rearranged(old(stack), start, perm)
      ensures Valid() && trees[..start] == old(trees)[..start]
      ensures EntriesAreKeys(old(trees)[start..]) && Sorted(Permute(EntryKeys(old(trees)[start..]), perm))
      ensures forall i :: 0 <= i < |perm| ==>
        && stack[start + 2 * i].type_ == FBT_KEY
        && trees[start + 2 * i] == Tree.Key(Permute(EntryKeys(old(trees)[start..]), perm)[i])
      ensures Strided(trees, start + 1, 2, |perm|) == Permute(Odd(old(trees)[start..]), perm)
      ensures hasDuplicateKeys <==> old(hasDuplicateKeys) || !Distinct(EntryKeys(old(trees)[start..]))
    {
      hide KeyPoolOk, StringPoolOk, ValueReads, TotalCost, Rearranged, Sorted, IsArrangement, Distinct;
      var order, duplicates := EntryOrder(start);
      perm := order;
      RearrangedEntries(trees, start, perm);
      RearrangedKeys(stack, start, perm);
      hasDuplicateKeys := hasDuplicateKeys || duplicates;
      Rearrange(start, order);
    }

    method EntryOrder(start: nat) returns (perm: seq<nat>, duplicates: bool)
      requires Valid() && start <= |stack| && (|stack| - start) % 2 == 0
      requires forall i :: 0 <= i < (|stack| - start) / 2 ==> stack[start + 2 * i].type_ == FBT_KEY
      ensures start + 2 * |perm| == |stack| && IsArrangement(perm, |perm|)
      ensures forall i :: 0 <= i < |perm| ==> perm[i] < |perm|
      ensures EntriesAreKeys(trees[start..]) && Sorted(Permute(EntryKeys(trees[start..]), perm))
      ensures duplicates <==> !Distinct(EntryKeys(trees[start..]))
    {
      var n := (|stack| - start) / 2;
      StackKeys(buf, stack, trees, start, n);
      var memory := KeyMemory(buf, stack, start, n);
      perm, duplicates := SortKeys(memory);
    }

    method Rearrange(start: nat, perm: seq<nat>)
      requires Valid() && start + 2 * |perm| == |stack| && IsArrangement(perm, |perm|)
      requires forall i :: 0 <= i < |perm| ==> perm[i] < |perm|
      requires EntriesAreKeys(trees[start..])
      modifies this`stack, this`trees
      ensures Valid() && stack == Rearranged(old(stack), start, perm) && trees == Rearranged(old(trees), start, perm)
    {
      RearrangedReads(buf, stack, trees, start, perm);
      RearrangedCost(trees, start, perm);
      stack := Rearranged(stack, start, perm);
      trees := Rearranged(trees, start, perm);
    }

    method CreateKeyVector(start: nat, n: nat, ghost ks: seq<seq<byte>>) returns (r: Result<Value>)
      requires |buf| <= MAX_SIZE && StackReads(buf, stack, trees) && start + 2 * n <= |stack| && |ks| == n
      requires forall i :: 0 <= i < n ==>
        stack[start + 2 * i].type_ == FBT_KEY && trees[start + 2 * i] == Tree.Key(ks[i])
      modifies this`buf
      ensures r.Success? ==>
        && old(buf) <= buf && |old(buf)| + n + 1 <= |buf| <= MAX_SIZE && |buf| <= |old(buf)| + 9 * n + 39
        && r.value.type_ == FBT_VECTOR_KEY && r.value.u <= |buf|
        && KeysAt(buf, r.value.u, ByteWidth(r.value.minBitWidth), ks)
        && IsLeastFit(forceMinBitWidth, n, |old(buf)|, None, Strided(stack, start, 2, n), 2, r.value.minBitWidth)
        && IsLaidOut(|old(buf)|, n, true, false, false, r.value, |buf|)
      ensures r.OutOfMemory? ==> |old(buf)| + 9 * n + 39 > MAX_SIZE
    {
      hide ValueReads, KeysAt, IsLeastFit, IsLaidOut;
      ghost var ts := Strided(trees, start, 2, n);
      ghost var vals := Strided(stack, start, 2, n);
      assert forall i :: 0 <= i < n ==> vals[i] == stack[start + 2 * i] && ts[i] == Tree.Key(ks[i]);
      assert ElementTypeOf(vals) == FBT_KEY;
      var v :- CreateVector(start, n, 2, true, false, None, None);
      KeyVectorKeys(buf, v, ts, ks);
      return Success(v);
    }

    /** `LastValue` gives a value that `ReuseValue` can put on the stack again. */
    method ReuseValue(v: Value, ghost t: Tree)
      requires Valid() && ValueReads(buf, v, t)
      modifies this`stack, this`trees, this`reused
      ensures Valid() && trees == old(trees) + [t] && reused
    {
      reused := true;
      Push(v, buf, t);
    }

    method ForceMinimumBitWidth(bw: BitWidth)
      requires Valid()
      modifies this`forceMinBitWidth
      ensures Valid() && forceMinBitWidth == bw
    {
      forceMinBitWidth := bw;
    }

    /** After this the buffer reads as the one tree on the stack. */
    method Finish() returns (r: Result<()>)
      requires Valid() && |stack| == 1
      modifies this`buf, this`finished
      ensures r.Success? ==>
        && finished && old(buf) <= buf && |old(buf)| + 3 <= |buf| <= MAX_SIZE && |buf| <= |old(buf)| + 18
        && IsRootWidth(stack[0], |old(buf)|, |buf|, buf[|buf| - 1])
        && buf[|buf| - 2] == 4 * stack[0].type_ + stack[0].minBitWidth
        && Encodes(buf, trees[0]) && (!reused ==> Cost(trees[0]) <= |buf|)
      ensures r.OutOfMemory? ==> |old(buf)| + 18 > MAX_SIZE
    {
      hide KeyPoolOk, StringPoolOk, Encodes, HoldsValue, Cost;
      ghost var base := buf;
      var v := stack[0];
      var b := ElemWidth(v, |buf|, 0);
      var _ :- Align(b);
      if !IsInline(v.type_) {
        OffsetFitsFinalWidth(v, |base|, 0, 0, b);
      }
      r := WriteRoot(v, b, base, trees[0]);
      finished := r.Success?;
      assert trees[1..] == [];
    }

    /** The root element, its type, and its width. */
    method WriteRoot(v: Value, b: BitWidth, ghost base: seq<byte>, ghost t: Tree) returns (r: Result<()>)
      requires base <= buf && |buf| <= MAX_SIZE && ValueReads(base, v, t) && FitsAt(v, |buf|, b)
      requires IsInline(v.type_) ==> b == v.minBitWidth
      modifies this`buf
      ensures r.Success? ==>
        && old(buf) <= buf && |old(buf)| + 3 <= |buf| <= MAX_SIZE && |buf| == |old(buf)| + ByteWidth(b) + 2
        && Encodes(buf, t) && buf[|buf| - 1] == ByteWidth(b) && buf[|buf| - 2] == 4 * v.type_ + v.minBitWidth
      ensures r.OutOfMemory? ==> |old(buf)| + 10 > MAX_SIZE
    {
      hide Encodes, ValueReads, RefReads, ObjectAt, FitsAt;
      r := WriteElement(v, b, false, base, |buf|, 0, t);
      ghost var body := buf;
      if r.Success? {
        r := WriteFooter(v, b);
      }
      if r.Success? {
        RootReads(body, buf, v, b, t);
      }
    }

    method WriteFooter(v: Value, b: BitWidth) returns (r: Result<()>)
      modifies this`buf
      ensures r.Success? ==>
        && |buf| <= MAX_SIZE && buf == old(buf) + [RootPackedType(v)] + [ByteWidth(b)]
      ensures r.OutOfMemory? ==> |old(buf)| + 2 > MAX_SIZE
    {
      var _ :- Append([RootPackedType(v)]);
      r := Append([ByteWidth(b)]);
    }
  }

  lemma RootReads(body: seq<byte>, buf: seq<byte>, v: Value, b: BitWidth, t: Tree)
    requires |body| >= ByteWidth(b) && (IsInline(v.type_) ==> b == v.minBitWidth)
    requires buf == body + [RootPackedType(v)] + [ByteWidth(b)]
    requires t in Meanings(body, ElementReference(|body| - ByteWidth(b), b, v, 0, false))
    ensures Encodes(buf, t)
  {
    PackedReads(|body| - ByteWidth(b), ByteWidth(b), v.minBitWidth, v.type_);
    assert v.minBitWidth == v.StoredWidth(b);
    assert GetRoot(buf) == ElementReference(|body| - ByteWidth(b), b, v, 0, false);
    assert buf[..|buf| - 2] == body;
  }

  lemma KeyVectorKeys(buf: seq<byte>, v: Value, ts: seq<Tree>, ks: seq<seq<byte>>)
    requires v.type_ == FBT_VECTOR_KEY && Tree.TypedVector(FBT_KEY, AsTypedAll(ts)) in Denotations(buf, v)
    requires |ts| == |ks| && forall i :: 0 <= i < |ts| ==> ts[i] == Tree.Key(ks[i])
    ensures v.u <= |buf| && KeysAt(buf, v.u, ByteWidth(v.minBitWidth), ks)
  {
    TypedKeysAreKeys(buf, v.u, ByteWidth(v.minBitWidth), v.type_, AsTypedAll(ts), ks);
  }

  // ----- Maps -----

  /** Every other entry, from the first on, is a key. */
  predicate EntriesAreKeys(entries: seq<Tree>) {
    forall i :: 0 <= i < |entries| / 2 ==> entries[2 * i].Key?
  }

  function EntryKeys(entries: seq<Tree>): (ks: seq<seq<byte>>)
    requires EntriesAreKeys(entries)
    ensures |ks| == |entries| / 2
  {
    seq(|entries| / 2, i requires 0 <= i < |entries| / 2 => entries[2 * i].key)
  }

  /** t is a map of exactly these entries, in key order. */
  ghost predicate IsMapOf(t: Tree, entries: seq<Tree>)
    requires EntriesAreKeys(entries)
  {
    exists perm :: IsSortedMap(t, entries, perm)
  }

  ghost predicate IsSortedMap(t: Tree, entries: seq<Tree>, perm: seq<nat>)
    requires EntriesAreKeys(entries)
  {
    && IsArrangement(perm, |entries| / 2) && (forall i :: 0 <= i < |perm| ==> perm[i] < |entries| / 2)
    && t == Tree.Map(Permute(EntryKeys(entries), perm), Permute(Odd(entries), perm))
    && Sorted(t.keys)
  }

  lemma SortedEntries(t: Tree, entries: seq<Tree>, perm: seq<nat>)
    requires EntriesAreKeys(entries) && |perm| == |entries| / 2 && IsArrangement(perm, |perm|)
    requires forall i :: 0 <= i < |perm| ==> perm[i] < |perm|
    requires Sorted(Permute(EntryKeys(entries), perm))
    requires t == Tree.Map(Permute(EntryKeys(entries), perm), Permute(Odd(entries), perm))
    ensures IsMapOf(t, entries)
  {
    assert IsSortedMap(t, entries, perm);
  }

  /** What the key pointers of the entries from start on point to. */
  function KeyMemory(buf: seq<byte>, stack: seq<Value>, start: nat, n: nat): (memory: seq<seq<byte>>)
    requires start + 2 * n <= |stack|
    requires forall i :: 0 <= i < n ==> stack[start + 2 * i].u <= |buf|
    ensures |memory| == n
  {
    seq(n, i requires 0 <= i < n => Memory(buf, stack[start + 2 * i].u))
  }

  lemma StackKeys(buf: seq<byte>, stack: seq<Value>, trees: seq<Tree>, start: nat, n: nat)
    requires StackReads(buf, stack, trees) && start + 2 * n == |stack|
    requires forall i :: 0 <= i < n ==> stack[start + 2 * i].type_ == FBT_KEY
    ensures EntriesAreKeys(trees[start..])
    ensures forall i :: 0 <= i < n ==> stack[start + 2 * i].u <= |buf|
    ensures forall i :: 0 <= i < n ==> 0 in KeyMemory(buf, stack, start, n)[i]
    ensures CStrings(KeyMemory(buf, stack, start, n)) == EntryKeys(trees[start..])
  {
    hide ObjectAt, CString;
    forall i | 0 <= i < n
      ensures trees[start..][2 * i].Key? && stack[start + 2 * i].u <= |buf|
    {
      StackKey(buf, stack[start + 2 * i], trees[start + 2 * i]);
    }
    var memory, ks := KeyMemory(buf, stack, start, n), EntryKeys(trees[start..]);
    forall i | 0 <= i < n ensures 0 in memory[i] && CString(memory[i]) == ks[i] {
      StackKey(buf, stack[start + 2 * i], trees[start + 2 * i]);
      assert memory[i] == Memory(buf, stack[start + 2 * i].u);
    }
  }

  lemma StackKey(buf: seq<byte>, v: Value, t: Tree)
    requires v.type_ == FBT_KEY && ValueReads(buf, v, t)
    ensures t.Key? && v.u <= |buf| && 0 in Memory(buf, v.u) && CString(Memory(buf, v.u)) == t.key
  {
    TypeTellsLeaf(buf, v.u, ByteWidth(v.minBitWidth), v.type_, t);
    KeyInMemory(buf, v.u, t.key);
  }

  lemma RearrangedReads(buf: seq<byte>, stack: seq<Value>, trees: seq<Tree>, start: nat, perm: seq<nat>)
    requires StackReads(buf, stack, trees) && start + 2 * |perm| == |stack|
    requires forall i :: 0 <= i < |perm| ==> perm[i] < |perm|
    ensures StackReads(buf, Rearranged(stack, start, perm), Rearranged(trees, start, perm))
  {
  }

  lemma RearrangedKeys(stack: seq<Value>, start: nat, perm: seq<nat>)
    requires start + 2 * |perm| == |stack| && forall i :: 0 <= i < |perm| ==> perm[i] < |perm|
    requires forall i :: 0 <= i < |perm| ==> stack[start + 2 * i].type_ == FBT_KEY
    ensures forall i :: 0 <= i < |perm| ==> Rearranged(stack, start, perm)[start + 2 * i].type_ == FBT_KEY
  {
    forall i | 0 <= i < |perm| ensures Rearranged(stack, start, perm)[start + 2 * i].type_ == FBT_KEY {
      RearrangedPair(stack, start, perm, i);
    }
  }

  lemma RearrangedEntries(trees: seq<Tree>, start: nat, perm: seq<nat>)
    requires start + 2 * |perm| == |trees| && (forall i :: 0 <= i < |perm| ==> perm[i] < |perm|)
    requires EntriesAreKeys(trees[start..])
    ensures Rearranged(trees, start, perm)[..start] == trees[..start]
    ensures Strided(Rearranged(trees, start, perm), start + 1, 2, |perm|) == Permute(Odd(trees[start..]), perm)
    ensures forall i :: 0 <= i < |perm| ==>
      Rearranged(trees, start, perm)[start + 2 * i] == Tree.Key(Permute(EntryKeys(trees[start..]), perm)[i])
  {
    forall i | 0 <= i < |perm|
      ensures Rearranged(trees, start, perm)[start + 2 * i] == Tree.Key(Permute(EntryKeys(trees[start..]), perm)[i])
      ensures Rearranged(trees, start, perm)[start + 2 * i + 1] == Permute(Odd(trees[start..]), perm)[i]
    {
      RearrangedPair(trees, start, perm, i);
      assert trees[start..][2 * perm[i]] == trees[start + 2 * perm[i]];
    }
  }

  /** Sorting changes no cost. */
  lemma RearrangedParts(trees: seq<Tree>, start: nat, perm: seq<nat>)
    requires start + 2 * |perm| == |trees| && (forall i :: 0 <= i < |perm| ==> perm[i] < |perm|)
    requires EntriesAreKeys(trees[start..])
    ensures var after := Rearranged(trees, start, perm);
      && |after| == |trees| && after[..start] == trees[..start] && EntriesAreKeys(after[start..])
      && Odd(after[start..]) == Permute(Odd(trees[start..]), perm)
  {
    hide Permute;
    var after := Rearranged(trees, start, perm);
    RearrangedEntries(trees, start, perm);
    forall i | 0 <= i < |perm| ensures after[start..][2 * i].Key? {
      RearrangedPair(trees, start, perm, i);
    }
    assert Odd(after[start..]) == Strided(after, start + 1, 2, |perm|);
  }

  lemma RearrangedCost(trees: seq<Tree>, start: nat, perm: seq<nat>)
    requires start + 2 * |perm| == |trees| && IsArrangement(perm, |perm|)
    requires forall i :: 0 <= i < |perm| ==> perm[i] < |perm|
    requires EntriesAreKeys(trees[start..])
    ensures TotalCost(Rearranged(trees, start, perm)) == TotalCost(trees)
  {
    hide TotalCost, Cost, IsArrangement, Permute, Rearranged, Odd;
    var entries, after := trees[start..], Rearranged(trees, start, perm);
    RearrangedParts(trees, start, perm);
    assert Odd(entries)[..|perm|] == Odd(entries);
    TotalCostPermuted(Odd(entries), perm, |perm|);
    TotalCostOdd(entries);
    TotalCostOdd(after[start..]);
    TotalCostSplit(trees, start);
    TotalCostSplit(after, start);
  }

  lemma MapCost(trees: seq<Tree>, start: nat, n: nat, ks: seq<seq<byte>>)
    requires start + 2 * n == |trees| && forall i :: 0 <= i < n ==> trees[start + 2 * i].Key?
    ensures TotalCost(trees[..start]) + Cost(Tree.Map(ks, Strided(trees, start + 1, 2, n))) == TotalCost(trees) + 2
  {
    hide TotalCost;
    assert Odd(trees[start..]) == Strided(trees, start + 1, 2, n);
    assert forall i :: 0 <= i < n ==> trees[start..][2 * i] == trees[start + 2 * i];
    TotalCostSplit(trees, start);
    TotalCostOdd(trees[start..]);
  }

  lemma VectorComplete(base: seq<byte>, prefixed: seq<byte>, buf: seq<byte>, b: BitWidth, typed: bool, fixed: bool,
                       keys: Option<Value>, ks: Option<seq<seq<byte>>>, e: Type, ts: seq<Tree>)
    requires base <= prefixed <= buf && (typed ==> IsTypedVectorElementType(e) && ks.None?) && (fixed ==> typed)
    requires fixed ==> FBT_INT <= e <= FBT_FLOAT && 2 <= |ts| <= 4
    requires IsAligned(|prefixed|, ByteWidth(b)) && (!fixed ==> SizedAt(prefixed, |prefixed|, ByteWidth(b), |ts|))
    requires if typed then TypedAt(buf, |prefixed|, ByteWidth(b), e, AsTypedAll(ts))
             else VectorAt(buf, |prefixed|, ByteWidth(b), ts)
    requires keys.Some? <==> ks.Some?
    requires keys.Some? ==>
      && |ks.value| == |ts| && 3 * ByteWidth(b) <= |prefixed|
      && MapKeys(prefixed, |prefixed|, ByteWidth(b)) == (keys.value.u, ByteWidth(keys.value.minBitWidth))
      && KeysAt(base, keys.value.u, ByteWidth(keys.value.minBitWidth), ks.value)
    ensures ValueReads(buf, Value(|prefixed|, VectorType(typed, fixed, keys.Some?, e, |ts|), b),
      VectorTree(typed, fixed, ks, e, ts))
  {
    var w := ByteWidth(b);
    if !fixed {
      ReadInPrefix(prefixed, buf, |prefixed| - w, w);
    }
    if keys.Some? {
      KeysAtGrows(base, prefixed, keys.value.u, ByteWidth(keys.value.minBitWidth), ks.value);
      MapKeysAtGrows(prefixed, buf, |prefixed|, w, ks.value);
    }
    VectorObject(buf, |prefixed|, w, typed, fixed, ks, e, ts);
  }
}
