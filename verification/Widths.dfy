/** Scalar widths and alignments, with a linear case for each, so that no product or remainder of
    two unknowns is left to reason about. */
module Widths {
  import opened Bytes

  /** Width of a scalar in bytes. */
  type Width = w: int | w == 1 || w == 2 || w == 4 || w == 8 witness 1

  predicate IsWidth(w: int) {
    w == 1 || w == 2 || w == 4 || w == 8
  }

  /** i * w, one linear case for each width. */
  function Times(i: nat, w: Width): (n: nat)
    ensures n >= i
  {
    if w == 1 then i else if w == 2 then 2 * i else if w == 4 then 4 * i else 8 * i
  }

  /** How many values a scalar of width w can hold. */
  function Capacity(w: Width): nat {
    if w == 1 then 0x100 else if w == 2 then 0x1_0000 else if w == 4 then U32 else U64
  }

  lemma CapacityIsLimit(w: Width)
    ensures Capacity(w) == Limit(w)
  {
    LimitValues();
  }

  lemma ScalarReadsBack(buf: seq<byte>, at: nat, w: Width, v: nat)
    requires at + w <= |buf| && v < Capacity(w) && BytesAt(buf, at, LittleEndian(v, w))
    ensures ReadUnsigned(buf, at, w) == v
  {
    CapacityIsLimit(w);
    StoredReadsBack(buf, at, w, v);
  }

  predicate IsAligned(n: nat, w: Width) {
    if w == 1 then true else if w == 2 then n % 2 == 0 else if w == 4 then n % 4 == 0 else n % 8 == 0
  }

  lemma AlignedIsMultiple(n: nat, w: Width)
    ensures IsAligned(n, w) <==> n % w == 0
  {
    if w == 1 {
    } else if w == 2 {
    } else if w == 4 {
    }
  }

  function PaddingFour(n: nat): (p: nat)
    ensures p < 4 && (n + p) % 4 == 0
  {
    var r := n % 4; if r == 0 then 0 else 4 - r
  }

  function PaddingEight(n: nat): (p: nat)
    ensures p < 8 && (n + p) % 8 == 0
  {
    var r := n % 8; if r == 0 then 0 else 8 - r
  }

  /** PaddingBytes(n, w), one linear case for each width. */
  function Padding(n: nat, w: Width): (p: nat)
    ensures p < w && IsAligned(n + p, w)
  {
    if w == 1 then 0 else if w == 2 then n % 2 else if w == 4 then PaddingFour(n) else PaddingEight(n)
  }

  lemma PaddingIsPaddingBytes(n: nat, w: Width)
    ensures Padding(n, w) == PaddingBytes(n, w)
  {
    if w == 1 {
      PaddingUnique(n, 1, 0);
    } else if w == 2 {
      PaddingUnique(n, 2, Padding(n, 2));
    } else if w == 4 {
      PaddingUnique(n, 4, Padding(n, 4));
    } else {
      PaddingUnique(n, 8, Padding(n, 8));
    }
  }

  lemma TimesIsProduct(i: nat, w: Width)
    ensures Times(i, w) == i * w
  {
  }
}
