/** Byte strings counted from their end: back[i] is the byte i + 1 from the end, so that growing
    a buffer downwards appends to back. */
module Backward {
  import opened Bytes
  import opened Widths

  function Reversed(s: seq<byte>): (r: seq<byte>)
    ensures |r| == |s| && forall i :: 0 <= i < |s| ==> r[i] == s[|s| - 1 - i]
  {
    seq(|s|, i requires 0 <= i < |s| => s[|s| - 1 - i])
  }

  /** The bytes s start o from the end. */
  predicate HoldsBack(b: seq<byte>, o: nat, s: seq<byte>) {
    |s| <= o <= |b| && forall i :: o - |s| <= i < o ==> b[i] == s[o - 1 - i]
  }

  /** The scalar of w bytes that starts o from the end. */
  function ReadBack(b: seq<byte>, o: nat, w: nat): nat
    requires w <= o <= |b|
    decreases |b| + w
  {
    if w == 0 then 0 else b[o - 1] + 256 * ReadBack(b, o - 1, w - 1)
  }

  lemma {:induction false} ReadBackStored(b: seq<byte>, o: nat, w: nat, v: nat)
    requires v < Limit(w) && HoldsBack(b, o, LittleEndian(v, w))
    ensures ReadBack(b, o, w) == v
    decreases w
  {
    if w > 0 {
      LittleEndianStep(v, w);
      var rest := LittleEndian(v / 256, w - 1);
      assert forall i :: o - w <= i < o - 1 ==> b[i] == LittleEndian(v, w)[o - 1 - i] == rest[o - 2 - i];
      ReadBackStored(b, o - 1, w - 1, v / 256);
    }
  }

  lemma ScalarReadsBackwards(b: seq<byte>, o: nat, w: Width, v: nat)
    requires v < Capacity(w) && HoldsBack(b, o, LittleEndian(v, w))
    ensures ReadBack(b, o, w) == v
  {
    CapacityIsLimit(w);
    ReadBackStored(b, o, w, v);
  }

  lemma {:induction false} ReadBackSame(a: seq<byte>, o: nat, b: seq<byte>, p: nat, w: nat)
    requires w <= o <= |a| && w <= p <= |b| && forall i :: o - w <= i < o ==> a[i] == b[i - o + p]
    ensures ReadBack(a, o, w) == ReadBack(b, p, w)
    decreases w
  {
    if w > 0 {
      ReadBackSame(a, o - 1, b, p - 1, w - 1);
    }
  }

  lemma ReadBackGrows(a: seq<byte>, b: seq<byte>, o: nat, w: nat)
    requires a <= b && w <= o <= |a|
    ensures ReadBack(b, o, w) == ReadBack(a, o, w)
  {
    ReadBackSame(a, o, b, o, w);
  }

  lemma {:induction false} ReadBackBound(b: seq<byte>, o: nat, w: nat)
    requires w <= o <= |b|
    ensures ReadBack(b, o, w) < Limit(w)
    decreases w
  {
    if w > 0 {
      ReadBackBound(b, o - 1, w - 1);
    }
  }

  /** Distances from the end become positions in the finished buffer. */
  lemma {:induction false} ReadForward(back: seq<byte>, buf: seq<byte>, o: nat, w: nat)
    requires buf == Reversed(back) && w <= o <= |back|
    ensures ReadUnsigned(buf, |buf| - o, w) == ReadBack(back, o, w)
    decreases w
  {
    if w > 0 {
      ReadForward(back, buf, o - 1, w - 1);
    }
  }
}
