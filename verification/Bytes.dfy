/** Byte strings, little-endian scalars and alignment padding: what every other module reads and
    writes with.  Little-endian machines only. */
module Bytes {

  type byte = b: int | 0 <= b < 256

  datatype Option<+T> = None | Some(value: T)

  function Max(a: nat, b: nat): nat {
    if a < b then b else a
  }

  const U32: nat := 0x1_0000_0000
  const U64: nat := 0x1_0000_0000_0000_0000

  /** 256 to the power w: how many values w bytes can hold. */
  function Limit(w: nat): (limit: nat)
    ensures limit > 0
  {
    if w == 0 then 1 else 256 * Limit(w - 1)
  }

  lemma LimitValues()
    ensures Limit(1) == 0x100
    ensures Limit(2) == 0x1_0000
    ensures Limit(4) == U32
    ensures Limit(8) == U64
  {
    assert Limit(2) == 256 * Limit(1);
    assert Limit(3) == 256 * Limit(2);
    assert Limit(4) == 256 * Limit(3);
    assert Limit(5) == 256 * Limit(4);
    assert Limit(6) == 256 * Limit(5);
    assert Limit(7) == 256 * Limit(6);
  }

  /** Byte number i of v, least significant first. */
  function Digit(v: nat, i: nat): byte {
    if i == 0 then v % 256 else Digit(v / 256, i - 1)
  }

  /** The low w bytes of v, least significant first. */
  function LittleEndian(v: nat, w: nat): (s: seq<byte>)
    ensures |s| == w
  {
    seq(w, i requires 0 <= i < w => Digit(v, i))
  }

  lemma LittleEndianStep(v: nat, w: nat)
    requires w > 0
    ensures LittleEndian(v, w) == [v % 256] + LittleEndian(v / 256, w - 1)
  {
  }

  /** Scalars written narrow keep exactly the low bytes of a wide one: adding a multiple of
      256^w changes nothing. */
  lemma {:induction false} LittleEndianNarrow(r: nat, q: nat, w: nat)
    ensures LittleEndian(q * Limit(w) + r, w) == LittleEndian(r, w)
  {
    if w > 0 {
      var t := q * Limit(w - 1);
      assert q * Limit(w) == 256 * t by {
        MulAssoc(q, 256, Limit(w - 1));
      }
      assert (256 * t + r) / 256 == t + r / 256 && (256 * t + r) % 256 == r % 256;
      LittleEndianStep(q * Limit(w) + r, w);
      LittleEndianStep(r, w);
      LittleEndianNarrow(r / 256, q, w - 1);
    }
  }

  lemma MulAssoc(a: int, b: int, c: int)
    ensures a * (b * c) == b * (a * c)
  {
  }

  lemma MultipleAtLeast(k: int, m: nat)
    requires k >= 1
    ensures k * m >= m
  {
    assert k * m == m + (k - 1) * m;
  }

  /** Quotient and remainder are unique. */
  lemma ModAddMultiple(q: nat, r: nat, m: nat)
    requires r < m
    ensures (q * m + r) % m == r && (q * m + r) / m == q
  {
    var x := q * m + r;
    var q', r' := x / m, x % m;
    assert x == q' * m + r';
    assert (q - q') * m == q * m - q' * m == r' - r;
    assert (q' - q) * m == r - r';
    if q' < q {
      MultipleAtLeast(q - q', m);
    } else if q' > q {
      MultipleAtLeast(q' - q, m);
    }
  }

  /** Two's complement value of an unsigned w-byte scalar. */
  function Signed(v: nat, w: nat): int {
    if 2 * v < Limit(w) then v else v - Limit(w)
  }

  /** `static_cast<uint64_t>` of an int64_t. */
  function ToUint64(i: int): (u: nat)
    requires -0x8000_0000_0000_0000 <= i < 0x8000_0000_0000_0000
    ensures u < U64 && (u == i || u == i + 0x1_0000_0000_0000_0000)
  {
    if i < 0 then i + U64 else i
  }

  /** buf holds the bytes s at position at. */
  predicate BytesAt(buf: seq<byte>, at: nat, s: seq<byte>) {
    at + |s| <= |buf| && forall j :: at <= j < at + |s| ==> buf[j] == s[j - at]
  }

  /** The unsigned little-endian scalar of w bytes at position at. */
  /** n bytes at p are inside buf, and are not all of it. */
  predicate Inside(buf: seq<byte>, p: nat, n: nat) {
    p + n <= |buf| && n < |buf|
  }

  function ReadUnsigned(buf: seq<byte>, at: nat, w: nat): nat
    requires at + w <= |buf|
    decreases |buf| - at
  {
    if w == 0 then 0 else buf[at] + 256 * ReadUnsigned(buf, at + 1, w - 1)
  }

  /** The value of two bytes, the low one first. */
  function Bytes2(a: nat, b: nat): nat {
    a + 0x100 * b
  }

  function Bytes4(a: nat, b: nat, c: nat, d: nat): nat {
    a + 0x100 * b + 0x1_0000 * c + 0x100_0000 * d
  }

  lemma TwoBytes(buf: seq<byte>, at: nat)
    requires at + 2 <= |buf|
    ensures ReadUnsigned(buf, at, 2) == Bytes2(buf[at], buf[at + 1])
  {
    assert ReadUnsigned(buf, at, 2) == buf[at] + 256 * ReadUnsigned(buf, at + 1, 1);
    assert ReadUnsigned(buf, at + 1, 1) == buf[at + 1] + 256 * ReadUnsigned(buf, at + 2, 0);
  }

  lemma FourBytes(buf: seq<byte>, at: nat)
    requires at + 4 <= |buf|
    ensures ReadUnsigned(buf, at, 4) == Bytes4(buf[at], buf[at + 1], buf[at + 2], buf[at + 3])
  {
    TwoBytes(buf, at + 2);
    assert ReadUnsigned(buf, at, 4) == buf[at] + 256 * ReadUnsigned(buf, at + 1, 3);
    assert ReadUnsigned(buf, at + 1, 3) == buf[at + 1] + 256 * ReadUnsigned(buf, at + 2, 2);
  }

  lemma {:induction false} ReadBound(buf: seq<byte>, at: nat, w: nat)
    requires at + w <= |buf|
    ensures ReadUnsigned(buf, at, w) < Limit(w)
    decreases w
  {
    if w > 0 {
      ReadBound(buf, at + 1, w - 1);
    }
  }

  /** A scalar that fits its width reads back as written. */
  lemma {:induction false} StoredReadsBack(buf: seq<byte>, at: nat, w: nat, v: nat)
    requires v < Limit(w) && BytesAt(buf, at, LittleEndian(v, w))
    ensures ReadUnsigned(buf, at, w) == v
    decreases w
  {
    if w > 0 {
      LittleEndianStep(v, w);
      StoredReadsBack(buf, at + 1, w - 1, v / 256);
    }
  }

  /** What is read is what was written: the bytes of a scalar are the digits of its value. */
  lemma {:induction false} ReadIsStored(buf: seq<byte>, at: nat, w: nat)
    requires at + w <= |buf|
    ensures BytesAt(buf, at, LittleEndian(ReadUnsigned(buf, at, w), w))
    decreases w
  {
    if w > 0 {
      var high := ReadUnsigned(buf, at + 1, w - 1);
      var v := buf[at] + 256 * high;
      assert v / 256 == high && v % 256 == buf[at];
      LittleEndianStep(v, w);
      ReadIsStored(buf, at + 1, w - 1);
    }
  }

  /** Two buffers with the same bytes at two places hold the same scalar there. */
  lemma {:induction false} ReadSame(a: seq<byte>, i: nat, b: seq<byte>, j: nat, w: nat)
    requires i + w <= |a| && j + w <= |b|
    requires forall k :: i <= k < i + w ==> a[k] == b[k - i + j]
    ensures ReadUnsigned(a, i, w) == ReadUnsigned(b, j, w)
    decreases w
  {
    if w > 0 {
      ReadSame(a, i + 1, b, j + 1, w - 1);
    }
  }

  /** Growing a buffer at its end changes no scalar in it. */
  lemma ReadInPrefix(a: seq<byte>, b: seq<byte>, at: nat, w: nat)
    requires a <= b && at + w <= |a|
    ensures ReadUnsigned(b, at, w) == ReadUnsigned(a, at, w)
  {
    ReadSame(a, at, b, at, w);
  }

  function Zeros(n: nat): (s: seq<byte>)
    ensures |s| == n
  {
    seq(n, _ => 0)
  }

  /** Bytes to add to a buffer of n bytes so that an a-byte scalar is aligned.  The original
      computes `((~n) + 1) & (a - 1)`; see PaddingMask. */
  function PaddingBytes(n: nat, a: nat): (p: nat)
    requires a > 0
    ensures p < a && (n + p) % a == 0
  {
    var r := n % a;
    ModAddMultiple(n / a, r, a);
    if r == 0 then 0 else (
      assert n + (a - r) == (n / a + 1) * a + 0;
      ModAddMultiple(n / a + 1, 0, a);
      a - r
    )
  }

  lemma PaddingUnique(n: nat, a: nat, p: nat)
    requires a > 0 && p < a && (n + p) % a == 0
    ensures PaddingBytes(n, a) == p
  {
    var q := PaddingBytes(n, a);
    var x, y := (n + p) / a, (n + q) / a;
    assert n + p == x * a && n + q == y * a;
    assert (x - y) * a == p - q && (y - x) * a == q - p;
    if x < y {
      MultipleAtLeast(y - x, a);
    } else if y < x {
      MultipleAtLeast(x - y, a);
    }
  }

  /** The bit form used by the original, on 64-bit words, meets the specification that
      PaddingUnique shows to have one solution. */
  lemma PaddingMask(n: bv64, a: bv64)
    requires a == 1 || a == 2 || a == 4 || a == 8 || a == 16 || a == 32
    ensures var p := (!n + 1) & (a - 1); p < a && (n + p) & (a - 1) == 0
  {
  }

  /** a divides b, and what a multiple of b is aligned to. */
  lemma AlignedDown(n: nat, a: nat, b: nat)
    requires a > 0 && b > 0 && n % b == 0 && b % a == 0
    ensures n % a == 0
  {
    var q, k := n / b, b / a;
    assert n == q * b && b == k * a;
    assert q * (k * a) == (q * k) * a;
    ModAddMultiple(q * k, 0, a);
  }

  lemma AlignedDifference(m: nat, n: nat, a: nat)
    requires a > 0 && m >= n && m % a == 0 && n % a == 0
    ensures (m - n) % a == 0
  {
    var x, y := m / a, n / a;
    assert m == x * a && n == y * a;
    assert (x - y) * a == m - n && (y - x) * a == n - m;
    if x < y {
      MultipleAtLeast(y - x, a);
      assert false;
    }
    ModAddMultiple(x - y, 0, a);
  }
}
