/** UTF-8 as the library writes and reads it, against the grammar of section 4 of RFC 3629.  Bit
    operations are written as arithmetic; BitForms says that they are the same. */
module Utf8 {
  import opened Bytes

  // ----- The grammar -----

  predicate IsTail(b: byte) {
    0x80 <= b <= 0xBF
  }

  /** UTF8-char: UTF8-1 / UTF8-2 / UTF8-3 / UTF8-4. */
  predicate IsUtf8Char(s: seq<byte>) {
    || (|s| == 1 && s[0] <= 0x7F)
    || (|s| == 2 && 0xC2 <= s[0] <= 0xDF && IsTail(s[1]))
    || (|s| == 3 && IsTail(s[2]) &&
        (|| (s[0] == 0xE0 && 0xA0 <= s[1] <= 0xBF)
         || (0xE1 <= s[0] <= 0xEC && IsTail(s[1]))
         || (s[0] == 0xED && 0x80 <= s[1] <= 0x9F)
         || (0xEE <= s[0] <= 0xEF && IsTail(s[1]))))
    || (|s| == 4 && IsTail(s[2]) && IsTail(s[3]) &&
        (|| (s[0] == 0xF0 && 0x90 <= s[1] <= 0xBF)
         || (0xF1 <= s[0] <= 0xF3 && IsTail(s[1]))
         || (s[0] == 0xF4 && 0x80 <= s[1] <= 0x8F)))
  }

  /** What a byte holds besides the bits that mark its kind. */
  function Payload(b: byte, mark: nat): int {
    b as int - mark
  }

  /** The number a character stands for: section 3 of RFC 3629. */
  function Value(s: seq<byte>): nat
    requires IsUtf8Char(s)
  {
    if |s| == 1 then s[0]
    else if |s| == 2 then Payload(s[0], 0xC0) * 0x40 + Payload(s[1], 0x80)
    else if |s| == 3 then Payload(s[0], 0xE0) * 0x1000 + Payload(s[1], 0x80) * 0x40 + Payload(s[2], 0x80)
    else Payload(s[0], 0xF0) * 0x4_0000 + Payload(s[1], 0x80) * 0x1000 + Payload(s[2], 0x80) * 0x40 + Payload(s[3],
      0x80)
  }

  /** What UTF-8 can encode: all of Unicode but the surrogates. */
  predicate IsScalarValue(u: nat) {
    u <= 0x10FFFF && !(0xD800 <= u <= 0xDFFF)
  }

  /** The bytes of u, in one to six bytes: beyond four they are not UTF-8. */
  function Encode(u: nat): (s: seq<byte>)
    requires u < 0x8000_0000
    ensures 1 <= |s| <= 6
  {
    if u < 0x80 then [u]
    else if u < 0x800 then [0xC0 + u / 0x40, 0x80 + u % 0x40]
    else if u < 0x1_0000 then [0xE0 + u / 0x1000, 0x80 + u / 0x40 % 0x40, 0x80 + u % 0x40]
    else if u < 0x20_0000 then
      [0xF0 + u / 0x4_0000, 0x80 + u / 0x1000 % 0x40, 0x80 + u / 0x40 % 0x40, 0x80 + u % 0x40]
    else if u < 0x400_0000 then
      [0xF8 + u / 0x100_0000, 0x80 + u / 0x4_0000 % 0x40, 0x80 + u / 0x1000 % 0x40, 0x80 + u / 0x40 % 0x40,
       0x80 + u % 0x40]
    else
      [0xFC + u / 0x4000_0000, 0x80 + u / 0x100_0000 % 0x40, 0x80 + u / 0x4_0000 % 0x40, 0x80 + u / 0x1000 % 0x40,
       0x80 + u / 0x40 % 0x40, 0x80 + u % 0x40]
  }

  /** Encoding is the inverse of reading, on every character of the grammar. */
  lemma EncodeValue(s: seq<byte>)
    requires IsUtf8Char(s)
    ensures IsScalarValue(Value(s)) && Encode(Value(s)) == s
  {
    hide Encode;
    if |s| == 1 {
      EncodeSmall(s[0]);
    } else if |s| == 2 {
      EncodeTwo(Payload(s[0], 0xC0), Payload(s[1], 0x80));
    } else if |s| == 3 {
      EncodeThree(Payload(s[0], 0xE0), Payload(s[1], 0x80), Payload(s[2], 0x80));
    } else if |s| == 4 {
      EncodeFour(Payload(s[0], 0xF0), Payload(s[1], 0x80), Payload(s[2], 0x80), Payload(s[3], 0x80));
    }
  }

  lemma EncodeSmall(a: nat)
    requires a < 0x80
    ensures Encode(a) == [a]
  {
  }

  lemma EncodeTwo(a: nat, b: nat)
    requires 2 <= a < 0x20 && b < 0x40
    ensures Encode(a * 0x40 + b) == [0xC0 + a, 0x80 + b]
  {
    ModAddMultiple(a, b, 0x40);
  }

  lemma EncodeThree(a: nat, b: nat, c: nat)
    requires a < 0x10 && b < 0x40 && c < 0x40 && (a == 0 ==> b >= 0x20)
    ensures Encode(a * 0x1000 + b * 0x40 + c) == [0xE0 + a, 0x80 + b, 0x80 + c]
  {
    ModAddMultiple(a * 0x40 + b, c, 0x40);
    ModAddMultiple(a, b, 0x40);
    ModAddMultiple(a, b * 0x40 + c, 0x1000);
  }

  lemma EncodeFour(a: nat, b: nat, c: nat, d: nat)
    requires a < 8 && b < 0x40 && c < 0x40 && d < 0x40 && (a == 0 ==> b >= 0x10)
    ensures Encode(a * 0x4_0000 + b * 0x1000 + c * 0x40 + d) == [0xF0 + a, 0x80 + b, 0x80 + c, 0x80 + d]
  {
    ModAddMultiple(a * 0x1000 + b * 0x40 + c, d, 0x40);
    ModAddMultiple(a * 0x40 + b, c, 0x40);
    ModAddMultiple(a * 0x40 + b, c * 0x40 + d, 0x1000);
    ModAddMultiple(a, b, 0x40);
    ModAddMultiple(a, b * 0x1000 + c * 0x40 + d, 0x4_0000);
  }

  /** The examples of section 7 of RFC 3629, and the least numbers of five and of six bytes. */
  lemma Examples()
    ensures Encode(0x2262) == [0xE2, 0x89, 0xA2] && Encode(0x0391) == [0xCE, 0x91] && Encode(0x2E) == [0x2E]
    ensures Encode(0xD55C) == [0xED, 0x95, 0x9C] && Encode(0x65E5) == [0xE6, 0x97, 0xA5]
    ensures Encode(0x233B4) == [0xF0, 0xA3, 0x8E, 0xB4]
    ensures Encode(0x20_0000) == [0xF8, 0x88, 0x80, 0x80, 0x80]
    ensures Encode(0x400_0000) == [0xFC, 0x84, 0x80, 0x80, 0x80, 0x80]
  {
  }

  /** And reading of encoding, on exactly the scalar values: the encoding of any other number is not a
      character of the grammar. */
  lemma ValueEncode(u: nat)
    requires u < 0x8000_0000
    ensures IsUtf8Char(Encode(u)) <==> u <= 0x10FFFF && !(0xD800 <= u <= 0xDFFF)
    ensures IsScalarValue(u) ==> Value(Encode(u)) == u
  {
    if u < 0x80 {
    } else if u < 0x800 {
    } else if u < 0x1_0000 {
      ThreeBytesValue(u);
    } else if u < 0x20_0000 {
      FourBytesValue(u);
    }
  }

  lemma ThreeBytesValue(u: nat)
    requires 0x800 <= u < 0x1_0000
    ensures IsUtf8Char(Encode(u)) <==> !(0xD800 <= u <= 0xDFFF)
    ensures !(0xD800 <= u <= 0xDFFF) ==> Value(Encode(u)) == u
  {
    ThreeParts(u);
  }

  lemma FourBytesValue(u: nat)
    requires 0x1_0000 <= u < 0x20_0000
    ensures IsUtf8Char(Encode(u)) <==> u <= 0x10FFFF
    ensures u <= 0x10FFFF ==> Value(Encode(u)) == u
  {
    FourParts(u);
  }

  lemma ThreeParts(u: nat)
    ensures u == u / 0x1000 * 0x1000 + u / 0x40 % 0x40 * 0x40 + u % 0x40
  {
    assert u / 0x1000 == u / 0x40 / 0x40;
  }

  lemma FourParts(u: nat)
    ensures u == u / 0x4_0000 * 0x4_0000 + u / 0x1000 % 0x40 * 0x1000 + u / 0x40 % 0x40 * 0x40 + u % 0x40
  {
    ThreeParts(u);
    assert u / 0x4_0000 == u / 0x1000 / 0x40;
  }

  /** No character of the grammar is the start of another. */
  lemma PrefixFree(s: seq<byte>, t: seq<byte>)
    requires IsUtf8Char(s) && IsUtf8Char(t) && s <= t
    ensures s == t
  {
    assert s[0] == t[0];
    assert |s| == |t|;
  }

  // ----- Writing -----

  function Exp2(n: nat): (p: nat)
    ensures p > 0
  {
    if n == 0 then 1 else 2 * Exp2(n - 1)
  }

  /** The bytes after the first, most significant bits first. */
  function Continuation(u: nat, n: nat): (s: seq<byte>)
    ensures |s| == n
  {
    if n == 0 then [] else [0x80 + u / Exp2(6 * (n - 1)) % 0x40] + Continuation(u, n - 1)
  }

  /** Bits that i + 1 bytes can hold. */
  function MaxBits(i: nat): nat {
    6 + i * 5 + if i == 0 then 1 else 0
  }

  lemma Powers()
    ensures Exp2(0) == 1 && Exp2(1) == 2 && Exp2(2) == 4 && Exp2(3) == 8 && Exp2(4) == 16 && Exp2(5) == 32
    ensures Exp2(6) == 0x40 && Exp2(7) == 0x80 && Exp2(11) == 0x800 && Exp2(12) == 0x1000 && Exp2(16) == 0x1_0000
    ensures Exp2(18) == 0x4_0000 && Exp2(21) == 0x20_0000 && Exp2(24) == 0x100_0000 && Exp2(26) == 0x400_0000
    ensures Exp2(30) == 0x4000_0000 && Exp2(31) == 0x8000_0000
  {
    assert Exp2(4) == 16;
    assert Exp2(8) == 0x100;
    assert Exp2(12) == 0x1000;
    assert Exp2(16) == 0x1_0000;
    assert Exp2(20) == 0x10_0000;
    assert Exp2(24) == 0x100_0000;
    assert Exp2(28) == 0x1000_0000;
  }

  lemma Continuations(u: nat)
    ensures Continuation(u, 0) == []
    ensures Continuation(u, 1) == [0x80 + u % 0x40]
    ensures Continuation(u, 2) == [0x80 + u / 0x40 % 0x40] + Continuation(u, 1)
    ensures Continuation(u, 3) == [0x80 + u / 0x1000 % 0x40] + Continuation(u, 2)
    ensures Continuation(u, 4) == [0x80 + u / 0x4_0000 % 0x40] + Continuation(u, 3)
    ensures Continuation(u, 5) == [0x80 + u / 0x100_0000 % 0x40] + Continuation(u, 4)
  {
    hide Exp2;
    Powers();
    assert u / 1 == u;
  }

  /** The marks of a first byte. */
  function Lead(i: nat): nat
    requires i < 6
  {
    [0, 0xC0, 0xE0, 0xF0, 0xF8, 0xFC][i]
  }

  lemma LeadIs(i: nat)
    requires i < 6
    ensures 0xFE * Exp2(MaxBits(i) - 6 * i) % 0x100 == Lead(i)
  {
    hide Exp2;
    Powers();
    if i == 0 || i == 1 || i == 2 {
    } else {
      assert i == 3 || i == 4 || i == 5;
    }
  }

  /** The first number of bytes that is enough gives the encoding. */
  lemma EncodeForm(u: nat, i: nat)
    requires u < 0x8000_0000 && i < 6 && u < Exp2(MaxBits(i)) && (i > 0 ==> Exp2(MaxBits(i - 1)) <= u)
    ensures var lead := 0xFE * Exp2(MaxBits(i) - 6 * i) % 0x100 + u / Exp2(6 * i);
      lead < 0x100 && Encode(u) == [lead] + Continuation(u, i)
  {
    hide Exp2, Continuation;
    Powers();
    LeadIs(i);
    Continuations(u);
    assert u / 1 == u;
    if i == 0 {
    } else if i == 1 {
    } else if i == 2 {
    } else if i == 3 {
    } else if i == 4 {
    } else {
      assert i == 5;
    }
  }

  lemma NoMore(u: nat)
    ensures Continuation(u, 0) == []
  {
  }

  lemma OneMore(u: nat, n: nat)
    requires n > 0
    ensures Continuation(u, n) == [0x80 + u / Exp2((n - 1) * 6) % 0x40] + Continuation(u, n - 1)
  {
    assert (n - 1) * 6 == 6 * (n - 1);
  }

  lemma SixAreEnough(u: nat, i: nat)
    requires Exp2(MaxBits(i)) <= u < 0x8000_0000 && i < 6
    ensures i < 5
  {
    Powers();
  }

  /** Append the encoding of ucc, whose top bit must not be set. */
  method ToUTF8(ucc: nat, out: seq<byte>) returns (n: nat, text: seq<byte>)
    requires ucc < 0x8000_0000
    ensures text == out + Encode(ucc) && n == |Encode(ucc)|
  {
    hide Exp2, Encode, Continuation;
    var i := 0;
    while true
      invariant i < 6 && (i > 0 ==> Exp2(MaxBits(i - 1)) <= ucc)
      decreases 6 - i
    {
      var maxBits := MaxBits(i);
      if ucc < Exp2(maxBits) {
        EncodeForm(ucc, i);
        var remainBits := i * 6;
        NoMore(ucc);
        text := out + [0xFE * Exp2(maxBits - remainBits) % 0x100 + ucc / Exp2(remainBits)];
        for j := i downto 0
          invariant text + Continuation(ucc, j) == out + Encode(ucc)
        {
          OneMore(ucc, j + 1);
          text := text + [0x80 + ucc / Exp2(j * 6) % 0x40];
        }
        return i + 1, text;
      }
      SixAreEnough(ucc, i);
      i := i + 1;
    }
  }

  // ----- Reading -----

  predicate HasBit(b: byte, mask: nat)
    requires mask > 0
  {
    b / mask % 2 == 1
  }

  /** The bit that follows len leading ones. */
  function BitAfter(len: nat): nat
    requires len <= 6
  {
    [0x80, 0x40, 0x20, 0x10, 0x08, 0x04, 0x02][len]
  }

  /** A byte that starts with len ones starts with one more exactly if the next bit is set. */
  lemma NextBit(b: byte, len: nat)
    requires len <= 6 && b >= 0x100 - 2 * BitAfter(len)
    ensures HasBit(b, BitAfter(len)) <==> b >= 0x100 - BitAfter(len)
  {
    if len == 0 || len == 1 || len == 2 || len == 3 {
    } else {
      assert len == 4 || len == 5 || len == 6;
    }
  }

  /** The value of the bits read after n more bytes. */
  function Gathered(lead: nat, s: seq<byte>, at: nat, n: nat): nat
    requires at + n <= |s|
  {
    if n == 0 then lead else Gathered(lead, s, at, n - 1) * 0x40 + s[at + n - 1] % 0x40
  }

  /** The character at a position of a string that ends with a NUL: its value and the position after
      it, or -1 exactly if no character of the grammar starts there. */
  method FromUTF8(text: seq<byte>, at: nat) returns (ucc: int, next: nat)
    requires at < |text| && text[|text| - 1] == 0
    ensures ucc >= 0 ==> at < next <= |text| && IsUtf8Char(text[at..next]) && ucc == Value(text[at..next])
    ensures ucc < 0 ==> ucc == -1 && forall k :: at <= k <= |text| ==> !IsUtf8Char(text[at..k])
  {
    hide IsUtf8Char, Value, Gathered, Exp2, HasBit;
    var b := text[at];
    var len, mask := 0, 0x80;
    while mask >= 0x04
      invariant len <= 6 && mask == BitAfter(len) && b >= 0x100 - 2 * mask
      decreases mask
    {
      NextBit(b, len);
      if HasBit(b, mask) {
        len := len + 1;
      } else {
        break;
      }
      mask := mask / 2;
    }
    NextBit(b, len);
    next := at;
    FirstByte(text, at);
    if HasBit(b, BitAfter(len)) {
      return -1, next;
    }
    if len == 0 {
      return b, at + 1;
    }
    if len < 2 || len > 4 {
      return -1, next;
    }
    LeadBits(b, len);
    ucc := b % Exp2(7 - len);
    ghost var lead: nat := ucc;
    next := at + 1;
    NoneGathered(lead, text, next);
    for i := 0 to len - 1
      invariant next == at + 1 + i < |text| && ucc == Gathered(lead, text, at + 1, i)
      invariant forall k :: at < k < next ==> IsTail(text[k])
    {
      if !IsTail(text[next]) {
        NoCharacter(text, at, next, len);
        return -1, next;
      }
      OneGathered(lead, text, at + 1, i);
      ucc := ucc * 0x40 + text[next] % 0x40;
      next := next + 1;
    }
    Gather(text, at, len, lead);
    if 0xD800 <= ucc <= 0xDFFF {
      return -1, next;
    }
    if len == 2 {
      if ucc < 0x80 || ucc > 0x7FF {
        return -1, next;
      }
    } else if len == 3 {
      if ucc < 0x800 || ucc > 0xFFFF {
        return -1, next;
      }
    } else {
      if ucc < 0x1_0000 || ucc > 0x10FFFF {
        return -1, next;
      }
    }
  }

  /** The first byte of a character says how many bytes it has. */
  predicate Starts(b: byte, len: nat) {
    if len == 2 then 0xC0 <= b < 0xE0 else if len == 3 then 0xE0 <= b < 0xF0 else len == 4 && 0xF0 <= b < 0xF8
  }

  /** A character of one byte, or a byte that starts none. */
  lemma FirstByte(text: seq<byte>, at: nat)
    requires at < |text|
    ensures text[at] < 0x80 ==> IsUtf8Char(text[at..at + 1]) && Value(text[at..at + 1]) == text[at] as int
    ensures 0x80 <= text[at] < 0xC0 || 0xF8 <= text[at] ==>
      forall k :: at <= k <= |text| ==> !IsUtf8Char(text[at..k])
  {
    forall k | at <= k <= |text| && (0x80 <= text[at] < 0xC0 || 0xF8 <= text[at]) ensures !IsUtf8Char(text[at..k]) {
      if k > at {
        assert text[at..k][0] == text[at];
      }
    }
  }

  lemma NoneGathered(lead: nat, s: seq<byte>, at: nat)
    requires at <= |s|
    ensures Gathered(lead, s, at, 0) == lead
  {
  }

  lemma OneGathered(lead: nat, s: seq<byte>, at: nat, n: nat)
    requires at + n < |s|
    ensures Gathered(lead, s, at, n + 1) == Gathered(lead, s, at, n) * 0x40 + s[at + n] % 0x40
  {
  }

  lemma NoCharacter(text: seq<byte>, at: nat, bad: nat, len: nat)
    requires at < bad < |text| && Starts(text[at], len) && bad < at + len && !IsTail(text[bad])
    ensures forall k :: at <= k <= |text| ==> !IsUtf8Char(text[at..k])
  {
    forall k | at <= k <= |text| ensures !IsUtf8Char(text[at..k]) {
      var s := text[at..k];
      if |s| == len {
        assert s[bad - at] == text[bad];
      }
    }
  }

  function Mark(len: nat): nat {
    if len == 2 then 0xC0 else if len == 3 then 0xE0 else 0xF0
  }

  lemma LeadBits(b: byte, len: nat)
    requires Starts(b, len)
    ensures b % Exp2(7 - len) == Payload(b, Mark(len)) >= 0
  {
    Powers();
  }

  /** The characters that need len bytes. */
  predicate NeedsBytes(u: nat, len: nat) {
    if len == 2 then 0x80 <= u <= 0x7FF else if len == 3 then 0x800 <= u <= 0xFFFF else 0x1_0000 <= u <= 0x10FFFF
  }

  /** With as many continuation bytes as the first byte asks for, what has been read is a character
      exactly if its value is a scalar value that needs that many bytes. */
  lemma Gather(text: seq<byte>, at: nat, len: nat, lead: nat)
    requires at + len <= |text| && 2 <= len && Starts(text[at], len) && lead == Payload(text[at], Mark(len))
    requires forall k :: at < k < at + len ==> IsTail(text[k])
    ensures var u, s := Gathered(lead, text, at + 1, len - 1), text[at..at + len];
      && (IsUtf8Char(s) <==> IsScalarValue(u) && NeedsBytes(u, len))
      && (IsUtf8Char(s) ==> Value(s) == u)
      && (!IsUtf8Char(s) ==> forall k :: at <= k <= |text| ==> !IsUtf8Char(text[at..k]))
  {
    var s := text[at..at + len];
    GatheredIs(text, at, len, lead);
    forall k | at <= k <= |text| && !IsUtf8Char(s) ensures !IsUtf8Char(text[at..k]) {
      if k > at {
        assert text[at..k][0] == text[at];
      }
      if |text[at..k]| == len {
        assert k == at + len;
      }
    }
  }

  lemma GatheredIs(text: seq<byte>, at: nat, len: nat, lead: nat)
    requires at + len <= |text| && 2 <= len <= 4 && forall k :: at < k < at + len ==> IsTail(text[k])
    ensures var u, s := Gathered(lead, text, at + 1, len - 1), text[at..at + len];
      && (len == 2 ==> u == lead * 0x40 + Payload(s[1], 0x80))
      && (len == 3 ==> u == lead * 0x1000 + Payload(s[1], 0x80) * 0x40 + Payload(s[2], 0x80))
      && (len == 4 ==> u == lead * 0x4_0000 + Payload(s[1], 0x80) * 0x1000 + Payload(s[2], 0x80) * 0x40 + Payload(s[3],
        0x80))
  {
    var s := text[at..at + len];
    assert Gathered(lead, text, at + 1, 1) == lead * 0x40 + Payload(s[1], 0x80);
    if len >= 3 {
      assert Gathered(lead, text, at + 1, 2) == Gathered(lead, text, at + 1, 1) * 0x40 + Payload(s[2], 0x80);
    }
    if len == 4 {
      assert Gathered(lead, text, at + 1, 3) == Gathered(lead, text, at + 1, 2) * 0x40 + Payload(s[3], 0x80);
    }
  }

  // ----- Bit operations -----

  /** The masks and shifts of the original are the arithmetic above. */
  lemma BitForms(b: bv8, u: bv32, x: bv32)
    ensures (b & 0x80 != 0) == (b / 0x80 % 2 == 1) && (b & 0x40 != 0) == (b / 0x40 % 2 == 1)
    ensures (b & 0x20 != 0) == (b / 0x20 % 2 == 1) && (b & 0x10 != 0) == (b / 0x10 % 2 == 1)
    ensures (b & 0x08 != 0) == (b / 0x08 % 2 == 1) && (b & 0x04 != 0) == (b / 0x04 % 2 == 1)
    ensures (b & 0x3F) == b % 0x40 && (b & 0x1F) == b % 0x20 && (b & 0x0F) == b % 0x10 && (b & 0x07) == b % 0x08
    ensures ((b & 0xC0) == 0x80) == (0x80 <= b <= 0xBF) && ((b & 0x3F) | 0x80) == 0x80 + b % 0x40
    ensures u < 0x400_0000 && x < 0x40 ==> ((u << 6) | x) == u * 0x40 + x
    ensures x < 0x20 ==> (((0xFE << 5) | x) & 0xFF) == 0xC0 + x
    ensures x < 0x10 ==> (((0xFE << 4) | x) & 0xFF) == 0xE0 + x
    ensures x < 0x08 ==> (((0xFE << 3) | x) & 0xFF) == 0xF0 + x
    ensures x < 0x04 ==> (((0xFE << 2) | x) & 0xFF) == 0xF8 + x
    ensures x < 0x02 ==> (((0xFE << 1) | x) & 0xFF) == 0xFC + x
  {
  }
}
