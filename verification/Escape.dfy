/** Strings as JSON text: escaping, the strings of section 7 of RFC 8259, and reading back. */
module Escape {
  import opened Bytes
  import opened Utf8

  const QUOTE: byte := 0x22
  const BACKSLASH: byte := 0x5C
  const LOWER_U: byte := 0x75
  const LOWER_X: byte := 0x78

  // ----- Hexadecimal -----

  function HexDigit(d: nat): byte
    requires d < 16
  {
    if d < 10 then 0x30 + d else 0x41 + d - 10
  }

  /** HEXDIG, in either case. */
  predicate IsHexDigit(b: byte) {
    0x30 <= b <= 0x39 || 0x41 <= b <= 0x46 || 0x61 <= b <= 0x66
  }

  function DigitValue(b: byte): nat
    requires IsHexDigit(b)
  {
    if b <= 0x39 then b as int - 0x30 else if b <= 0x46 then b as int - 0x41 + 10 else b as int - 0x61 + 10
  }

  predicate IsHex(t: seq<byte>) {
    forall k :: 0 <= k < |t| ==> IsHexDigit(t[k])
  }

  function HexValue(t: seq<byte>): nat
    requires IsHex(t)
  {
    if t == [] then 0 else HexValue(t[..|t| - 1]) * 16 + DigitValue(t[|t| - 1])
  }

  function Exp16(n: nat): nat {
    if n == 0 then 1 else 16 * Exp16(n - 1)
  }

  /** Upper case, padded with zeros to xdigits; longer if the number needs more digits. */
  function IntToStringHex(i: nat, xdigits: nat): (t: seq<byte>)
    ensures IsHex(t) && forall k :: 0 <= k < |t| ==> 0x30 <= t[k] <= 0x39 || 0x41 <= t[k] <= 0x46
    decreases i, xdigits
  {
    if i < 16 && xdigits <= 1 then [HexDigit(i)]
    else IntToStringHex(i / 16, if xdigits == 0 then 0 else xdigits - 1) + [HexDigit(i % 16)]
  }

  /** The text has the value of the number, and has just the digits asked for exactly when they are
      enough. */
  lemma {:induction false} HexRoundTrip(i: nat, xdigits: nat)
    ensures HexValue(IntToStringHex(i, xdigits)) == i
    ensures |IntToStringHex(i, xdigits)| == xdigits <==> xdigits > 0 && i < Exp16(xdigits)
    ensures |IntToStringHex(i, xdigits)| >= xdigits
    decreases i, xdigits
  {
    var t := IntToStringHex(i, xdigits);
    if i < 16 && xdigits <= 1 {
      assert t[..0] == [] && HexValue([]) == 0;
      assert Exp16(1) == 16;
    } else {
      var rest := if xdigits == 0 then 0 else xdigits - 1;
      HexRoundTrip(i / 16, rest);
      assert t[..|t| - 1] == IntToStringHex(i / 16, rest);
      if xdigits > 0 {
        assert Exp16(xdigits) == 16 * Exp16(rest);
        if rest == 0 {
          assert Exp16(0) == 1;
        }
      }
    }
  }

  /** A number too large for the digits asked for: the text is longer. */
  lemma TooLargeForDigits()
    ensures |IntToStringHex(0x100, 2)| == 3
  {
    assert |IntToStringHex(1, 0)| == 1;
    assert |IntToStringHex(0x10, 1)| == 2;
  }

  /** The digits are those of ASCII, ten to fifteen in upper case. */
  lemma HexDigits(d: nat)
    requires d < 16
    ensures IntToStringHex(d, 0)
      == [[0x30, 0x31, 0x32, 0x33, 0x34, 0x35, 0x36, 0x37, 0x38, 0x39, 0x41, 0x42, 0x43, 0x44, 0x45, 0x46][d]]
  {
  }

  lemma FourDigits(u: nat)
    requires u <= 0xFFFF
    ensures |IntToStringHex(u, 4)| == 4 && HexValue(IntToStringHex(u, 4)) == u
  {
    HexRoundTrip(u, 4);
    assert Exp16(2) == 0x100 && Exp16(4) == 0x1_0000;
  }

  lemma TwoDigits(b: byte)
    ensures |IntToStringHex(b, 2)| == 2 && HexValue(IntToStringHex(b, 2)) == b
  {
    HexRoundTrip(b, 2);
    assert Exp16(2) == 0x100;
  }

  // ----- Characters of a string -----

  /** How many bytes the character at i has, or 0 if none of the grammar starts there. */
  function CharLength(s: seq<byte>, i: nat): (n: nat)
    requires i < |s|
    ensures n > 0 ==> i + n <= |s| && IsUtf8Char(s[i..i + n])
    ensures n == 0 ==> forall k :: i <= k <= |s| ==> !IsUtf8Char(s[i..k])
  {
    if IsUtf8Char(s[i..i + 1]) then 1
    else if i + 2 <= |s| && IsUtf8Char(s[i..i + 2]) then 2
    else if i + 3 <= |s| && IsUtf8Char(s[i..i + 3]) then 3
    else if i + 4 <= |s| && IsUtf8Char(s[i..i + 4]) then 4
    else 0
  }

  lemma CharLengthIs(s: seq<byte>, i: nat, n: nat)
    requires i + n <= |s| && IsUtf8Char(s[i..i + n])
    ensures CharLength(s, i) == n
  {
    assert CharLength(s, i) > 0;
    assert s[i..i + n][0] == s[i];
  }

  /** A NUL after the string is part of no character that starts in it. */
  lemma CharInTerminated(s: seq<byte>, i: nat, ucc: int, next: nat)
    requires i < |s|
    requires var text := s + [0];
      && (ucc >= 0 ==> i < next <= |text| && IsUtf8Char(text[i..next]) && ucc == Value(text[i..next]))
      && (ucc < 0 ==> forall k :: i <= k <= |text| ==> !IsUtf8Char(text[i..k]))
    ensures ucc < 0 <==> CharLength(s, i) == 0
    ensures ucc >= 0 ==> CharLength(s, i) == next - i && ucc == Value(s[i..next])
  {
    var text := s + [0];
    if ucc >= 0 {
      var c := text[i..next];
      assert c[|c| - 1] == text[next - 1];
      assert c == s[i..next];
      CharLengthIs(s, i, next - i);
    } else {
      var n := CharLength(s, i);
      assert text[i..i + n] == s[i..i + n];
    }
  }

  /** *UTF8-char, from i on. */
  predicate IsUtf8From(s: seq<byte>, i: nat)
    requires i <= |s|
    decreases |s| - i
  {
    i == |s| || (CharLength(s, i) > 0 && IsUtf8From(s, i + CharLength(s, i)))
  }

  // ----- Escaping -----

  /** The letter after the backslash, for the characters that have one. */
  function ShortEscape(c: byte): Option<byte> {
    match c
    case 0x0A => Some(0x6E)
    case 0x09 => Some(0x74)
    case 0x0D => Some(0x72)
    case 0x08 => Some(0x62)
    case 0x0C => Some(0x66)
    case 0x22 => Some(QUOTE)
    case 0x5C => Some(BACKSLASH)
    case _ => None
  }

  predicate IsPrintable(c: byte) {
    0x20 <= c <= 0x7E
  }

  function Unicode(u: nat): seq<byte> {
    [BACKSLASH, LOWER_U] + IntToStringHex(u, 4)
  }

  function HighSurrogate(u: nat): nat
    requires 0x1_0000 <= u
  {
    (u - 0x1_0000) / 0x400 + 0xD800
  }

  function LowSurrogate(u: nat): nat
    requires 0x1_0000 <= u
  {
    (u - 0x1_0000) % 0x400 + 0xDC00
  }

  /** What stands for some bytes of the string in the text. */
  datatype Piece = Piece(text: seq<byte>, length: nat)

  /** What is written for the character at i; nothing if it is not UTF-8 and that is not allowed. */
  function PieceAt(s: seq<byte>, i: nat, allowNonUtf8: bool, naturalUtf8: bool): (p: Option<Piece>)
    requires i < |s|
    ensures p.Some? ==> 1 <= p.value.length <= |s| - i
  {
    var c := s[i];
    if ShortEscape(c).Some? then Some(Piece([BACKSLASH, ShortEscape(c).value], 1))
    else if IsPrintable(c) then Some(Piece([c], 1))
    else
      var n := CharLength(s, i);
      if n == 0 then
        if allowNonUtf8 then Some(Piece([BACKSLASH, LOWER_X] + IntToStringHex(c, 2), 1)) else None
      else if naturalUtf8 then Some(Piece(s[i..i + n], n))
      else
        var u := Value(s[i..i + n]);
        Some(Piece(if u <= 0xFFFF then Unicode(u) else Unicode(HighSurrogate(u)) + Unicode(LowSurrogate(u)), n))
  }

  /** All that is written from i on, with the closing quotation mark. */
  function Escaped(s: seq<byte>, i: nat, allowNonUtf8: bool, naturalUtf8: bool): Option<seq<byte>>
    requires i <= |s|
    decreases |s| - i
  {
    if i == |s| then Some([QUOTE])
    else
      var p := PieceAt(s, i, allowNonUtf8, naturalUtf8);
      if p.None? then None
      else
        var rest := Escaped(s, i + p.value.length, allowNonUtf8, naturalUtf8);
        if rest.None? then None else Some(p.value.text + rest.value)
  }

  /** Append s as a JSON string.  Where it succeeds, the text reads back as s; it fails exactly if s
      is not UTF-8 and that is not allowed; and the text is a string of RFC 8259 exactly if s is UTF-8
      and, with natural output, has no control character without a short escape.  Natural output
      is s itself where no character has a short escape; any other output is printable ASCII. */
  method EscapeString(s: seq<byte>, out: seq<byte>, allowNonUtf8: bool, naturalUtf8: bool)
    returns (ok: bool, text: seq<byte>)
    requires |s| < U32
    ensures ok <==> allowNonUtf8 || IsUtf8From(s, 0)
    ensures ok ==> |out| < |text| && text[..|out|] == out && text[|out|] == QUOTE
    ensures ok ==> Escaped(s, 0, allowNonUtf8, naturalUtf8) == Some(text[|out| + 1..])
    ensures ok ==> Unescape(text[|out| + 1..]) == Some(s)
    ensures ok ==> (IsJsonRest(text[|out| + 1..]) <==> IsUtf8From(s, 0) && (naturalUtf8 ==> !HasRawControl(s, 0)))
    ensures naturalUtf8 && IsUtf8From(s, 0) && (forall k :: 0 <= k < |s| ==> IsPlain(s[k])) ==>
      ok && text == out + [0x22] + s + [0x22]
    ensures ok && !naturalUtf8 ==> forall k :: |out| <= k < |text| ==> 0x20 <= text[k] <= 0x7E
  {
    hide IsPlain, IsUtf8From, IsJsonRest, HasRawControl;
    ok, text := AppendEscaped(s, out, allowNonUtf8, naturalUtf8);
    WhenEscaped(s, 0, allowNonUtf8, naturalUtf8);
    if ok {
      ghost var e := Escaped(s, 0, allowNonUtf8, naturalUtf8).value;
      assert text[|out| + 1..] == e && text[..|out|] == out;
      UnescapeEscaped(s, 0, allowNonUtf8, naturalUtf8);
      assert s[0..] == s;
      JsonEscaped(s, 0, allowNonUtf8, naturalUtf8);
      if naturalUtf8 {
        if forall k :: 0 <= k < |s| ==> IsPlain(s[k]) {
          PlainEscaped(s, 0, allowNonUtf8);
        }
      } else {
        PrintableEscaped(s, 0, allowNonUtf8);
      }
    }
  }

  method AppendEscaped(s: seq<byte>, out: seq<byte>, allowNonUtf8: bool, naturalUtf8: bool)
    returns (ok: bool, text: seq<byte>)
    requires |s| < U32
    ensures ok <==> Escaped(s, 0, allowNonUtf8, naturalUtf8).Some?
    ensures ok ==> text == out + [QUOTE] + Escaped(s, 0, allowNonUtf8, naturalUtf8).value
  {
    hide PieceAt;
    ghost var all := Escaped(s, 0, allowNonUtf8, naturalUtf8);
    text := out + [QUOTE];
    var i := 0;
    while i < |s|
      invariant i <= |s| && all.Some? == Escaped(s, i, allowNonUtf8, naturalUtf8).Some?
      invariant all.Some? ==> out + [QUOTE] + all.value == text + Escaped(s, i, allowNonUtf8, naturalUtf8).value
    {
      var piece := EscapeOne(s, i, allowNonUtf8, naturalUtf8);
      if piece.None? {
        return false, text;
      }
      text := text + piece.value.text;
      i := i + piece.value.length;
    }
    text := text + [QUOTE];
    ok := true;
  }

  lemma UnicodeText(u: nat)
    ensures Unicode(u) == [BACKSLASH, LOWER_U] + IntToStringHex(u, 4)
  {
  }

  lemma Surrogates(u: nat)
    requires 0x1_0000 <= u <= 0x10FFFF
    ensures HighSurrogate(u) == (u - 0x1_0000) / 0x400 + 0xD800 && LowSurrogate(u) == (u - 0x1_0000) % 0x400 + 0xDC00
    ensures HighSurrogate(u) < 0xDC00 <= LowSurrogate(u) < 0xE000
  {
  }

  /** One round of the loop: what it appends and how far it moves. */
  method EscapeOne(s: seq<byte>, i: nat, allowNonUtf8: bool, naturalUtf8: bool) returns (piece: Option<Piece>)
    requires i < |s|
    ensures piece == PieceAt(s, i, allowNonUtf8, naturalUtf8)
  {
    hide IsUtf8Char, Value, Encode, IntToStringHex, CharLength, HighSurrogate, LowSurrogate, IsPrintable, Unicode;
    var c := s[i];
    match c
    case 0x0A => return Some(Piece([BACKSLASH, 0x6E], 1));
    case 0x09 => return Some(Piece([BACKSLASH, 0x74], 1));
    case 0x0D => return Some(Piece([BACKSLASH, 0x72], 1));
    case 0x08 => return Some(Piece([BACKSLASH, 0x62], 1));
    case 0x0C => return Some(Piece([BACKSLASH, 0x66], 1));
    case 0x22 => return Some(Piece([BACKSLASH, QUOTE], 1));
    case 0x5C => return Some(Piece([BACKSLASH, BACKSLASH], 1));
    case _ =>
      if IsPrintable(c) {
        return Some(Piece([c], 1));
      }
      var ucc, next := FromUTF8(s + [0], i);
      CharInTerminated(s, i, ucc, next);
      if ucc < 0 {
        if !allowNonUtf8 {
          return None;
        }
        return Some(Piece([BACKSLASH, LOWER_X] + IntToStringHex(c, 2), 1));
      } else if naturalUtf8 {
        return Some(Piece(s[i..next], next - i));
      } else if ucc <= 0xFFFF {
        UnicodeText(ucc);
        return Some(Piece([BACKSLASH, LOWER_U] + IntToStringHex(ucc, 4), next - i));
      } else {
        EncodeValue(s[i..next]);
        Surrogates(ucc);
        var base := ucc - 0x1_0000;
        var highSurrogate, lowSurrogate := base / 0x400 + 0xD800, base % 0x400 + 0xDC00;
        var high := [BACKSLASH, LOWER_U] + IntToStringHex(highSurrogate, 4);
        var low := [BACKSLASH, LOWER_U] + IntToStringHex(lowSurrogate, 4);
        UnicodeText(highSurrogate);
        UnicodeText(lowSurrogate);
        return Some(Piece(high + low, next - i));
      }
  }

  /** Escaping fails exactly where it meets what is not UTF-8 and must not write it. */
  lemma {:induction false} WhenEscaped(s: seq<byte>, i: nat, allowNonUtf8: bool, naturalUtf8: bool)
    requires i <= |s|
    ensures Escaped(s, i, allowNonUtf8, naturalUtf8).Some? <==> allowNonUtf8 || IsUtf8From(s, i)
    decreases |s| - i
  {
    hide PieceAt, CharLength, IsUtf8Char;
    if i < |s| {
      PieceLength(s, i, allowNonUtf8, naturalUtf8);
      var p := PieceAt(s, i, allowNonUtf8, naturalUtf8);
      if p.Some? {
        WhenEscaped(s, i + p.value.length, allowNonUtf8, naturalUtf8);
      }
    }
  }

  lemma PieceLength(s: seq<byte>, i: nat, allowNonUtf8: bool, naturalUtf8: bool)
    requires i < |s|
    ensures var p, n := PieceAt(s, i, allowNonUtf8, naturalUtf8), CharLength(s, i);
      && (p.Some? <==> allowNonUtf8 || n > 0)
      && (n > 0 ==> p.value.length == n)
  {
    OneByte(s, i);
  }

  /** Bytes below 0x80 are characters. */
  lemma OneByte(s: seq<byte>, i: nat)
    requires i < |s|
    ensures s[i] < 0x80 <==> CharLength(s, i) == 1
  {
    assert s[i..i + 1][0] == s[i];
  }

  // ----- What stands for what -----

  /** What is written for one character, case by case. */
  lemma PieceForms(s: seq<byte>, i: nat, allowNonUtf8: bool, naturalUtf8: bool)
    requires i < |s|
    ensures var c, n, p := s[i], CharLength(s, i), PieceAt(s, i, allowNonUtf8, naturalUtf8);
      if c == 0x0A then p == Some(Piece([0x5C, 0x6E], 1))
      else if c == 0x09 then p == Some(Piece([0x5C, 0x74], 1))
      else if c == 0x0D then p == Some(Piece([0x5C, 0x72], 1))
      else if c == 0x08 then p == Some(Piece([0x5C, 0x62], 1))
      else if c == 0x0C then p == Some(Piece([0x5C, 0x66], 1))
      else if c == 0x22 then p == Some(Piece([0x5C, 0x22], 1))
      else if c == 0x5C then p == Some(Piece([0x5C, 0x5C], 1))
      else if 0x20 <= c <= 0x7E then p == Some(Piece([c], 1))
      else if n == 0 then p == if allowNonUtf8 then Some(Piece([0x5C, 0x78] + IntToStringHex(c, 2), 1)) else None
      else if naturalUtf8 then p == Some(Piece(s[i..i + n], n))
      else
        var u := Value(s[i..i + n]);
        if u <= 0xFFFF then p == Some(Piece([0x5C, 0x75] + IntToStringHex(u, 4), n))
        else
          p == Some(Piece(([0x5C, 0x75] + IntToStringHex(0xD800 + (u - 0x1_0000) / 0x400, 4))
                        + ([0x5C, 0x75] + IntToStringHex(0xDC00 + (u - 0x1_0000) % 0x400, 4)), n))
  {
    hide IsUtf8Char, Value, Encode, IntToStringHex, CharLength;
  }

  /** No character with a short escape. */
  predicate IsPlain(c: byte) {
    c != 0x0A && c != 0x09 && c != 0x0D && c != 0x08 && c != 0x0C && c != 0x22 && c != 0x5C
  }

  lemma {:induction false} PlainEscaped(s: seq<byte>, i: nat, allowNonUtf8: bool)
    requires i <= |s| && forall k :: 0 <= k < |s| ==> IsPlain(s[k])
    ensures IsUtf8From(s, i) ==> Escaped(s, i, allowNonUtf8, true) == Some(s[i..] + [0x22])
    decreases |s| - i
  {
    hide PieceAt, CharLength, IsUtf8Char;
    if i == |s| {
      assert s[i..] + [0x22] == [0x22];
    } else if IsUtf8From(s, i) {
      var n := CharLength(s, i);
      PieceForms(s, i, allowNonUtf8, true);
      OneByte(s, i);
      PlainEscaped(s, i + n, allowNonUtf8);
      assert IsPlain(s[i]) && s[i..i + 1] == [s[i]];
      assert PieceAt(s, i, allowNonUtf8, true) == Some(Piece(s[i..i + n], n));
      assert s[i..i + n] + (s[i + n..] + [0x22]) == s[i..] + [0x22];
    }
  }

  lemma PrintablePiece(s: seq<byte>, i: nat, allowNonUtf8: bool)
    requires i < |s|
    ensures var p := PieceAt(s, i, allowNonUtf8, false);
      p.Some? ==> forall k :: 0 <= k < |p.value.text| ==> 0x20 <= p.value.text[k] <= 0x7E
  {
    hide PieceAt, CharLength, IsUtf8Char, Value, IntToStringHex;
    PieceForms(s, i, allowNonUtf8, false);
  }

  lemma {:induction false} PrintableEscaped(s: seq<byte>, i: nat, allowNonUtf8: bool)
    requires i <= |s|
    ensures var e := Escaped(s, i, allowNonUtf8, false);
      e.Some? ==> forall k :: 0 <= k < |e.value| ==> 0x20 <= e.value[k] <= 0x7E
    decreases |s| - i
  {
    hide PieceAt, CharLength, IsUtf8Char, Value, IntToStringHex;
    if i < |s| && Escaped(s, i, allowNonUtf8, false).Some? {
      PrintablePiece(s, i, allowNonUtf8);
      PrintableEscaped(s, i + PieceAt(s, i, allowNonUtf8, false).value.length, allowNonUtf8);
    }
  }

  /** Pieces do not look back. */
  lemma PieceShifted(a: seq<byte>, b: seq<byte>, i: nat, allowNonUtf8: bool, naturalUtf8: bool)
    requires i < |b|
    ensures PieceAt(a + b, |a| + i, allowNonUtf8, naturalUtf8) == PieceAt(b, i, allowNonUtf8, naturalUtf8)
  {
    hide IsUtf8Char, Value, IntToStringHex, CharLength;
    CharLengthShifted(a, b, i);
    var s, j, n := a + b, |a| + i, CharLength(b, i);
    assert s[j..j + n] == b[i..i + n];
  }

  lemma CharLengthShifted(a: seq<byte>, b: seq<byte>, i: nat)
    requires i < |b|
    ensures CharLength(a + b, |a| + i) == CharLength(b, i)
  {
    hide IsUtf8Char;
    var s, j := a + b, |a| + i;
    assert s[j..j + 1] == b[i..i + 1];
    assert i + 2 <= |b| ==> s[j..j + 2] == b[i..i + 2];
    assert i + 3 <= |b| ==> s[j..j + 3] == b[i..i + 3];
    assert i + 4 <= |b| ==> s[j..j + 4] == b[i..i + 4];
  }

  /** The pieces of a UTF-8 string do not depend on what follows it. */
  lemma PieceBefore(a: seq<byte>, b: seq<byte>, i: nat, allowNonUtf8: bool, naturalUtf8: bool)
    requires i < |a| && CharLength(a, i) > 0
    ensures PieceAt(a + b, i, allowNonUtf8, naturalUtf8) == PieceAt(a, i, allowNonUtf8, naturalUtf8)
  {
    hide IsUtf8Char, Value, IntToStringHex, CharLength;
    var n := CharLength(a, i);
    assert (a + b)[i..i + n] == a[i..i + n];
    CharLengthIs(a + b, i, n);
  }

  lemma {:induction false} EscapedShifted(a: seq<byte>, b: seq<byte>, i: nat, allowNonUtf8: bool, naturalUtf8: bool)
    requires i <= |b|
    ensures Escaped(a + b, |a| + i, allowNonUtf8, naturalUtf8) == Escaped(b, i, allowNonUtf8, naturalUtf8)
    decreases |b| - i
  {
    hide PieceAt;
    if i < |b| {
      PieceShifted(a, b, i, allowNonUtf8, naturalUtf8);
      var p := PieceAt(b, i, allowNonUtf8, naturalUtf8);
      if p.Some? {
        EscapedShifted(a, b, i + p.value.length, allowNonUtf8, naturalUtf8);
      }
    }
  }

  /** The text without the closing quotation mark. */
  function Open(t: seq<byte>): seq<byte> {
    if t == [] then [] else t[..|t| - 1]
  }

  lemma OpenNothing(y: Option<seq<byte>>)
    ensures y.Some? ==> Open([QUOTE]) + y.value == y.value
  {
  }

  lemma OpenAfter(p: seq<byte>, rest: seq<byte>, y: Option<seq<byte>>)
    requires |rest| > 0
    ensures y.Some? ==> p + (Open(rest) + y.value) == Open(p + rest) + y.value
  {
    assert Open(p + rest) == p + Open(rest);
    if y.Some? {
      assert p + (Open(rest) + y.value) == (p + Open(rest)) + y.value;
    }
  }

  /** Escaping takes a UTF-8 string and what follows it one after the other. */
  lemma {:induction false} EscapedConcat(a: seq<byte>, b: seq<byte>, i: nat, allowNonUtf8: bool, naturalUtf8: bool)
    requires i <= |a| && IsUtf8From(a, i)
    ensures var x, y := Escaped(a, i, allowNonUtf8, naturalUtf8), Escaped(b, 0, allowNonUtf8, naturalUtf8);
      && x.Some? && |x.value| > 0
      && Escaped(a + b, i, allowNonUtf8, naturalUtf8) == if y.None? then None else Some(Open(x.value) + y.value)
    decreases |a| - i
  {
    hide PieceAt, CharLength, Open;
    if i == |a| {
      EscapedShifted(a, b, 0, allowNonUtf8, naturalUtf8);
      assert Escaped(a, i, allowNonUtf8, naturalUtf8) == Some([QUOTE]);
      OpenNothing(Escaped(b, 0, allowNonUtf8, naturalUtf8));
    } else {
      PieceLength(a, i, allowNonUtf8, naturalUtf8);
      PieceBefore(a, b, i, allowNonUtf8, naturalUtf8);
      var p := PieceAt(a, i, allowNonUtf8, naturalUtf8).value;
      EscapedConcat(a, b, i + p.length, allowNonUtf8, naturalUtf8);
      OpenAfter(p.text, Escaped(a, i + p.length, allowNonUtf8, naturalUtf8).value,
                Escaped(b, 0, allowNonUtf8, naturalUtf8));
    }
  }

  /** Wherever it is, a character of more than one byte stands as itself exactly with natural output. */
  lemma CharacterStands(a: seq<byte>, ch: seq<byte>, b: seq<byte>, allowNonUtf8: bool, naturalUtf8: bool)
    requires IsUtf8From(a, 0) && IsUtf8Char(ch) && |ch| >= 2
    requires Escaped(b, 0, allowNonUtf8, naturalUtf8).Some?
    ensures var x, y := Escaped(a, 0, allowNonUtf8, naturalUtf8), Escaped(ch, 0, allowNonUtf8, naturalUtf8);
      && x.Some? && y.Some?
      && Escaped(a + (ch + b), 0, allowNonUtf8, naturalUtf8)
         == Some(Open(x.value) + (Open(y.value) + Escaped(b, 0, allowNonUtf8, naturalUtf8).value))
      && (Open(y.value) == ch <==> naturalUtf8)
  {
    hide PieceAt, CharLength, IsUtf8Char, Value, IntToStringHex;
    assert ch[0..0 + |ch|] == ch;
    CharLengthIs(ch, 0, |ch|);
    EscapedConcat(a, ch + b, 0, allowNonUtf8, naturalUtf8);
    EscapedConcat(ch, b, 0, allowNonUtf8, naturalUtf8);
    PieceForms(ch, 0, allowNonUtf8, naturalUtf8);
    OneByte(ch, 0);
    var p := PieceAt(ch, 0, allowNonUtf8, naturalUtf8).value;
    assert Escaped(ch, |ch|, allowNonUtf8, naturalUtf8) == Some([QUOTE]);
    assert Open(p.text + [QUOTE]) == p.text;
    if !naturalUtf8 {
      assert p.text[0] == BACKSLASH != ch[0];
    }
  }

  // ----- Reading back -----

  function UnescapeLetter(c: byte): Option<byte> {
    match c
    case 0x22 => Some(QUOTE)
    case 0x5C => Some(BACKSLASH)
    case 0x2F => Some(0x2F)
    case 0x62 => Some(0x08)
    case 0x66 => Some(0x0C)
    case 0x6E => Some(0x0A)
    case 0x72 => Some(0x0D)
    case 0x74 => Some(0x09)
    case _ => None
  }

  function Prepend(s: seq<byte>, t: Option<seq<byte>>): Option<seq<byte>> {
    if t.None? then None else Some(s + t.value)
  }

  /** \u and four digits. */
  predicate IsUnicode(t: seq<byte>) {
    |t| >= 6 && t[0] == BACKSLASH && t[1] == LOWER_U && IsHex(t[2..6])
  }

  /** What a string means, read from after its opening quotation mark: section 7 of RFC 8259, with
      \x and two digits for one byte, and with any byte but quotation mark and backslash for itself. */
  function Unescape(t: seq<byte>): Option<seq<byte>> {
    if t == [] then None
    else if t[0] == QUOTE then if |t| == 1 then Some([]) else None
    else if t[0] != BACKSLASH then Prepend([t[0]], Unescape(t[1..]))
    else if |t| == 1 then None
    else if t[1] == LOWER_X then
      if |t| >= 4 && IsHex(t[2..4]) && HexValue(t[2..4]) < 0x100 then Prepend([HexValue(t[2..4])], Unescape(t[4..]))
        else None
    else if t[1] == LOWER_U then
      if !IsUnicode(t) then None
      else
        var u := HexValue(t[2..6]);
        if 0xD800 <= u <= 0xDBFF then
          if IsUnicode(t[6..]) && 0xDC00 <= HexValue(t[6..][2..6]) <= 0xDFFF then
            Prepend(Encode(0x1_0000 + (u - 0xD800) * 0x400 + (HexValue(t[6..][2..6]) - 0xDC00)), Unescape(t[12..]))
          else None
        else if IsScalarValue(u) then Prepend(Encode(u), Unescape(t[6..]))
        else None
    else if UnescapeLetter(t[1]).Some? then Prepend([UnescapeLetter(t[1]).value], Unescape(t[2..]))
    else None
  }

  /** The escaped text means the string. */
  lemma {:induction false} UnescapeEscaped(s: seq<byte>, i: nat, allowNonUtf8: bool, naturalUtf8: bool)
    requires i <= |s|
    ensures var e := Escaped(s, i, allowNonUtf8, naturalUtf8);
      e.Some? ==> Unescape(e.value) == Some(s[i..])
    decreases |s| - i
  {
    hide PieceAt, Unescape;
    if i == |s| {
      UnescapeEnd();
      assert s[i..] == [];
    } else if Escaped(s, i, allowNonUtf8, naturalUtf8).Some? {
      var p := PieceAt(s, i, allowNonUtf8, naturalUtf8).value;
      var rest := Escaped(s, i + p.length, allowNonUtf8, naturalUtf8).value;
      UnescapeEscaped(s, i + p.length, allowNonUtf8, naturalUtf8);
      UnescapePiece(s, i, allowNonUtf8, naturalUtf8, p, rest);
      assert s[i..i + p.length] + s[i + p.length..] == s[i..];
    }
  }

  lemma UnescapeEnd()
    ensures Unescape([QUOTE]) == Some([])
  {
  }

  /** The bytes of a character of more than one byte are none of these. */
  lemma NotSpecial(ch: seq<byte>)
    requires IsUtf8Char(ch) && ch[0] != QUOTE && ch[0] != BACKSLASH
    ensures forall k :: 0 <= k < |ch| ==> ch[k] != QUOTE && ch[k] != BACKSLASH
    ensures forall k :: 0 < k < |ch| ==> ch[k] >= 0x80
  {
  }

  lemma {:induction false} UnescapePiece(s: seq<byte>, i: nat, allowNonUtf8: bool, naturalUtf8: bool, p: Piece,
                                         rest: seq<byte>)
    requires i < |s| && PieceAt(s, i, allowNonUtf8, naturalUtf8) == Some(p)
    ensures Unescape(p.text + rest) == Prepend(s[i..i + p.length], Unescape(rest))
  {
    hide Unescape, IsUtf8Char, Value, Encode, IntToStringHex, CharLength;
    var c, n := s[i], CharLength(s, i);
    if ShortEscape(c).Some? {
      UnescapeShort(c, rest);
      assert s[i..i + 1] == [c];
    } else if IsPrintable(c) {
      UnescapePlain(p.text, rest);
      assert s[i..i + 1] == [c];
    } else if n == 0 {
      UnescapeByte(c, rest);
      assert s[i..i + 1] == [c];
    } else {
      var ch := s[i..i + n];
      EncodeValue(ch);
      if naturalUtf8 {
        NotSpecial(ch);
        UnescapePlain(ch, rest);
      } else if Value(ch) <= 0xFFFF {
        UnescapeUnicode(Value(ch), rest);
      } else {
        UnescapeSurrogates(Value(ch), rest);
      }
    }
  }

  lemma {:induction false} UnescapeShort(c: byte, rest: seq<byte>)
    requires ShortEscape(c).Some?
    ensures Unescape([BACKSLASH, ShortEscape(c).value] + rest) == Prepend([c], Unescape(rest))
  {
    var t := [BACKSLASH, ShortEscape(c).value] + rest;
    assert t[2..] == rest;
  }

  lemma {:induction false} UnescapePlain(s: seq<byte>, rest: seq<byte>)
    requires forall k :: 0 <= k < |s| ==> s[k] != QUOTE && s[k] != BACKSLASH
    ensures Unescape(s + rest) == Prepend(s, Unescape(rest))
    decreases |s|
  {
    if s == [] {
      assert s + rest == rest;
      assert forall v: seq<byte> :: s + v == v;
    } else {
      var t := s + rest;
      assert t[1..] == s[1..] + rest;
      UnescapePlain(s[1..], rest);
      assert [s[0]] + s[1..] == s;
      if Unescape(rest).Some? {
        assert [s[0]] + (s[1..] + Unescape(rest).value) == s + Unescape(rest).value;
      }
    }
  }

  lemma {:induction false} UnescapeByte(c: byte, rest: seq<byte>)
    ensures Unescape([BACKSLASH, LOWER_X] + IntToStringHex(c, 2) + rest) == Prepend([c], Unescape(rest))
  {
    hide HexValue, IntToStringHex;
    var hex := IntToStringHex(c, 2);
    TwoDigits(c);
    var t := [BACKSLASH, LOWER_X] + hex + rest;
    assert t[2..4] == hex && t[4..] == rest;
  }

  lemma {:induction false} UnescapeUnicode(u: nat, rest: seq<byte>)
    requires u <= 0xFFFF && IsScalarValue(u)
    ensures Unescape(Unicode(u) + rest) == Prepend(Encode(u), Unescape(rest))
  {
    hide HexValue, IntToStringHex, Encode;
    var hex := IntToStringHex(u, 4);
    FourDigits(u);
    var t := Unicode(u) + rest;
    assert t[2..6] == hex && t[6..] == rest;
  }

  lemma {:induction false} UnescapeSurrogates(u: nat, rest: seq<byte>)
    requires 0xFFFF < u <= 0x10FFFF
    ensures Unescape(Unicode(HighSurrogate(u)) + Unicode(LowSurrogate(u)) + rest) == Prepend(Encode(u), Unescape(rest))
  {
    hide HexValue, IntToStringHex, Encode;
    var high, low := HighSurrogate(u), LowSurrogate(u);
    FourDigits(high);
    FourDigits(low);
    var t := Unicode(high) + Unicode(low) + rest;
    assert t[6..] == Unicode(low) + rest;
    assert t[2..6] == IntToStringHex(high, 4) && t[6..][2..6] == IntToStringHex(low, 4) && t[12..] == rest;
    assert 0x1_0000 + (high - 0xD800) * 0x400 + (low - 0xDC00) == u;
  }

  // ----- Strings of RFC 8259 -----

  /** *char quotation-mark, and no more: section 7, on the bytes of UTF-8. */
  predicate IsJsonRest(t: seq<byte>) {
    t != [] &&
    if t[0] == QUOTE then |t| == 1
    else if t[0] == BACKSLASH then
      if |t| >= 2 && t[1] == LOWER_U then |t| >= 6 && IsHex(t[2..6]) && IsJsonRest(t[6..])
      else |t| >= 2 && t[1] in {QUOTE, BACKSLASH, 0x2F, 0x62, 0x66, 0x6E, 0x72, 0x74} && IsJsonRest(t[2..])
    else t[0] >= 0x20 && CharLength(t, 0) > 0 && IsJsonRest(t[CharLength(t, 0)..])
  }

  /** A control character that natural output writes as it is. */
  predicate HasRawControl(s: seq<byte>, i: nat)
    requires i <= |s|
  {
    exists k :: i <= k < |s| && s[k] < 0x20 && ShortEscape(s[k]).None?
  }

  lemma {:induction false} JsonEscaped(s: seq<byte>, i: nat, allowNonUtf8: bool, naturalUtf8: bool)
    requires i <= |s|
    ensures var e := Escaped(s, i, allowNonUtf8, naturalUtf8);
      e.Some? ==> (IsJsonRest(e.value) <==> IsUtf8From(s, i) && (naturalUtf8 ==> !HasRawControl(s, i)))
    decreases |s| - i
  {
    hide PieceAt, CharLength, HasRawControl, IsRawControl, IsUtf8Char, IsJsonRest;
    if i == |s| {
      NoControl(s);
      JsonEnd();
    } else if Escaped(s, i, allowNonUtf8, naturalUtf8).Some? {
      var p := PieceAt(s, i, allowNonUtf8, naturalUtf8).value;
      var rest := Escaped(s, i + p.length, allowNonUtf8, naturalUtf8).value;
      JsonEscaped(s, i + p.length, allowNonUtf8, naturalUtf8);
      JsonPiece(s, i, allowNonUtf8, naturalUtf8, p, rest);
      NextControl(s, i, allowNonUtf8, naturalUtf8, p);
      PieceLength(s, i, allowNonUtf8, naturalUtf8);
    }
  }

  lemma JsonEnd()
    ensures IsJsonRest([QUOTE])
  {
  }

  lemma NoControl(s: seq<byte>)
    ensures !HasRawControl(s, |s|)
  {
  }

  predicate IsRawControl(c: byte) {
    c < 0x20 && ShortEscape(c).None?
  }

  lemma NextControl(s: seq<byte>, i: nat, allowNonUtf8: bool, naturalUtf8: bool, p: Piece)
    requires i < |s| && PieceAt(s, i, allowNonUtf8, naturalUtf8) == Some(p)
    ensures HasRawControl(s, i) <==> IsRawControl(s[i]) || HasRawControl(s, i + p.length)
  {
    if p.length > 1 {
      var ch := s[i..i + p.length];
      NotSpecial(ch);
      assert forall k :: i < k < i + p.length ==> s[k] == ch[k - i];
    }
  }

  lemma {:induction false} JsonPiece(s: seq<byte>, i: nat, allowNonUtf8: bool, naturalUtf8: bool, p: Piece,
                                     rest: seq<byte>)
    requires i < |s| && PieceAt(s, i, allowNonUtf8, naturalUtf8) == Some(p)
    ensures IsJsonRest(p.text + rest) <==>
      CharLength(s, i) > 0 && (naturalUtf8 ==> !IsRawControl(s[i])) && IsJsonRest(rest)
  {
    hide IsUtf8Char, Value, HexValue, IntToStringHex, CharLength, IsJsonRest, Unicode;
    OneByte(s, i);
    var c, n := s[i], CharLength(s, i);
    var t := p.text + rest;
    if ShortEscape(c).Some? {
      JsonShort(c, rest);
    } else if IsPrintable(c) {
      OneByteChar(c);
      JsonChar(p.text, rest);
    } else if n == 0 {
      JsonByte(c, rest);
    } else if naturalUtf8 {
      JsonChar(s[i..i + n], rest);
    } else {
      EncodeValue(s[i..i + n]);
      var u := Value(s[i..i + n]);
      if u <= 0xFFFF {
        JsonUnicode(u, rest);
      } else {
        JsonSurrogates(u, rest);
      }
    }
  }

  lemma OneByteChar(c: byte)
    ensures IsUtf8Char([c]) <==> c < 0x80
  {
  }

  lemma {:induction false} JsonShort(c: byte, rest: seq<byte>)
    requires ShortEscape(c).Some?
    ensures IsJsonRest([BACKSLASH, ShortEscape(c).value] + rest) <==> IsJsonRest(rest)
  {
    var t := [BACKSLASH, ShortEscape(c).value] + rest;
    assert t[2..] == rest;
  }

  /** The escape of a single byte is none of JSON's. */
  lemma {:induction false} JsonByte(c: byte, rest: seq<byte>)
    ensures !IsJsonRest([BACKSLASH, LOWER_X] + IntToStringHex(c, 2) + rest)
  {
    hide IntToStringHex;
    var t := [BACKSLASH, LOWER_X] + IntToStringHex(c, 2) + rest;
    assert t[0] == BACKSLASH && t[1] == LOWER_X;
  }

  lemma {:induction false} JsonChar(ch: seq<byte>, rest: seq<byte>)
    requires IsUtf8Char(ch) && ch[0] != QUOTE && ch[0] != BACKSLASH
    ensures IsJsonRest(ch + rest) <==> ch[0] >= 0x20 && IsJsonRest(rest)
  {
    var t := ch + rest;
    assert t[0..0 + |ch|] == ch;
    CharLengthIs(t, 0, |ch|);
    assert t[|ch|..] == rest;
  }

  lemma {:induction false} JsonUnicode(u: nat, rest: seq<byte>)
    requires u <= 0xFFFF
    ensures IsJsonRest(Unicode(u) + rest) <==> IsJsonRest(rest)
  {
    hide IntToStringHex;
    FourDigits(u);
    var t := Unicode(u) + rest;
    assert t[2..6] == IntToStringHex(u, 4) && t[6..] == rest;
  }

  lemma {:induction false} JsonSurrogates(u: nat, rest: seq<byte>)
    requires 0xFFFF < u <= 0x10FFFF
    ensures IsJsonRest(Unicode(HighSurrogate(u)) + Unicode(LowSurrogate(u)) + rest) <==> IsJsonRest(rest)
  {
    hide IsJsonRest, Unicode;
    var high, low := HighSurrogate(u), LowSurrogate(u);
    JsonUnicode(high, Unicode(low) + rest);
    JsonUnicode(low, rest);
    assert Unicode(high) + Unicode(low) + rest == Unicode(high) + (Unicode(low) + rest);
  }

  /** A control character without a short escape, with natural output: the text is written, and is not a
      string of RFC 8259. */
  lemma ControlIsNotJson(allowNonUtf8: bool)
    ensures Escaped([0x01], 0, allowNonUtf8, true) == Some([0x01, QUOTE]) && !IsJsonRest([0x01, QUOTE])
  {
    OneByte([0x01], 0);
    assert [0x01][0..1] == [0x01] && [0x01] + [QUOTE] == [0x01, QUOTE];
    assert HasRawControl([0x01], 0) by {
      assert [0x01][0] == 0x01;
    }
    JsonEscaped([0x01], 0, allowNonUtf8, true);
  }
}
