/** Finding the start of a buffer from its root table. */
module FlatRoot {
  import opened Bytes
  import opened Backward
  import opened VectorDownward
  import opened FlatFormat
  import opened FlatState

  /** FLATBUFFERS_MAX_ALIGNMENT */
  const MAX_ALIGNMENT: nat := 32

  lemma ZeroWord(buf: seq<byte>, at: nat)
    requires at + 4 <= |buf| && forall i :: at <= i < at + 4 ==> buf[i] == 0
    ensures ReadU32(buf, at) == 0
  {
    assert buf[at] == buf[at + 1] == buf[at + 2] == buf[at + 3] == 0;
    assert ReadUnsigned(buf, at + 2, 2) == buf[at + 2] + 256 * ReadUnsigned(buf, at + 3, 1);
    assert ReadUnsigned(buf, at + 3, 1) == buf[at + 3] + 256 * ReadUnsigned(buf, at + 4, 0);
    assert ReadUnsigned(buf, at + 1, 3) == buf[at + 1] + 256 * ReadUnsigned(buf, at + 2, 2);
  }

  /** Four characters read as a number too large to be taken for a nearby root. */
  lemma CharactersWord(buf: seq<byte>, at: nat)
    requires at + 4 <= |buf| && buf[at + 3] != 0
    ensures ReadU32(buf, at) >= 0x100_0000
  {
    assert ReadUnsigned(buf, at + 3, 1) == buf[at + 3] + 256 * ReadUnsigned(buf, at + 4, 0);
    assert ReadUnsigned(buf, at + 2, 2) == buf[at + 2] + 256 * ReadUnsigned(buf, at + 3, 1);
    assert ReadUnsigned(buf, at + 1, 3) == buf[at + 1] + 256 * ReadUnsigned(buf, at + 2, 2);
  }

  /** back is the data a finished with the table at o, built last, as its root. */
  ghost predicate FinishedLast(a: seq<byte>, back: seq<byte>, minalign: Alignment, o: nat, id: Option<seq<byte>>,
                               sizePrefix: bool) {
    && 4 <= minalign && IsFinished(a, back, minalign, o, id, sizePrefix) && BuiltLast(a, o)
    && (id.Some? ==> 0 !in id.value)
  }

  /** Where the root table and its vtable begin, rounded down to a word. */
  function FirstStart(buf: seq<byte>, root: nat): int
    requires root + 4 <= |buf|
  {
    var vtable := GetVTable(buf, root);
    var start := if vtable < root then vtable else root;
    start - start % 4
  }

  /** It lies a whole number of words, at most nine, after the root offset. */
  lemma StartOfTable(a: seq<byte>, back: seq<byte>, minalign: Alignment, o: nat, id: Option<seq<byte>>,
                     sizePrefix: bool, buf: seq<byte>)
    returns (words: nat)
    requires FinishedLast(a, back, minalign, o, id, sizePrefix) && buf == Reversed(back)
    ensures 4 <= o && o + 4 <= |buf| && |buf| - |a| - 3 <= FirstStart(buf, |buf| - o) <= |buf| - |a|
    ensures FirstStart(buf, |buf| - o) == RootPosition(sizePrefix) + 4 * words && 1 <= words <= 9
  {
    ReadBackGrows(a, back, o, 4);
    ReadForward(back, buf, o, 4);
    FourAligned(|back|, minalign);
    words := (FirstStart(buf, |buf| - o) - RootPosition(sizePrefix)) / 4;
  }

  function RootPosition(sizePrefix: bool): nat {
    if sizePrefix then 4 else 0
  }

  /** A word between the root offset and the root table does not lead to the root. */
  lemma NoImpersonation(a: seq<byte>, back: seq<byte>, minalign: Alignment, o: nat, id: Option<seq<byte>>,
                        sizePrefix: bool, buf: seq<byte>, words: nat)
    requires FinishedLast(a, back, minalign, o, id, sizePrefix) && buf == Reversed(back)
    requires 1 <= words && RootPosition(sizePrefix) + 4 * words + 4 <= |buf| - |a|
    ensures var start := RootPosition(sizePrefix) + 4 * words; start + 4 <= |buf| && Follow(buf, start) != |buf| - o
  {
    var r := RootPosition(sizePrefix);
    var start := r + 4 * words;
    FourAligned(|back|, minalign);
    if id.Some? && start == r + 4 {
      assert buf[start + 3] == back[|back| - 1 - (start + 3)] == id.value[3];
      CharactersWord(buf, start);
    } else {
      forall i | start <= i < start + 4 ensures buf[i] == 0 {
        assert buf[i] == back[|back| - 1 - i];
      }
      ZeroWord(buf, start);
    }
  }

  /** Nine words before the root table and its vtable always suffice: one of them is the root
      offset, and it is found.  The buffer begins at a multiple of four in memory. */
  method GetBufferStartFromRootPointer(buf: seq<byte>, root: nat,
                                       ghost a: seq<byte>, ghost back: seq<byte>, ghost minalign: Alignment,
                                       ghost id: Option<seq<byte>>, ghost sizePrefix: bool) returns (found: nat)
    requires root <= |buf| && FinishedLast(a, back, minalign, |buf| - root, id, sizePrefix) && buf == Reversed(back)
    ensures found == RootPosition(sizePrefix) && found + 4 <= |buf| && GetRoot(buf, found) == root
  {
    hide FinishedLast, FirstStart;
    ghost var words := StartOfTable(a, back, minalign, |buf| - root, id, sizePrefix, buf);
    var start := FirstStart(buf, root);
    RootFound(a, back, minalign, |buf| - root, id, sizePrefix, buf);
    var possibleRoots := MAX_ALIGNMENT / 4 + 1;
    while possibleRoots > 0
      invariant 0 <= possibleRoots && 1 <= words <= possibleRoots
      invariant start == RootPosition(sizePrefix) + 4 * words <= |buf| - |a|
    {
      start := start - 4;
      words := words - 1;
      if words > 0 {
        NoImpersonation(a, back, minalign, |buf| - root, id, sizePrefix, buf, words);
      }
      if ReadU32(buf, start) + start == root {
        return start;
      }
      possibleRoots := possibleRoots - 1;
    }
    assert false;
  }

  lemma RootFound(a: seq<byte>, back: seq<byte>, minalign: Alignment, o: nat, id: Option<seq<byte>>, sizePrefix: bool,
                  buf: seq<byte>)
    requires FinishedLast(a, back, minalign, o, id, sizePrefix) && buf == Reversed(back)
    ensures RootPosition(sizePrefix) + 4 <= |buf| && GetRoot(buf, RootPosition(sizePrefix)) == |buf| - o
  {
    ReadForward(back, buf, RootAt(back, sizePrefix), 4);
  }
}
