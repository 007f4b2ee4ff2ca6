/** Whole runs over the buffer that grows downward: whatever is done to it, and however often it is reallocated,
    it holds the two byte sequences that the builders work on. */
module MemoryRuns {
  import opened Bytes
  import opened Backward
  import opened VectorDownward

  /** What the builders do to their memory, `back` listing the data from its end. */
  datatype Op =
    | Push(bytes: seq<byte>)
    | Fill(count: nat)
    | Pop(count: nat)
    | Write(offset: nat, bytes: seq<byte>)
    | ScratchPush(bytes: seq<byte>)
    | ScratchPop(count: nat)
    | ClearScratch
    | Clear

  datatype Contents = Contents(back: seq<byte>, scratch: seq<byte>)

  predicate Can(c: Contents, op: Op) {
    match op
    case Push(_) => |c.back| < MAX_BUFFER_SIZE
    case Fill(_) => |c.back| < MAX_BUFFER_SIZE
    case Pop(n) => n <= |c.back|
    case Write(offset, bytes) => |bytes| <= offset <= |c.back|
    case ScratchPush(_) => |c.back| < MAX_BUFFER_SIZE
    case ScratchPop(n) => n <= |c.scratch|
    case ClearScratch => true
    case Clear => true
  }

  function Next(c: Contents, op: Op): Contents
    requires Can(c, op)
  {
    match op
    case Push(bytes) => c.(back := c.back + Reversed(bytes))
    case Fill(n) => c.(back := c.back + Zeros(n))
    case Pop(n) => c.(back := c.back[..|c.back| - n])
    case Write(offset, bytes) => c.(back := c.back[..offset - |bytes|] + Reversed(bytes) + c.back[offset..])
    case ScratchPush(bytes) => c.(scratch := c.scratch + bytes)
    case ScratchPop(n) => c.(scratch := c.scratch[..|c.scratch| - n])
    case ClearScratch => c.(scratch := [])
    case Clear => Contents([], [])
  }

  predicate CanRun(c: Contents, ops: seq<Op>)
    decreases |ops|
  {
    ops == [] || (Can(c, ops[0]) && CanRun(Next(c, ops[0]), ops[1..]))
  }

  function After(c: Contents, ops: seq<Op>): Contents
    requires CanRun(c, ops)
    decreases |ops|
  {
    if ops == [] then c else After(Next(c, ops[0]), ops[1..])
  }

  ghost function ContentsOf(v: VectorDownward): Contents
    reads v
  {
    Contents(v.back, v.scratch)
  }

  method Step(v: VectorDownward, op: Op)
    requires v.Valid() && Can(ContentsOf(v), op)
    modifies v, v.mem
    ensures v.Valid() && (v.mem == old(v.mem) || fresh(v.mem)) && ContentsOf(v) == old(Next(ContentsOf(v), op))
  {
    match op {
      case Push(bytes) => v.Push(bytes);
      case Fill(n) => v.Fill(n);
      case Pop(n) => v.Pop(n);
      case Write(offset, bytes) =>
        v.WriteAt(offset, bytes);
        Overwritten(old(v.back), v.back, offset, bytes);
      case ScratchPush(bytes) => v.ScratchPush(bytes);
      case ScratchPop(n) => v.ScratchPop(n);
      case ClearScratch => v.ClearScratch();
      case Clear => v.Clear();
    }
  }

  lemma Overwritten(a: seq<byte>, b: seq<byte>, offset: nat, bytes: seq<byte>)
    requires |bytes| <= offset <= |a| == |b|
    requires forall i :: 0 <= i < |bytes| ==> b[offset - 1 - i] == bytes[i]
    requires forall i :: 0 <= i < |b| && !(offset - |bytes| <= i < offset) ==> b[i] == a[i]
    ensures b == a[..offset - |bytes|] + Reversed(bytes) + a[offset..]
  {
    var c := a[..offset - |bytes|] + Reversed(bytes) + a[offset..];
    forall i | 0 <= i < |b| ensures b[i] == c[i] {
      if offset - |bytes| <= i < offset {
        assert b[offset - 1 - (offset - 1 - i)] == bytes[offset - 1 - i];
      }
    }
  }

  /** A whole run, from any initial size and alignment. */
  method Carry(initialSize: nat, alignment: Alignment, ops: seq<Op>) returns (v: VectorDownward)
    requires CanRun(Contents([], []), ops)
    ensures v.Valid() && ContentsOf(v) == After(Contents([], []), ops)
  {
    v := new VectorDownward(initialSize, alignment);
    for i := 0 to |ops|
      invariant v.Valid() && fresh(v) && fresh(v.mem) && CanRun(ContentsOf(v), ops[i..])
      invariant After(ContentsOf(v), ops[i..]) == After(Contents([], []), ops)
    {
      assert ops[i..][0] == ops[i] && ops[i..][1..] == ops[i + 1..];
      Step(v, ops[i]);
    }
  }
}
