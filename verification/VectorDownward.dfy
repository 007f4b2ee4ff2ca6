/** A byte buffer used from both ends: data grows down from the end, and the free space at the
    front doubles as a scratch stack.  It behaves as two independent byte sequences. */
module VectorDownward {
  import opened Bytes
  import opened Widths
  import opened Backward

  /** FLATBUFFERS_MAX_BUFFER_SIZE */
  const MAX_BUFFER_SIZE: nat := 0x7FFF_FFFF

  /** What a buffer can be aligned to: FLATBUFFERS_MAX_ALIGNMENT is 32. */
  type Alignment = a: int | a == 1 || a == 2 || a == 4 || a == 8 || a == 16 || a == 32 witness 1

  /** `(n + a - 1) & ~(a - 1)`; see RoundUpMask. */
  function RoundUp(n: nat, a: Alignment): (r: nat)
    ensures n <= r && r % a == 0
  {
    n + PaddingBytes(n, a)
  }

  lemma RoundUpMask(n: bv64, a: bv64)
    requires a == 1 || a == 2 || a == 4 || a == 8 || a == 16 || a == 32
    requires n <= 0xFFFF_FFFF_FFFF_FF00
    ensures var r := (n + a - 1) & !(a - 1); n <= r < n + a && r & (a - 1) == 0
  {
  }

  class VectorDownward {
    const initialSize: nat
    const bufferMinalign: Alignment
    /** The reserved memory, empty until the first allocation. */
    var mem: array<byte>
    /** Between the empty part below and the used part above. */
    var cur: nat
    var scratchEnd: nat
    var size: nat

    /** back[i] is the byte i + 1 from the end. */
    ghost var back: seq<byte>
    ghost var scratch: seq<byte>

    ghost predicate Valid()
      reads this, mem
    {
      && scratchEnd <= cur <= mem.Length && size == mem.Length - cur
      && |back| == size && |scratch| == scratchEnd
      && (forall i :: 0 <= i < size ==> back[i] == mem[mem.Length - 1 - i])
      && (forall i :: 0 <= i < scratchEnd ==> scratch[i] == mem[i])
    }

    constructor (initialSize: nat, bufferMinalign: Alignment)
      ensures Valid() && fresh(mem) && back == [] && scratch == []
      ensures this.initialSize == initialSize && this.bufferMinalign == bufferMinalign
    {
      this.initialSize := initialSize;
      this.bufferMinalign := bufferMinalign;
      mem := new byte[0];
      cur, scratchEnd, size := 0, 0, 0;
      back, scratch := [], [];
    }

    /** Half as much again, or the initial size, or what is needed; rounded up. */
    function NewReserved(reserved: nat, len: nat): (r: nat)
      ensures r >= reserved + len && r % bufferMinalign == 0
      ensures r >= reserved + if reserved != 0 then reserved / 2 else initialSize
      ensures r < reserved + len + bufferMinalign
        || r < reserved + (if reserved != 0 then reserved / 2 else initialSize) + bufferMinalign
    {
      var growth := if reserved != 0 then reserved / 2 else initialSize;
      RoundUp(reserved + if len < growth then growth else len, bufferMinalign)
    }

    /** Grow, keeping what is in use at both ends at the same distance from its end. */
    method Reallocate(len: nat)
      requires Valid() && len > 0
      modifies this
      ensures Valid() && fresh(mem) && back == old(back) && scratch == old(scratch)
      ensures cur - scratchEnd >= len && mem.Length == NewReserved(old(mem.Length), len)
    {
      var reserved := NewReserved(mem.Length, len);
      var newMem := new byte[reserved](_ => 0);
      MemcpyDownward(mem, newMem, size, scratchEnd);
      cur := reserved - size;
      mem := newMem;
    }

    /** Copy inUseBack bytes at the end and inUseFront bytes at the front. */
    method MemcpyDownward(oldMem: array<byte>, newMem: array<byte>, inUseBack: nat, inUseFront: nat)
      requires oldMem != newMem && inUseBack + inUseFront <= oldMem.Length <= newMem.Length
      modifies newMem
      ensures forall i :: 0 <= i < inUseFront ==> newMem[i] == oldMem[i]
      ensures forall i :: newMem.Length - inUseBack <= i < newMem.Length ==>
        newMem[i] == oldMem[i - (newMem.Length - oldMem.Length)]
    {
      var shift := newMem.Length - oldMem.Length;
      forall i | newMem.Length - inUseBack <= i < newMem.Length {
        newMem[i] := oldMem[i - shift];
      }
      forall i | 0 <= i < inUseFront {
        newMem[i] := oldMem[i];
      }
    }

    method EnsureSpace(len: nat)
      requires Valid() && |back| < MAX_BUFFER_SIZE
      modifies this
      ensures Valid() && (mem == old(mem) || fresh(mem)) && back == old(back) && scratch == old(scratch)
      ensures cur - scratchEnd >= len
    {
      if len > cur - scratchEnd {
        Reallocate(len);
      }
    }

    /** Room for len more bytes of data; what they hold is whatever was there. */
    method MakeSpace(len: nat)
      requires Valid() && |back| < MAX_BUFFER_SIZE
      modifies this
      ensures Valid() && (mem == old(mem) || fresh(mem)) && scratch == old(scratch)
      ensures old(back) <= back && |back| == |old(back)| + len
    {
      if len > 0 {
        EnsureSpace(len);
        cur := cur - len;
        size := size + len;
        back := back + Reversed(mem[cur..cur + len]);
      }
    }

    method Push(bytes: seq<byte>)
      requires Valid() && |back| < MAX_BUFFER_SIZE
      modifies this, mem
      ensures Valid() && (mem == old(mem) || fresh(mem)) && scratch == old(scratch)
      ensures back == old(back) + Reversed(bytes)
    {
      MakeSpace(|bytes|);
      forall i | 0 <= i < |bytes| {
        mem[cur + i] := bytes[i];
      }
      back := old(back) + Reversed(bytes);
    }

    static method Clean(a: array<byte>, at: nat, n: nat)
      requires at + n <= a.Length
      modifies a
      ensures forall k :: 0 <= k < a.Length ==> a[k] == if at <= k < at + n then 0 else old(a[k])
    {
      for i := 0 to n
        invariant forall k :: 0 <= k < a.Length ==> a[k] == if at <= k < at + i then 0 else old(a[k])
      {
        a[at + i] := 0;
      }
    }

    method Fill(zeroPadBytes: nat)
      requires Valid() && |back| < MAX_BUFFER_SIZE
      modifies this, mem
      ensures Valid() && (mem == old(mem) || fresh(mem)) && scratch == old(scratch)
      ensures back == old(back) + Zeros(zeroPadBytes)
    {
      MakeSpace(zeroPadBytes);
      Clean(mem, cur, zeroPadBytes);
      back := old(back) + Zeros(zeroPadBytes);
    }

    method Pop(bytesToRemove: nat)
      requires Valid() && bytesToRemove <= |back|
      modifies this
      ensures Valid() && mem == old(mem) && scratch == old(scratch)
      ensures back == old(back)[..|old(back)| - bytesToRemove]
    {
      cur := cur + bytesToRemove;
      size := size - bytesToRemove;
      back := back[..|back| - bytesToRemove];
    }

    method ScratchPush(bytes: seq<byte>)
      requires Valid() && |back| < MAX_BUFFER_SIZE
      modifies this, mem
      ensures Valid() && (mem == old(mem) || fresh(mem)) && back == old(back)
      ensures scratch == old(scratch) + bytes
    {
      EnsureSpace(|bytes|);
      var at := scratchEnd;
      forall i | 0 <= i < |bytes| {
        mem[at + i] := bytes[i];
      }
      scratchEnd := at + |bytes|;
      scratch := scratch + bytes;
    }

    method ScratchPop(bytesToRemove: nat)
      requires Valid() && bytesToRemove <= |scratch|
      modifies this
      ensures Valid() && mem == old(mem) && back == old(back)
      ensures scratch == old(scratch)[..|old(scratch)| - bytesToRemove]
    {
      scratchEnd := scratchEnd - bytesToRemove;
      scratch := scratch[..|scratch| - bytesToRemove];
    }

    method ClearScratch()
      requires Valid()
      modifies this
      ensures Valid() && mem == old(mem) && back == old(back) && scratch == []
    {
      scratchEnd := 0;
      scratch := [];
    }

    method Clear()
      requires Valid()
      modifies this
      ensures Valid() && mem == old(mem) && back == [] && scratch == []
    {
      cur := mem.Length;
      size := 0;
      back := [];
      ClearScratch();
    }

    /** The n bytes from `data_at(offset)` on. */
    method ReadAt(offset: nat, n: nat) returns (bytes: seq<byte>)
      requires Valid() && n <= offset <= |back|
      ensures |bytes| == n && forall i :: 0 <= i < n ==> bytes[i] == back[offset - 1 - i]
    {
      var at := mem.Length - offset;
      bytes := mem[at..at + n];
    }

    method ReadScratch(at: nat, n: nat) returns (bytes: seq<byte>)
      requires Valid() && at + n <= |scratch|
      ensures bytes == scratch[at..at + n]
    {
      bytes := mem[at..at + n];
    }

    /** Overwrite data in place, from `data_at(offset)` on. */
    method WriteAt(offset: nat, bytes: seq<byte>)
      requires Valid() && |bytes| <= offset <= |back|
      modifies this`back, mem
      ensures Valid() && |back| == |old(back)|
      ensures forall i :: 0 <= i < |bytes| ==> back[offset - 1 - i] == bytes[i]
      ensures forall i :: 0 <= i < |back| && !(offset - |bytes| <= i < offset) ==> back[i] == old(back)[i]
    {
      var at := mem.Length - offset;
      forall i | 0 <= i < |bytes| {
        mem[at + i] := bytes[i];
      }
      back := back[..offset - |bytes|] + Reversed(bytes) + back[offset..];
    }

    /** `WriteScalar` at `data_at(offset)`. */
    method WriteScalar(offset: nat, v: nat, w: Width)
      requires Valid() && w <= offset <= |back| && v < Capacity(w)
      modifies this`back, mem
      ensures Valid() && |back| == |old(back)| && ReadBack(back, offset, w) == v
      ensures forall i :: 0 <= i < |back| && !(offset - w <= i < offset) ==> back[i] == old(back)[i]
    {
      WriteAt(offset, LittleEndian(v, w));
      ScalarReadsBackwards(back, offset, w, v);
    }
  }
}
