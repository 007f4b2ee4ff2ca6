/** Packets on a byte stream: the frames of SocketBuffer, the stream read as packets, and
    PacketReceiver, which takes the stream in pieces. */
module Packets {
  import opened Bytes

  const HEADER_LENGTH: nat := 4

  // ----- The stream -----

  /** A length of four bytes, then the payload. */
  function Frame(data: seq<byte>): (f: seq<byte>)
    ensures |f| == HEADER_LENGTH + |data|
  {
    LittleEndian(|data|, 4) + data
  }

  /** Four bytes of the length, which is that of the payload alone, the low byte first. */
  lemma FrameBytes(data: seq<byte>)
    requires |data| < 0x1_0000_0000
    ensures var f := Frame(data); f[4..] == data && Bytes4(f[0], f[1], f[2], f[3]) == |data|
  {
    LimitValues();
    StoredReadsBack(Frame(data), 0, 4, |data|);
    FourBytes(Frame(data), 0);
  }

  predicate IsPacket(data: seq<byte>) {
    |data| + HEADER_LENGTH < U32
  }

  predicate ArePackets(ps: seq<seq<byte>>) {
    forall i :: 0 <= i < |ps| ==> IsPacket(ps[i])
  }

  function Frames(ps: seq<seq<byte>>): seq<byte> {
    if ps == [] then [] else Frame(ps[0]) + Frames(ps[1..])
  }

  /** s starts with a whole frame. */
  predicate HasFrame(s: seq<byte>) {
    |s| >= HEADER_LENGTH && HEADER_LENGTH + ReadUnsigned(s, 0, 4) <= |s|
  }

  function FrameEnd(s: seq<byte>): nat
    requires |s| >= HEADER_LENGTH
  {
    HEADER_LENGTH + ReadUnsigned(s, 0, 4)
  }

  /** Packets received, and the bytes of the one in progress. */
  datatype Received = Received(packets: seq<seq<byte>>, pending: seq<byte>)

  function Deliver(data: seq<byte>, r: Received): Received {
    Received([data] + r.packets, r.pending)
  }

  /** The stream read as packets. */
  function Parse(s: seq<byte>): Received {
    if HasFrame(s) then Deliver(s[HEADER_LENGTH..FrameEnd(s)], Parse(s[FrameEnd(s)..])) else Received([], s)
  }

  lemma FrameReads(data: seq<byte>, t: seq<byte>)
    requires IsPacket(data)
    ensures var s := Frame(data) + t;
      HasFrame(s) && FrameEnd(s) == HEADER_LENGTH + |data| && s[HEADER_LENGTH..FrameEnd(s)] == data
        && s[FrameEnd(s)..] == t
  {
    var s := Frame(data) + t;
    LimitValues();
    assert BytesAt(s, 0, LittleEndian(|data|, 4));
    StoredReadsBack(s, 0, 4, |data|);
  }

  /** Reading inverts framing: whatever follows the frames, if it is not a whole frame itself, is left. */
  lemma {:induction false} ParseFrames(ps: seq<seq<byte>>, t: seq<byte>)
    requires ArePackets(ps) && !HasFrame(t)
    ensures Parse(Frames(ps) + t) == Received(ps, t)
  {
    hide HasFrame, FrameEnd, Frame;
    if ps == [] {
      assert Frames(ps) + t == t;
    } else {
      var s := Frames(ps) + t;
      assert s == Frame(ps[0]) + (Frames(ps[1..]) + t);
      FrameReads(ps[0], Frames(ps[1..]) + t);
      ParseFrames(ps[1..], t);
      assert [ps[0]] + ps[1..] == ps;
    }
  }

  /** And framing inverts reading, so different streams read differently. */
  lemma {:induction false} FramesParse(s: seq<byte>)
    ensures var r := Parse(s); Frames(r.packets) + r.pending == s && !HasFrame(r.pending)
    decreases |s|
  {
    if HasFrame(s) {
      var data, rest := s[HEADER_LENGTH..FrameEnd(s)], s[FrameEnd(s)..];
      FramesParse(rest);
      FirstFrame(s);
      FramesPrepend(data, Parse(rest).packets, Parse(rest).pending);
    } else {
      assert [] + s == s;
    }
  }

  lemma FirstFrame(s: seq<byte>)
    requires HasFrame(s)
    ensures s == Frame(s[HEADER_LENGTH..FrameEnd(s)]) + s[FrameEnd(s)..]
  {
    var data := s[HEADER_LENGTH..FrameEnd(s)];
    ReadIsStored(s, 0, 4);
    assert s[..HEADER_LENGTH] == LittleEndian(|data|, 4);
    assert s == s[..HEADER_LENGTH] + data + s[FrameEnd(s)..];
  }

  lemma {:induction false} FramesPrepend(data: seq<byte>, ps: seq<seq<byte>>, t: seq<byte>)
    ensures Frames([data] + ps) + t == Frame(data) + (Frames(ps) + t)
  {
    assert ([data] + ps)[1..] == ps;
  }

  lemma ParseInjective(s: seq<byte>, t: seq<byte>)
    ensures Parse(s) == Parse(t) <==> s == t
  {
    FramesParse(s);
    FramesParse(t);
  }

  /** Reading in two parts is reading at once, if the second goes on where the first ended. */
  lemma {:induction false} ParseInParts(s: seq<byte>, t: seq<byte>)
    ensures var a := Parse(s); var b := Parse(a.pending + t);
      Parse(s + t) == Received(a.packets + b.packets, b.pending)
    decreases |s|
  {
    if HasFrame(s) {
      var data, rest := s[HEADER_LENGTH..FrameEnd(s)], s[FrameEnd(s)..];
      ReadInPrefix(s, s + t, 0, 4);
      assert (s + t)[HEADER_LENGTH..FrameEnd(s)] == data && (s + t)[FrameEnd(s)..] == rest + t;
      ParseInParts(rest, t);
      var a, b := Parse(rest), Parse(Parse(rest).pending + t);
      assert [data] + (a.packets + b.packets) == ([data] + a.packets) + b.packets;
    } else {
      var b := Parse(s + t);
      assert [] + b.packets == b.packets;
    }
  }

  function Flatten(parts: seq<seq<byte>>): seq<byte> {
    if parts == [] then [] else parts[0] + Flatten(parts[1..])
  }

  /** The stream read piece by piece. */
  function ParsePieces(pending: seq<byte>, pieces: seq<seq<byte>>): Received
    decreases |pieces|
  {
    if pieces == [] then Received([], pending)
    else
      var a := Parse(pending + pieces[0]);
      var b := ParsePieces(a.pending, pieces[1..]);
      Received(a.packets + b.packets, b.pending)
  }

  lemma ParseNothing(s: seq<byte>)
    requires !HasFrame(s)
    ensures Parse(s) == Received([], s)
  {
  }

  /** How the stream is cut makes no difference. */
  lemma {:induction false} CutsDoNotMatter(pending: seq<byte>, pieces: seq<seq<byte>>)
    requires !HasFrame(pending)
    ensures ParsePieces(pending, pieces) == Parse(pending + Flatten(pieces))
    decreases |pieces|
  {
    hide Parse, HasFrame;
    if pieces == [] {
      assert pending + Flatten(pieces) == pending;
      ParseNothing(pending);
    } else {
      var s := pending + pieces[0];
      var a := Parse(s);
      FramesParse(s);
      CutsDoNotMatter(a.pending, pieces[1..]);
      ParseInParts(s, Flatten(pieces[1..]));
      assert pending + Flatten(pieces) == s + Flatten(pieces[1..]);
    }
  }

  /** A part of a stream of frames gives the packets whose frames it holds, in order. */
  lemma {:induction false} ParsePart(part: seq<byte>, rest: seq<byte>, ps: seq<seq<byte>>)
    requires ArePackets(ps) && part + rest == Frames(ps)
    ensures Parse(part).packets <= ps
    ensures rest == [] ==> Parse(part) == Received(ps, [])
  {
    var a := Parse(part);
    var b := Parse(a.pending + rest);
    ParseInParts(part, rest);
    ParseFrames(ps, []);
    assert Frames(ps) + [] == part + rest;
    if rest == [] {
      assert part + rest == part;
    }
  }

  // ----- SocketBuffer -----

  /** A frame ready to be sent. */
  class SocketBuffer {
    const buffer: seq<byte>

    /** The size of the frame must fit 32 bits. */
    constructor (data: seq<byte>)
      requires IsPacket(data)
      ensures buffer == Frame(data)
    {
      var bytes := new byte[HEADER_LENGTH + |data|](_ => 0);
      for i := 0 to |data|
        invariant forall k :: 0 <= k < i ==> bytes[HEADER_LENGTH + k] == data[k]
      {
        bytes[HEADER_LENGTH + i] := data[i];
      }
      var size := LittleEndian(|data|, 4);
      bytes[0], bytes[1], bytes[2], bytes[3] := size[0], size[1], size[2], size[3];
      assert bytes[..] == Frame(data);
      buffer := bytes[..];
    }

    function GetBufferSize(): nat {
      |buffer|
    }
  }

  // ----- PacketReceiver -----

  const DEFAULT_BUFFER_SIZE: nat := 512

  /** How many bytes of c go to the packet that has p so far. */
  function Taken(p: seq<byte>, c: seq<byte>): (n: nat)
    requires !HasFrame(p)
    ensures n <= |c| && (n < |c| ==> HasFrame(p + c[..n]))
    ensures HasFrame(p + c[..n]) ==> FrameEnd(p + c[..n]) == |p| + n
    ensures c != [] ==> n > 0
  {
    if |p| + |c| < HEADER_LENGTH then |c|
    else
      ReadHeader(p, c, |c|);
      var need: nat := FrameEnd(p + c) - |p|;
      var n := if need < |c| then need else |c|;
      assert |p| + n >= HEADER_LENGTH ==> ReadUnsigned(p + c[..n], 0, 4) == ReadUnsigned(p + c, 0, 4) by {
        if |p| + n >= HEADER_LENGTH {
          ReadHeader(p, c, n);
        }
      }
      n
  }

  lemma ReadHeader(p: seq<byte>, c: seq<byte>, n: nat)
    requires n <= |c| && |p| + n >= HEADER_LENGTH
    ensures ReadUnsigned(p + c[..n], 0, 4) == ReadUnsigned(p + c, 0, 4)
    ensures |p| >= HEADER_LENGTH ==> ReadUnsigned(p, 0, 4) == ReadUnsigned(p + c, 0, 4)
  {
    assert p + c[..n] <= p + c;
    ReadInPrefix(p + c[..n], p + c, 0, 4);
    if |p| >= HEADER_LENGTH {
      ReadInPrefix(p, p + c, 0, 4);
    }
  }

  /** The length read so far is that of the packet which all the bytes are the start of. */
  lemma HeaderStays(r: PacketReceiver, p: seq<byte>, chunk: seq<byte>)
    requires r.Valid() && r.offset >= HEADER_LENGTH && r.Pending() <= p + chunk
    ensures r.length == ReadUnsigned(p + chunk, 0, 4)
  {
    HeaderRead(r);
    ReadInPrefix(r.Pending(), p + chunk, 0, 4);
  }

  /** Once the header is there, the length field is what the pending bytes start with. */
  lemma HeaderRead(r: PacketReceiver)
    requires r.offset <= |r.buffer|
    requires r.offset >= HEADER_LENGTH ==> r.length == ReadUnsigned(r.buffer, 0, 4)
    ensures r.offset >= HEADER_LENGTH ==> r.length == ReadUnsigned(r.buffer[..r.offset], 0, 4) < U32
  {
    if r.offset >= HEADER_LENGTH {
      ReadInPrefix(r.buffer[..r.offset], r.buffer, 0, 4);
      ReadBound(r.buffer, 0, 4);
      LimitValues();
    }
  }

  class PacketReceiver {
    var length: nat
    var offset: nat
    var buffer: seq<byte>

    ghost predicate Valid()
      reads this
    {
      && offset <= |buffer| && offset < U32 && HEADER_LENGTH <= |buffer|
      && if offset < HEADER_LENGTH then length == 0
         else length == ReadUnsigned(buffer, 0, 4) && offset <= HEADER_LENGTH + length
    }

    /** What has been received of the packet in progress. */
    ghost function Pending(): seq<byte>
      requires Valid()
      reads this
    {
      buffer[..offset]
    }

    constructor ()
      ensures Valid() && Pending() == []
    {
      length, offset, buffer := 0, 0, Zeros(DEFAULT_BUFFER_SIZE);
    }

    method Clear()
      requires Valid()
      modifies this`length, this`offset
      ensures Valid() && Pending() == []
    {
      length, offset := 0, 0;
    }

    /** `length_ + kPacketLengthSize == offset_`, in 32 bits. */
    predicate IsComplete()
      requires Valid()
      reads this
      ensures IsComplete() <==> HasFrame(Pending())
      ensures IsComplete() ==> FrameEnd(Pending()) == |Pending()|
    {
      HeaderRead(this);
      (length + HEADER_LENGTH) % U32 == offset
    }

    /** The payload of a complete packet. */
    function Payload(): (data: seq<byte>)
      requires Valid() && IsComplete()
      reads this
      ensures data == Pending()[HEADER_LENGTH..]
    {
      HeaderRead(this);
      buffer[HEADER_LENGTH..HEADER_LENGTH + length]
    }

    method Append(chunk: seq<byte>)
      requires offset <= |buffer| && offset + |chunk| < U32
      modifies this`buffer, this`offset
      ensures offset == old(offset) + |chunk| && offset <= |buffer| && |buffer| >= |old(buffer)|
      ensures buffer[..offset] == old(buffer[..offset]) + chunk
    {
      if |buffer| + |chunk| > |buffer| {
        buffer := buffer + Zeros(|chunk|);
      }
      buffer := buffer[..offset] + chunk + buffer[offset + |chunk|..];
      offset := offset + |chunk|;
    }

    /** Take what belongs to the four bytes of the length, and read it once they are all there. */
    method TakeHeader(chunk: seq<byte>) returns (n: nat)
      requires Valid() && offset < HEADER_LENGTH
      modifies this
      ensures n == if |chunk| < HEADER_LENGTH - old(offset) then |chunk| else HEADER_LENGTH - old(offset)
      ensures Valid() && offset == old(offset) + n && Pending() == old(Pending()) + chunk[..n]
    {
      n := if |chunk| < HEADER_LENGTH - offset then |chunk| else HEADER_LENGTH - offset;
      Append(chunk[..n]);
      if offset >= HEADER_LENGTH {
        length := ReadUnsigned(buffer, 0, 4);
      }
    }

    /** Take what belongs to the rest of a packet whose length is known. */
    method TakePayload(chunk: seq<byte>) returns (n: nat)
      requires Valid() && HEADER_LENGTH <= offset
      requires var need := HEADER_LENGTH + length - offset; offset + (if |chunk| < need then |chunk| else need) < U32
      modifies this
      ensures var need := HEADER_LENGTH + old(length) - old(offset); n == if |chunk| < need then |chunk| else need
      ensures Valid() && Pending() == old(Pending()) + chunk[..n]
    {
      HeaderRead(this);
      var need := (length + HEADER_LENGTH - offset) % U32;
      n := if |chunk| < need then |chunk| else need;
      ghost var before := buffer[..offset];
      Append(chunk[..n]);
      assert before <= buffer[..offset];
      ReadInPrefix(before, buffer, 0, 4);
    }

    /** Take what belongs to the packet in progress, and no more; what remains is for the next.  The
        bytes taken must not overflow the 32-bit offset. */
    method OnReceive(chunk: seq<byte>) returns (remain: nat)
      requires Valid()
      requires IsComplete() || offset + Taken(Pending(), chunk) < U32
      modifies this
      ensures var n := if old(IsComplete()) then 0 else Taken(old(Pending()), chunk);
        remain == |chunk| - n && Valid() && Pending() == old(Pending()) + chunk[..n]
    {
      ghost var p := Pending();
      HeaderRead(this);
      var received, rest := |chunk|, chunk;
      if offset < HEADER_LENGTH {
        var appendSize := TakeHeader(chunk);
        received := received - appendSize;
        if received == 0 {
          assert chunk[..appendSize] == chunk;
          return 0;
        }
        rest := chunk[appendSize..];
      }
      assert Pending() + rest == p + chunk;
      HeaderStays(this, p, chunk);
      var appendSize := TakePayload(rest);
      remain := received - appendSize;
    }
  }
}
