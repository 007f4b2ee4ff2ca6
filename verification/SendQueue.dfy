/** The client's send queue: packets are queued and sent under one lock, by two threads, over a
    socket that may take part of what it is given, nothing, or fail. */
module SendQueue {
  import opened Bytes
  import opened Packets

  /** What happens to one call of `Send`: at most so many bytes are accepted, none if the socket would
      block; or it throws. */
  datatype Outcome = Accepts(n: nat) | Throws

  function Smaller(a: nat, b: nat): nat {
    if a < b then a else b
  }

  // ----- The queue as a state machine -----

  /** Bytes sent, frames queued, and how many bytes of the first frame are among those sent. */
  datatype Sending = Sending(wire: seq<byte>, queue: seq<seq<byte>>, sent: nat) {

    predicate Valid() {
      && (forall i :: 0 <= i < |queue| ==> |queue[i]| > 0)
      && if queue == [] then sent == 0 else sent < |queue[0]|
    }

    /** The bytes still to be sent. */
    function Queued(): (s: seq<byte>)
      requires Valid()
      ensures queue == [] <==> s == []
    {
      if queue == [] then [] else queue[0][sent..] + Flatten(queue[1..])
    }
  }

  /** The critical sections: one queues a packet, the other sends for as long as it can, given what
      the socket does. */
  datatype Section = Push(data: seq<byte>) | Drain(outcomes: seq<Outcome>)

  /** The state after sending as much as the outcomes let through, and whether it ends by a throw.
      Where there are no more outcomes, the socket would block. */
  function Drained(s: Sending, outcomes: seq<Outcome>): (r: (Sending, bool))
    requires s.Valid()
    ensures r.0.Valid()
    decreases |outcomes|
  {
    if s.queue == [] || outcomes == [] || outcomes[0] == Accepts(0) then (s, false)
    else if outcomes[0].Throws? then (s, true)
    else Drained(Accepted(s, outcomes[0].n), outcomes[1..])
  }

  /** The state after the socket has accepted up to n bytes of the first frame. */
  function Accepted(s: Sending, n: nat): (r: Sending)
    requires s.Valid() && s.queue != [] && n > 0
    ensures r.Valid()
  {
    var front := s.queue[0];
    var end := s.sent + Smaller(n, |front| - s.sent);
    var wire := s.wire + front[s.sent..end];
    if end < |front| then Sending(wire, s.queue, end) else Sending(wire, s.queue[1..], 0)
  }

  /** Accepting moves bytes, and not none: as many as are accepted, or the rest of the first frame. */
  lemma {:induction false} AcceptedMoves(s: Sending, n: nat)
    requires s.Valid() && s.queue != [] && n > 0
    ensures var r := Accepted(s, n);
      s.wire <= r.wire && r.wire + r.Queued() == s.wire + s.Queued() && |r.Queued()| < |s.Queued()|
    ensures var left := |s.queue[0]| - s.sent; |Accepted(s, n).wire| == |s.wire| + if n < left then n else left
  {
    hide Accepted;
    var front, rest := s.queue[0], Flatten(s.queue[1..]);
    var end := s.sent + Smaller(n, |front| - s.sent);
    QueuedSplit(s, end);
    QueuedAfter(s, n);
    Regroup(s.wire, front[s.sent..end], front[end..], rest);
  }

  lemma {:induction false} QueuedSplit(s: Sending, end: nat)
    requires s.Valid() && s.queue != [] && s.sent <= end <= |s.queue[0]|
    ensures s.Queued() == (s.queue[0][s.sent..end] + s.queue[0][end..]) + Flatten(s.queue[1..])
  {
    assert s.queue[0][s.sent..] == s.queue[0][s.sent..end] + s.queue[0][end..];
  }

  lemma {:induction false} QueuedAfter(s: Sending, n: nat)
    requires s.Valid() && s.queue != [] && n > 0
    ensures var end := s.sent + Smaller(n, |s.queue[0]| - s.sent);
      && Accepted(s, n).wire == s.wire + s.queue[0][s.sent..end]
      && Accepted(s, n).Queued() == s.queue[0][end..] + Flatten(s.queue[1..])
  {
    hide Flatten;
    var end := s.sent + Smaller(n, |s.queue[0]| - s.sent);
    if end == |s.queue[0]| {
      QueuedWhole(Accepted(s, n));
      assert s.queue[0][end..] == [];
    }
  }

  /** If nothing of the first frame has been sent, all frames are queued. */
  lemma {:induction false} QueuedWhole(s: Sending)
    requires s.Valid() && s.sent == 0
    ensures s.Queued() == Flatten(s.queue)
  {
    if s.queue != [] {
      assert s.queue[0][0..] == s.queue[0];
    }
  }

  lemma Regroup(a: seq<byte>, b: seq<byte>, c: seq<byte>, d: seq<byte>)
    ensures (a + b) + (c + d) == a + ((b + c) + d)
  {
  }

  function Next(s: Sending, section: Section): (r: Sending)
    requires s.Valid() && (section.Push? ==> IsPacket(section.data))
    ensures r.Valid()
  {
    match section
    case Push(data) => Sending(s.wire, s.queue + [Frame(data)], s.sent)
    case Drain(outcomes) => Drained(s, outcomes).0
  }

  predicate AreSections(run: seq<Section>) {
    forall i :: 0 <= i < |run| && run[i].Push? ==> IsPacket(run[i].data)
  }

  /** A run, from the first section to the last: any interleaving of the threads. */
  function Run(s: Sending, run: seq<Section>): (r: Sending)
    requires s.Valid() && AreSections(run)
    ensures r.Valid()
    decreases |run|
  {
    if run == [] then s else Run(Next(s, run[0]), run[1..])
  }

  /** The packets queued in a run, in order. */
  function Pushed(run: seq<Section>): (ps: seq<seq<byte>>)
    ensures AreSections(run) ==> ArePackets(ps)
  {
    if run == [] then []
    else if run[0].Push? then [run[0].data] + Pushed(run[1..]) else Pushed(run[1..])
  }

  // ----- The stream -----

  /** However far it gets, sending moves bytes from the queue to the wire, in order; it stops only
      when nothing is left, the socket would block, or it throws. */
  lemma {:induction false} DrainKeeps(s: Sending, outcomes: seq<Outcome>)
    requires s.Valid()
    ensures var r := Drained(s, outcomes).0;
      s.wire <= r.wire && r.wire + r.Queued() == s.wire + s.Queued()
    decreases |outcomes|
  {
    if s.queue != [] && outcomes != [] && outcomes[0].Accepts? && outcomes[0].n > 0 {
      AcceptedMoves(s, outcomes[0].n);
      DrainKeeps(Accepted(s, outcomes[0].n), outcomes[1..]);
    }
  }

  /** Where a drain stops: after j calls that accepted something, when nothing is queued, or the next call
      would block or throws; it reports a throw exactly then. */
  lemma {:induction false} DrainStops(s: Sending, outcomes: seq<Outcome>) returns (j: nat)
    requires s.Valid()
    ensures j <= |outcomes| && forall i :: 0 <= i < j ==> outcomes[i].Accepts? && outcomes[i].n > 0
    ensures var r := Drained(s, outcomes);
      && Drained(s, outcomes[..j]) == (r.0, false)
      && (r.0.queue == [] || j == |outcomes| || outcomes[j] == Accepts(0) || outcomes[j] == Throws)
      && (r.1 <==> r.0.queue != [] && j < |outcomes| && outcomes[j] == Throws)
    decreases |outcomes|
  {
    if s.queue != [] && outcomes != [] && outcomes[0].Accepts? && outcomes[0].n > 0 {
      var k := DrainStops(Accepted(s, outcomes[0].n), outcomes[1..]);
      j := k + 1;
      assert outcomes[..j][1..] == outcomes[1..][..k];
      assert forall i :: 1 <= i < j ==> outcomes[i] == outcomes[1..][i - 1];
    } else {
      j := 0;
    }
  }

  /** If each call accepts something, as many calls as there are bytes empty the queue. */
  lemma {:induction false} DrainEmpties(s: Sending, outcomes: seq<Outcome>)
    requires s.Valid() && |s.Queued()| <= |outcomes|
    requires forall i :: 0 <= i < |outcomes| ==> outcomes[i].Accepts? && outcomes[i].n > 0
    ensures var r := Drained(s, outcomes); r.0.queue == [] && !r.1 && r.0.wire == s.wire + s.Queued()
    decreases |outcomes|
  {
    if s.queue != [] {
      assert outcomes[0].Accepts?;
      AcceptedMoves(s, outcomes[0].n);
      DrainEmpties(Accepted(s, outcomes[0].n), outcomes[1..]);
    } else {
      assert s.wire + [] == s.wire;
    }
  }

  lemma {:induction false} FlattenAppend(parts: seq<seq<byte>>, last: seq<byte>)
    ensures Flatten(parts + [last]) == Flatten(parts) + last
  {
    if parts == [] {
      assert parts + [last] == [last] && [last][1..] == [];
      assert Flatten([last]) == last + [];
    } else {
      assert (parts + [last])[1..] == parts[1..] + [last];
      FlattenAppend(parts[1..], last);
    }
  }

  lemma PushAppends(s: Sending, data: seq<byte>)
    requires s.Valid() && IsPacket(data)
    ensures Next(s, Push(data)).Queued() == s.Queued() + Frame(data)
  {
    var r := Next(s, Push(data));
    if s.queue == [] {
      assert r.queue[1..] == [];
    } else {
      assert r.queue[1..] == s.queue[1..] + [Frame(data)];
      FlattenAppend(s.queue[1..], Frame(data));
    }
  }

  /** What a section adds to the stream. */
  function Added(section: Section): seq<byte> {
    if section.Push? then Frame(section.data) else []
  }

  lemma NextAdds(s: Sending, section: Section)
    requires s.Valid() && (section.Push? ==> IsPacket(section.data))
    ensures var r := Next(s, section);
      s.wire <= r.wire && r.wire + r.Queued() == s.wire + s.Queued() + Added(section)
  {
    match section {
      case Push(data) =>
        PushAppends(s, data);
        assert s.wire + (s.Queued() + Frame(data)) == s.wire + s.Queued() + Frame(data);
      case Drain(outcomes) =>
        DrainKeeps(s, outcomes);
    }
  }

  lemma {:induction false} PushedAdds(run: seq<Section>)
    requires run != []
    ensures Frames(Pushed(run)) == Added(run[0]) + Frames(Pushed(run[1..]))
  {
    if run[0].Push? {
      FramesPrepend(run[0].data, Pushed(run[1..]), []);
      assert Frames(Pushed(run)) + [] == Frames(Pushed(run));
      assert Frames(Pushed(run[1..])) + [] == Frames(Pushed(run[1..]));
    }
  }

  /** Over every run, what is on the wire followed by what is queued is the frames of the packets, in
      the order in which they were queued. */
  lemma {:induction false} RunStream(s: Sending, run: seq<Section>)
    requires s.Valid() && AreSections(run)
    ensures var r := Run(s, run);
      s.wire <= r.wire && r.wire + r.Queued() == s.wire + s.Queued() + Frames(Pushed(run))
    decreases |run|
  {
    hide Next, Frame, Added, Frames, Sending.Queued, Sending.Valid;
    if run == [] {
      NoFrames();
      Nothing(s.wire + s.Queued());
    } else {
      NextAdds(s, run[0]);
      RunStream(Next(s, run[0]), run[1..]);
      PushedAdds(run);
      Associates(s.wire + s.Queued(), Added(run[0]), Frames(Pushed(run[1..])));
    }
  }

  lemma Associates(a: seq<byte>, b: seq<byte>, c: seq<byte>)
    ensures (a + b) + c == a + (b + c)
  {
  }

  lemma Nothing(a: seq<byte>)
    ensures a + [] == a
  {
  }

  lemma NoFrames()
    ensures Frames([]) == []
  {
  }

  const START: Sending := Sending([], [], 0)

  /** From the packets queued at one end to those read at the other: however the queue was drained and
      however the wire is cut into pieces, the packets read are the first of those queued, and all of
      them once the queue is empty. */
  lemma Delivered(run: seq<Section>, pieces: seq<seq<byte>>)
    requires AreSections(run) && Flatten(pieces) == Run(START, run).wire
    ensures ParsePieces([], pieces).packets <= Pushed(run)
    ensures Run(START, run).queue == [] ==> ParsePieces([], pieces) == Received(Pushed(run), [])
  {
    var r := Run(START, run);
    RunStream(START, run);
    assert START.wire + START.Queued() + Frames(Pushed(run)) == Frames(Pushed(run));
    CutsDoNotMatter([], pieces);
    assert [] + Flatten(pieces) == r.wire;
    ParsePart(r.wire, r.Queued(), Pushed(run));
  }

  // ----- The objects -----

  /** A connected socket: what it will do, and what it has sent. */
  class WinSock {
    var outcomes: seq<Outcome>
    ghost var wire: seq<byte>

    constructor ()
      ensures outcomes == [] && wire == []
    {
      outcomes, wire := [], [];
    }

    /** None if it throws, otherwise how many bytes are accepted.  For 2 GB and more, whose number is negative as
        an int, all it can do is throw. */
    method Send(data: seq<byte>) returns (len: Option<nat>)
      modifies this
      ensures outcomes == if old(outcomes) == [] then [] else old(outcomes)[1..]
      ensures len.None? <==> old(outcomes) != [] && old(outcomes)[0].Throws?
      ensures len.Some? ==> len.value == Smaller(if old(outcomes) == [] then 0 else old(outcomes)[0].n, |data|)
      ensures wire == if len.None? then old(wire) else old(wire) + data[..len.value]
    {
      if outcomes == [] {
        return Some(0);
      }
      var outcome := outcomes[0];
      outcomes := outcomes[1..];
      if outcome.Throws? {
        return None;
      }
      var n := Smaller(outcome.n, |data|);
      wire := wire + data[..n];
      return Some(n);
    }
  }

  class ClientSocket {
    const socket: WinSock
    var sendBuffers: seq<SocketBuffer>
    var sendingSize: nat

    ghost function State(): Sending
      reads this, socket
    {
      Sending(socket.wire, Frames(), sendingSize)
    }

    ghost function Frames(): seq<seq<byte>>
      reads this
    {
      seq(|sendBuffers|, i requires 0 <= i < |sendBuffers| reads this => sendBuffers[i].buffer)
    }

    ghost predicate Valid()
      reads this, socket
    {
      State().Valid()
    }

    constructor ()
      ensures Valid() && fresh(socket) && State() == START
    {
      socket := new WinSock();
      sendBuffers, sendingSize := [], 0;
    }

    /** The first critical section of `SendPacket`. */
    method Enqueue(data: seq<byte>)
      requires Valid() && IsPacket(data)
      modifies this`sendBuffers
      ensures Valid() && State() == Next(old(State()), Push(data))
    {
      var frame := new SocketBuffer(data);
      sendBuffers := sendBuffers + [frame];
      assert Frames() == old(Frames()) + [Frame(data)];
    }

    /** The second one, which is the write callback too. */
    method TrySendPacket() returns (thrown: bool)
      requires Valid()
      modifies this, socket
      ensures Valid() && (State(), thrown) == Drained(old(State()), old(socket.outcomes))
    {
      hide Accepted;
      ghost var all := Drained(State(), socket.outcomes);
      while sendBuffers != []
        invariant Valid() && Drained(State(), socket.outcomes) == all
        decreases |socket.outcomes|
      {
        var len := SendFront();
        if len.None? {
          return true;
        }
        if len.value == 0 {
          break;
        }
      }
      thrown := false;
    }

    /** One round: a call of `Send` for the rest of the first frame, and what it means for the queue. */
    method SendFront() returns (len: Option<nat>)
      requires Valid() && sendBuffers != []
      modifies this, socket
      ensures Valid() && socket.outcomes == if old(socket.outcomes) == [] then [] else old(socket.outcomes)[1..]
      ensures len == None ==> State() == old(State()) && old(socket.outcomes) != [] && old(socket.outcomes)[0].Throws?
      ensures len == Some(0) ==>
        && State() == old(State())
        && (old(socket.outcomes) == [] || old(socket.outcomes)[0] == Accepts(0))
      ensures len.Some? && len.value > 0 ==>
        && old(socket.outcomes) != [] && old(socket.outcomes)[0].Accepts? && old(socket.outcomes)[0].n > 0
        && State() == Accepted(old(State()), old(socket.outcomes)[0].n)
    {
      var front := sendBuffers[0];
      ghost var queue := Frames();
      assert queue[0] == front.buffer;
      len := socket.Send(front.buffer[sendingSize..]);
      if len.None? || len.value == 0 {
        assert Frames() == queue && (len.Some? ==> front.buffer[sendingSize..][..0] == []);
        return;
      }
      assert front.buffer[sendingSize..][..len.value] == front.buffer[sendingSize..sendingSize + len.value];
      sendingSize := sendingSize + len.value;
      if sendingSize < front.GetBufferSize() {
        assert Frames() == queue;
        return;
      }
      sendBuffers := sendBuffers[1..];
      sendingSize := 0;
      assert Frames() == queue[1..];
    }

    /** What happens if no other thread comes in between. */
    method SendPacket(data: seq<byte>) returns (thrown: bool)
      requires Valid() && IsPacket(data)
      modifies this, socket
      ensures Valid() && State() == Run(old(State()), [Push(data), Drain(old(socket.outcomes))])
    {
      ghost var before, outcomes := State(), socket.outcomes;
      Enqueue(data);
      thrown := TrySendPacket();
      assert [Push(data), Drain(outcomes)][1..] == [Drain(outcomes)];
      assert Run(State(), []) == State();
      assert [Drain(outcomes)][1..] == [];
      assert Run(Next(before, Push(data)), [Drain(outcomes)]) == State();
    }
  }
}
