/** What the two sessions do with the bytes they receive.  Both loops hand the receiver the start of
    the piece again for what remains after a packet. */
module Sessions {
  import opened Bytes
  import opened Packets

  type Check = seq<byte> -> bool

  /** What should happen with the bytes c after p: packets are handled until one is refused, which
      stays and has all that follows dropped. */
  function Handle(p: seq<byte>, c: seq<byte>, accepts: Check): Received
    requires !HasFrame(p)
    decreases |c|
  {
    var n := Taken(p, c);
    var q := p + c[..n];
    if !HasFrame(q) || !accepts(q[HEADER_LENGTH..]) then Received([], q)
    else Deliver(q[HEADER_LENGTH..], if n == |c| then Received([], []) else Handle([], c[n..], accepts))
  }

  /** What the server session does when n bytes of the piece c remain. */
  function Session(p: seq<byte>, c: seq<byte>, n: nat, accepts: Check): Received
    requires !HasFrame(p) && n <= |c|
    decreases n
  {
    var k := Taken(p, c[..n]);
    var q := p + c[..k];
    if !HasFrame(q) || !accepts(q[HEADER_LENGTH..]) then Received([], q)
    else Deliver(q[HEADER_LENGTH..], if k == n then Received([], []) else Session([], c, n - k, accepts))
  }

  lemma {:induction false} SessionStep(p: seq<byte>, c: seq<byte>, n: nat, accepts: Check)
    requires !HasFrame(p) && !HasFrame([]) && n <= |c|
    ensures var k := Taken(p, c[..n]); var q := p + c[..n][..k];
      Session(p, c, n, accepts)
      == (if !HasFrame(q) || !accepts(q[HEADER_LENGTH..]) then Received([], q)
          else Deliver(q[HEADER_LENGTH..], if k == n then Received([], []) else Session([], c, n - k, accepts)))
  {
    hide HasFrame, Taken;
    assert c[..n][..Taken(p, c[..n])] == c[..Taken(p, c[..n])];
  }

  class ClientSession {
    const receiver: PacketReceiver
    const accepts: Check
    var handled: seq<seq<byte>>

    /** A whole packet that is still there is one that was refused. */
    ghost predicate Valid()
      reads this, receiver
    {
      && receiver.Valid()
      && (HasFrame(receiver.Pending()) ==> IsRefused(receiver.Pending(), accepts))
    }

    constructor (accepts: Check)
      ensures Valid() && fresh(receiver) && receiver.Pending() == [] && handled == []
      ensures this.accepts == accepts
    {
      receiver := new PacketReceiver();
      this.accepts := accepts;
      handled := [];
    }

    /** A piece of the stream has arrived.  After a refused packet nothing happens any more. */
    method OnReceivePacket(buffer: seq<byte>)
      requires Valid() && |receiver.Pending()| + |buffer| < U32
      modifies this`handled, receiver
      ensures Valid()
      ensures var p := old(receiver.Pending());
        if HasFrame(p) then handled == old(handled) && receiver.Pending() == p
        else
          var r := Session(p, buffer, |buffer|, accepts);
          handled == old(handled) + r.packets && receiver.Pending() == r.pending
    {
      hide HasFrame, Taken, Session;
      NothingPending();
      ghost var p := receiver.Pending();
      var remain: nat := |buffer|;
      while true
        invariant Valid() && remain <= |buffer| && |receiver.Pending()| + remain < U32
        invariant HasFrame(p) ==> remain == |buffer| && receiver.Pending() == p && handled == old(handled)
        invariant !HasFrame(p) ==> !HasFrame(receiver.Pending())
        invariant !HasFrame(p) ==>
          var all, r := Session(p, buffer, |buffer|, accepts), Session(receiver.Pending(), buffer, remain, accepts);
          old(handled) + all.packets == handled + r.packets && all.pending == r.pending
        decreases remain
      {
        ghost var n := remain;
        if !HasFrame(p) {
          SessionStep(receiver.Pending(), buffer, n, accepts);
        }
        var refused;
        remain, refused := ReceiveOnce(buffer[..remain]);
        assert buffer[..n][..n - remain] == buffer[..n - remain];
        if refused || remain == 0 {
          break;
        }
      }
    }

    /** One round: a packet that it completes is handled if it is accepted. */
    method ReceiveOnce(chunk: seq<byte>) returns (remain: nat, refused: bool)
      requires Valid() && |receiver.Pending()| + |chunk| < U32
      modifies this`handled, receiver
      ensures Valid()
      ensures var p := old(receiver.Pending());
        if HasFrame(p) then refused && remain == |chunk| && handled == old(handled) && receiver.Pending() == p
        else
          var k := Taken(p, chunk);
          var q := p + chunk[..k];
          var done := HasFrame(q) && accepts(q[HEADER_LENGTH..]);
          && remain == |chunk| - k && (refused <==> HasFrame(q) && !done)
          && receiver.Pending() == (if done then [] else q)
          && handled == old(handled) + if done then [q[HEADER_LENGTH..]] else []
      ensures remain == 0 || refused || remain < |chunk|
    {
      hide HasFrame;
      NothingPending();
      assert receiver.Pending() + chunk[..0] == receiver.Pending();
      remain := receiver.OnReceive(chunk);
      refused := false;
      if receiver.IsComplete() {
        var packet := receiver.Payload();
        if !accepts(packet) {
          refused := true;
        } else {
          handled := handled + [packet];
          receiver.Clear();
        }
      }
    }
  }

  predicate IsRefused(p: seq<byte>, accepts: Check) {
    HEADER_LENGTH <= |p| && !accepts(p[HEADER_LENGTH..])
  }

  /** What is taken from the last n bytes of the piece, packet by packet until one is refused, is what
      the piece starts with. */
  predicate Follows(p: seq<byte>, c: seq<byte>, n: nat, accepts: Check)
    requires !HasFrame(p) && n <= |c|
    decreases n
  {
    var d := c[|c| - n..];
    var k := Taken(p, d);
    var q := p + d[..k];
    && c[..k] == d[..k]
    && (!HasFrame(q) || !accepts(q[HEADER_LENGTH..]) || k == n || Follows([], c, n - k, accepts))
  }

  /** A packet that ends does not go on. */
  lemma SameEnd(s: seq<byte>, t: seq<byte>)
    requires s <= t && HasFrame(s) && FrameEnd(s) == |s| && (HasFrame(t) ==> FrameEnd(t) == |t|)
    ensures HasFrame(t) && s == t
  {
    ReadInPrefix(s, t, 0, 4);
  }

  /** What is taken depends on the bytes taken alone. */
  lemma TakenAlone(p: seq<byte>, c: seq<byte>, d: seq<byte>)
    requires !HasFrame(p) && |c| == |d| && c[..Taken(p, c)] == d[..Taken(p, c)]
    ensures Taken(p, d) == Taken(p, c)
  {
    var k, m := Taken(p, c), Taken(p, d);
    if m < k {
      assert d[..m] <= d[..k];
      SameEnd(p + d[..m], p + c[..k]);
    } else if k < m {
      assert d[..k] <= d[..m];
      SameEnd(p + c[..k], p + d[..m]);
    }
  }

  lemma NothingPending()
    ensures !HasFrame([])
  {
  }

  /** If every packet is accepted, handling is reading. */
  lemma {:induction false} HandleIsParse(p: seq<byte>, c: seq<byte>, accepts: Check)
    requires !HasFrame(p) && forall d :: d in Parse(p + c).packets ==> accepts(d)
    ensures Handle(p, c, accepts) == Parse(p + c)
    decreases |c|
  {
    var n := Taken(p, c);
    var q := p + c[..n];
    assert p + c == q + c[n..];
    ParseTaken(q, c[n..]);
    if HasFrame(q) && n < |c| {
      assert [] + c[n..] == c[n..];
      HandleIsParse([], c[n..], accepts);
    }
  }

  /** Of all that is read, what comes before the first packet that is refused is handled; that one stays. */
  predicate IsUntilRefused(r: Received, all: Received, accepts: Check) {
    && r.packets <= all.packets && (forall d :: d in r.packets ==> accepts(d))
    && if |r.packets| == |all.packets| then r.pending == all.pending
       else
         var refused := all.packets[|r.packets|];
         !accepts(refused) && HasFrame(r.pending) && r.pending[HEADER_LENGTH..] == refused
  }

  lemma OneMoreHandled(d: seq<byte>, r: Received, all: Received, accepts: Check)
    requires IsUntilRefused(r, all, accepts) && accepts(d)
    ensures IsUntilRefused(Deliver(d, r), Deliver(d, all), accepts)
  {
    hide HasFrame;
  }

  /** What should happen with a stream, said without going through it. */
  lemma {:induction false} HandlesUntilRefused(p: seq<byte>, c: seq<byte>, accepts: Check)
    requires !HasFrame(p)
    ensures IsUntilRefused(Handle(p, c, accepts), Parse(p + c), accepts)
    decreases |c|
  {
    hide HasFrame, Taken, Parse, IsUntilRefused;
    NothingPending();
    var n := Taken(p, c);
    var q := p + c[..n];
    assert p + c == q + c[n..];
    ParseTaken(q, c[n..]);
    if !HasFrame(q) {
      HandledAll(q, accepts);
    } else if !accepts(q[HEADER_LENGTH..]) {
      Refused(q, Parse(c[n..]), accepts);
    } else if n < |c| {
      assert [] + c[n..] == c[n..];
      HandlesUntilRefused([], c[n..], accepts);
      OneMoreHandled(q[HEADER_LENGTH..], Handle([], c[n..], accepts), Parse(c[n..]), accepts);
    } else {
      assert c[n..] == [];
      NothingRead();
      HandledAll([], accepts);
      OneMoreHandled(q[HEADER_LENGTH..], Received([], []), Received([], []), accepts);
    }
  }

  lemma NothingRead()
    ensures Parse([]) == Received([], [])
  {
  }

  lemma HandledAll(q: seq<byte>, accepts: Check)
    ensures IsUntilRefused(Received([], q), Received([], q), accepts)
  {
  }

  lemma Refused(q: seq<byte>, rest: Received, accepts: Check)
    requires HasFrame(q) && !accepts(q[HEADER_LENGTH..])
    ensures IsUntilRefused(Received([], q), Deliver(q[HEADER_LENGTH..], rest), accepts)
  {
  }

  /** Reading on from where a packet may just have ended. */
  lemma {:induction false} ParseTaken(q: seq<byte>, t: seq<byte>)
    requires if HasFrame(q) then FrameEnd(q) == |q| else t == []
    ensures Parse(q + t) == if HasFrame(q) then Deliver(q[HEADER_LENGTH..], Parse(t)) else Received([], q)
  {
    var s := q + t;
    if HasFrame(q) {
      ReadInPrefix(q, s, 0, 4);
      assert s[HEADER_LENGTH..FrameEnd(s)] == q[HEADER_LENGTH..] && s[FrameEnd(s)..] == t;
    } else {
      assert s == q;
    }
  }

  /** Whatever the session accepts, it handles a piece as it should exactly if what it takes again is
      what follows: until a packet is refused, that is until nothing of the piece matters any more. */
  lemma {:induction false} SessionCorrect(p: seq<byte>, c: seq<byte>, n: nat, accepts: Check)
    requires !HasFrame(p) && n <= |c|
    ensures Session(p, c, n, accepts) == Handle(p, c[|c| - n..], accepts) <==> Follows(p, c, n, accepts)
    decreases n
  {
    hide HasFrame, Taken, Follows, Session, Handle;
    NothingPending();
    var d := c[|c| - n..];
    var k, m := Taken(p, d), Taken(p, c[..n]);
    assert c[..n][..k] == c[..k] && c[..n][..m] == c[..m];
    if c[..k] == d[..k] {
      if k < n {
        SessionCorrect([], c, n - k, accepts);
      }
      SameBytes(p, c, n, accepts);
    } else {
      OtherBytes(p, c[..n], d);
      Differently(p, c, n, accepts);
      if Follows(p, c, n, accepts) {
        FollowsSame(p, c, n, accepts);
      }
    }
  }

  lemma {:induction false} FollowsSame(p: seq<byte>, c: seq<byte>, n: nat, accepts: Check)
    requires !HasFrame(p) && n <= |c| && Follows(p, c, n, accepts)
    ensures var d := c[|c| - n..]; c[..Taken(p, d)] == d[..Taken(p, d)]
  {
  }

  lemma {:induction false} HandleStep(p: seq<byte>, c: seq<byte>, n: nat, accepts: Check)
    requires !HasFrame(p) && !HasFrame([]) && n <= |c|
    ensures var d := c[|c| - n..]; var k := Taken(p, d); var q := p + d[..k];
      Handle(p, d, accepts)
      == (if !HasFrame(q) || !accepts(q[HEADER_LENGTH..]) then Received([], q)
          else Deliver(q[HEADER_LENGTH..], if k == n then Received([], [])
            else Handle([], c[|c| - (n - k)..], accepts)))
  {
    hide HasFrame, Taken;
    var d := c[|c| - n..];
    assert d[Taken(p, d)..] == c[|c| - (n - Taken(p, d))..];
  }

  lemma {:induction false} FollowsStep(p: seq<byte>, c: seq<byte>, n: nat, accepts: Check)
    requires !HasFrame(p) && !HasFrame([]) && n <= |c|
    ensures var d := c[|c| - n..]; var k := Taken(p, d); var q := p + d[..k];
      Follows(p, c, n, accepts) <==>
        && c[..k] == d[..k]
        && (!HasFrame(q) || !accepts(q[HEADER_LENGTH..]) || k == n || Follows([], c, n - k, accepts))
  {
    hide HasFrame, Taken;
  }

  /** Where the first packet is given the bytes it should be given, the rest decides. */
  lemma {:induction false} SameBytes(p: seq<byte>, c: seq<byte>, n: nat, accepts: Check)
    requires !HasFrame(p) && !HasFrame([]) && n <= |c|
    requires var d := c[|c| - n..]; var k := Taken(p, d);
      && c[..k] == d[..k]
      && (k < n ==> (Session([], c, n - k, accepts) == Handle([], c[|c| - (n - k)..], accepts) <==>
        Follows([], c, n - k, accepts)))
    ensures Session(p, c, n, accepts) == Handle(p, c[|c| - n..], accepts) <==> Follows(p, c, n, accepts)
  {
    hide HasFrame, Taken, Deliver, Session, Handle, Follows;
    var d := c[|c| - n..];
    var k := Taken(p, d);
    assert c[..n][..k] == c[..k];
    TakenAlone(p, d, c[..n]);
    SessionStep(p, c, n, accepts);
    HandleStep(p, c, n, accepts);
    FollowsStep(p, c, n, accepts);
    var q := p + d[..k];
    if k < n {
      assert d[k..] == c[|c| - (n - k)..];
      if HasFrame(q) && accepts(q[HEADER_LENGTH..]) {
        DeliverSame(q[HEADER_LENGTH..], Session([], c, n - k, accepts), q[HEADER_LENGTH..],
          Handle([], d[k..], accepts));
      }
    }
  }

  lemma {:induction false} Differently(p: seq<byte>, c: seq<byte>, n: nat, accepts: Check)
    requires !HasFrame(p) && n <= |c|
    requires var d := c[|c| - n..]; var q, r := p + c[..Taken(p, c[..n])], p + d[..Taken(p, d)];
      q != r && (HasFrame(q) && HasFrame(r) ==> q[HEADER_LENGTH..] != r[HEADER_LENGTH..])
    ensures Session(p, c, n, accepts) != Handle(p, c[|c| - n..], accepts)
  {
    hide HasFrame, Taken, Deliver;
    NothingPending();
    var d := c[|c| - n..];
    var m, k := Taken(p, c[..n]), Taken(p, d);
    assert c[..n][..m] == c[..m];
    var q, r := p + c[..m], p + d[..k];
    var s := if m == n then Received([], []) else Session([], c, n - m, accepts);
    var t := if k == n then Received([], []) else Handle([], d[k..], accepts);
    if HasFrame(q) {
      DeliverSame(q[HEADER_LENGTH..], s, [], Received([], []));
    }
    if HasFrame(r) {
      DeliverSame(r[HEADER_LENGTH..], t, [], Received([], []));
    }
    if HasFrame(q) && HasFrame(r) {
      DeliverSame(q[HEADER_LENGTH..], s, r[HEADER_LENGTH..], t);
    }
  }

  /** The bytes that the first packet is given decide between two handlings. */
  lemma OtherBytes(p: seq<byte>, c: seq<byte>, d: seq<byte>)
    requires !HasFrame(p) && |c| == |d| && c[..Taken(p, d)] != d[..Taken(p, d)]
    ensures var q, r := p + c[..Taken(p, c)], p + d[..Taken(p, d)];
      q != r && (HasFrame(q) && HasFrame(r) ==> q[HEADER_LENGTH..] != r[HEADER_LENGTH..])
  {
    var k, m := Taken(p, d), Taken(p, c);
    var q, r := p + c[..m], p + d[..k];
    assert q[|p|..] == c[..m] && r[|p|..] == d[..k];
    if HasFrame(q) && HasFrame(r) {
      SamePayload(q, r);
    }
  }

  lemma SamePayload(q: seq<byte>, r: seq<byte>)
    requires HasFrame(q) && FrameEnd(q) == |q| && HasFrame(r) && FrameEnd(r) == |r|
    ensures q[HEADER_LENGTH..] == r[HEADER_LENGTH..] ==> q == r
  {
    FirstFrame(q);
    FirstFrame(r);
    assert q == Frame(q[HEADER_LENGTH..]) + [] && r == Frame(r[HEADER_LENGTH..]) + [];
  }

  lemma DeliverSame(d: seq<byte>, r: Received, e: seq<byte>, s: Received)
    ensures Deliver(d, r) == Deliver(e, s) <==> d == e && r == s
    ensures Deliver(d, r).packets != []
  {
    assert Deliver(d, r).packets[0] == d && Deliver(d, r).packets[1..] == r.packets;
    assert Deliver(e, s).packets[0] == e && Deliver(e, s).packets[1..] == s.packets;
  }

  /** In particular a piece is handled right if no packet ends before the piece does, or the first that
      does is refused. */
  lemma OnePacketFollows(p: seq<byte>, c: seq<byte>, accepts: Check)
    requires !HasFrame(p)
    requires var q := p + c[..Taken(p, c)]; Taken(p, c) == |c| || !accepts(q[HEADER_LENGTH..])
    ensures Follows(p, c, |c|, accepts)
  {
    assert c[|c| - |c|..] == c;
  }

  /** Two different packets in one piece, both accepted, are not handled as the two of them; if they are
      of one length, the first is handled twice and the second never. */
  lemma SecondPacketLost(a: seq<byte>, b: seq<byte>, accepts: Check)
    requires IsPacket(a) && IsPacket(b) && a != b && accepts(a) && accepts(b)
    ensures var c := Frame(a) + Frame(b);
      && Parse(c) == Received([a, b], []) == Handle([], c, accepts)
      && Session([], c, |c|, accepts).packets != [a, b]
      && (|a| == |b| ==> Session([], c, |c|, accepts) == Received([a, a], []))
  {
    hide HasFrame, Parse, Taken, Session, Handle;
    var c, fa, fb := Frame(a) + Frame(b), Frame(a), Frame(b);
    NothingPending();
    TwoFrames(a, b);
    assert [] + c == c && c[..|c|] == c;
    HandleIsParse([], c, accepts);
    TakenFrame(a, c);
    FrameReads(a, []);
    assert c[..|fa|] == fa == fa + [] && [] + fa == fa && fa[HEADER_LENGTH..] == a;
    SessionStep([], c, |c|, accepts);
    NotTheSecond(a, b, c, |fb|, accepts);
    var rest := Session([], c, |fb|, accepts).packets;
    assert ([a] + rest)[1..] == rest && [a, b][1..] == [b];
    if |a| == |b| {
      assert c[..|fb|] == fa;
      TakenFrame(a, fa);
      assert fa[..|fa|] == fa;
      SessionStep([], c, |fb|, accepts);
    }
  }

  /** The next packet is not one that the piece does not start with. */
  lemma NotTheSecond(a: seq<byte>, b: seq<byte>, c: seq<byte>, n: nat, accepts: Check)
    requires IsPacket(a) && IsPacket(b) && a != b && !HasFrame([]) && Frame(a) <= c && n <= |c|
    ensures var ps := Session([], c, n, accepts).packets; ps == [] || ps[0] != b
  {
    hide HasFrame, Taken, Session, Frame;
    SessionStep([], c, n, accepts);
    var q := [] + c[..n][..Taken([], c[..n])];
    assert q <= c;
    if HasFrame(q) && q[HEADER_LENGTH..] == b {
      FirstFrame(q);
      assert FrameEnd(q) == |q| && q[HEADER_LENGTH..|q|] == b && q[|q|..] == [];
      assert Frame(b) + [] == Frame(b);
      FrameStarts(a, b, c);
    }
  }

  /** A packet in a piece of its own, accepted, is handled. */
  lemma OnePacketHandled(a: seq<byte>, accepts: Check)
    requires IsPacket(a) && accepts(a)
    ensures !HasFrame([]) && Session([], Frame(a), |Frame(a)|, accepts) == Received([a], [])
  {
    var c := Frame(a);
    NothingPending();
    TakenFrame(a, c);
    FrameReads(a, []);
    assert c[..|c|] == c && [] + c == c == c + [] && c[HEADER_LENGTH..] == a;
  }

  lemma TwoFrames(a: seq<byte>, b: seq<byte>)
    requires IsPacket(a) && IsPacket(b)
    ensures Parse(Frame(a) + Frame(b)) == Received([a, b], [])
  {
    assert Frames([b]) == Frame(b) + Frames([]) == Frame(b);
    assert [a, b][1..] == [b] && Frames([a, b]) == Frame(a) + Frame(b);
    assert Frame(a) + Frame(b) + [] == Frame(a) + Frame(b);
    NothingPending();
    ParseFrames([a, b], []);
  }

  /** What starts with the frames of two packets: they are the same packet. */
  lemma FrameStarts(a: seq<byte>, b: seq<byte>, c: seq<byte>)
    requires IsPacket(a) && IsPacket(b) && Frame(a) <= c && Frame(b) <= c
    ensures a == b
  {
    FrameReads(a, c[|Frame(a)|..]);
    FrameReads(b, c[|Frame(b)|..]);
    assert c == Frame(a) + c[|Frame(a)|..] == Frame(b) + c[|Frame(b)|..];
  }

  lemma TakenFrame(data: seq<byte>, c: seq<byte>)
    requires IsPacket(data) && |Frame(data)| <= |c| && c[..|Frame(data)|] == Frame(data)
    ensures Taken([], c) == |Frame(data)|
  {
    FrameReads(data, c[|Frame(data)|..]);
    assert [] + c == c == Frame(data) + c[|Frame(data)|..];
  }

  // ----- The client session -----

  /** One round of the client's loop: it always hands over the whole piece. */
  function ReadRound(r: Received, c: seq<byte>): (s: Received)
    requires !HasFrame(r.pending)
    ensures !HasFrame(s.pending)
  {
    var q := r.pending + c[..Taken(r.pending, c)];
    if HasFrame(q) then Received(r.packets + [q[HEADER_LENGTH..]], []) else Received(r.packets, q)
  }

  /** The packets handled in k rounds, and what is pending after them. */
  function ReadRounds(p: seq<byte>, c: seq<byte>, k: nat): (s: Received)
    requires !HasFrame(p)
    ensures !HasFrame(s.pending)
  {
    if k == 0 then Received([], p) else ReadRound(ReadRounds(p, c, k - 1), c)
  }

  /** The round after k rounds leaves nothing: the loop ends, unless it has ended before. */
  predicate EndsAfter(p: seq<byte>, c: seq<byte>, k: nat)
    requires !HasFrame(p)
  {
    Taken(ReadRounds(p, c, k).pending, c) == |c|
  }

  /** The loop ends after k rounds and one more, and that is what it has handled. */
  predicate ReadsAs(p: seq<byte>, c: seq<byte>, k: nat, r: Received)
    requires !HasFrame(p)
  {
    EndsAfter(p, c, k) && (forall j :: 0 <= j < k ==> !EndsAfter(p, c, j)) && ReadRounds(p, c, k + 1) == r
  }

  lemma {:induction false} RoundsRepeat(p: seq<byte>, c: seq<byte>, k: nat)
    requires !HasFrame(p) && k >= 1 && Taken(p, c) < |c| && (k >= 2 ==> Taken([], c) < |c|)
    ensures ReadRounds(p, c, k).pending == []
  {
    NothingPending();
    if k == 1 {
      assert ReadRounds(p, c, 0) == Received([], p);
    } else {
      RoundsRepeat(p, c, k - 1);
    }
  }

  /** The client's loop over a piece ends exactly if the piece ends no later than the packet in
      progress, or is no longer than the packet it starts with. */
  lemma ReadLoopEnds(p: seq<byte>, c: seq<byte>)
    requires !HasFrame(p)
    ensures (exists k :: EndsAfter(p, c, k)) <==> Taken(p, c) == |c| || Taken([], c) == |c|
  {
    hide HasFrame, Taken;
    NothingPending();
    assert ReadRounds(p, c, 0).pending == p;
    if Taken(p, c) == |c| {
      assert EndsAfter(p, c, 0);
    } else if Taken([], c) == |c| {
      RoundsRepeat(p, c, 1);
      assert EndsAfter(p, c, 1);
    } else {
      forall k ensures !EndsAfter(p, c, k) {
        if k >= 1 {
          RoundsRepeat(p, c, k);
        }
      }
    }
  }

  /** Two packets in one piece: the client's loop never ends. */
  lemma TwoPacketsLoop(a: seq<byte>, b: seq<byte>)
    requires IsPacket(a) && IsPacket(b)
    ensures !exists k :: EndsAfter([], Frame(a) + Frame(b), k)
  {
    NothingPending();
    TakenFrame(a, Frame(a) + Frame(b));
    ReadLoopEnds([], Frame(a) + Frame(b));
  }

  /** The client handles a piece as the stream has it exactly if the piece ends no later than the packet
      in progress: a second round that ends reads bytes again. */
  lemma ClientCorrect(p: seq<byte>, c: seq<byte>)
    requires !HasFrame(p)
    ensures (exists k :: ReadsAs(p, c, k, Parse(p + c))) <==> Taken(p, c) == |c|
  {
    hide HasFrame, Taken;
    NothingPending();
    var n := Taken(p, c);
    assert ReadRounds(p, c, 0) == Received([], p);
    if n == |c| {
      assert c[..n] == c && (p + c) + [] == p + c;
      ParseTaken(p + c, []);
      ParseNothing([]);
      assert ReadRounds(p, c, 1) == ReadRound(Received([], p), c);
      assert ReadsAs(p, c, 0, Parse(p + c));
    } else {
      forall k | ReadsAs(p, c, k, Parse(p + c)) ensures false {
        assert k >= 1;
        RoundsRepeat(p, c, 1);
        if k == 1 {
          SecondRound(p, c);
        } else {
          assert !EndsAfter(p, c, 1);
          RoundsRepeat(p, c, k);
        }
      }
    }
  }

  /** A second round that takes the whole piece has read more bytes than there were. */
  lemma SecondRound(p: seq<byte>, c: seq<byte>)
    requires !HasFrame(p) && Taken(p, c) < |c| && !HasFrame([]) && Taken([], c) == |c|
    ensures ReadRounds(p, c, 2) != Parse(p + c)
  {
    hide Taken, HasFrame, Frame, Frames, Parse;
    var q := p + c[..Taken(p, c)];
    var first := ReadRounds(p, c, 1);
    assert ReadRounds(p, c, 0) == Received([], p);
    assert first == ReadRound(Received([], p), c) == Received([q[HEADER_LENGTH..]], []);
    assert c[..|c|] == c && [] + c == c;
    assert ReadRounds(p, c, 2) == ReadRound(first, c);
    TooMany(p, c, q);
  }

  lemma TooMany(p: seq<byte>, c: seq<byte>, q: seq<byte>)
    requires HasFrame(q) && FrameEnd(q) == |q| > |p| && (HasFrame(c) ==> FrameEnd(c) == |c|)
    ensures Parse(p + c) != if HasFrame(c) then Received([q[HEADER_LENGTH..], c[HEADER_LENGTH..]], [])
                            else Received([q[HEADER_LENGTH..]], c)
  {
    hide HasFrame, Frame, Parse;
    FramesParse(p + c);
    FirstFrame(q);
    if HasFrame(c) {
      FirstFrame(c);
      FramesOfTwo(q[HEADER_LENGTH..], c[HEADER_LENGTH..]);
    } else {
      FramesPrepend(q[HEADER_LENGTH..], [], c);
      assert [q[HEADER_LENGTH..]] + [] == [q[HEADER_LENGTH..]];
    }
  }

  lemma FramesOfTwo(a: seq<byte>, b: seq<byte>)
    ensures Frames([a, b]) + [] == Frame(a) + Frame(b)
  {
    assert [a, b][1..] == [b] && Frames([b]) == Frame(b) + Frames([]) == Frame(b);
  }
}
