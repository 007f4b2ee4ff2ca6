/** Real packets on the stream: what the server session makes of packets that the builder made. */
module Exchange {
  import opened Bytes
  import opened Packets
  import opened Sessions
  import opened ClientMessages
  import opened PacketCheck
  import FlatBuilder
  import FlatVerifier

  /** A request to connect, in a builder of its own. */
  method NewConnectPacket(serverId: int) returns (packet: seq<byte>, ghost p: nat)
    requires -0x8000 <= serverId < 0x8000
    ensures VerifyPacketBuffer(packet) && 4 <= |packet| <= 0x2_0100 && ConnectReads(packet, p, serverId)
    ensures serverId != -1 ==> |packet| == 40
  {
    hide ConnectReads, FlatVerifier.VerifyBuffer, FlatVerifier.IsSchema;
    var b := new FlatBuilder.FlatBufferBuilder();
    packet, p := ConnectServerPacket(b, serverId);
    ghost var c := FlatVerifier.Config(packet, 64, 1000000, true);
    assert FlatVerifier.VerifyBuffer(c, CLIENT, PACKET, None, 0).ok;
  }

  /** What a packet says is one thing. */
  lemma OneServer(packet: seq<byte>, p: nat, serverId: int, q: nat, other: int)
    requires 4 <= |packet| && -0x8000 <= serverId < 0x8000 && -0x8000 <= other < 0x8000
    requires ConnectReads(packet, p, serverId) && ConnectReads(packet, q, other)
    ensures serverId == other
  {
    assert p == q;
  }

  /** Requests to connect to two servers, arriving in one piece: each verifies, yet the session does not
      handle the two of them.  Unless a server has the number that is the default, it handles the first twice. */
  method TwoConnects(x: int, y: int) returns (a: seq<byte>, b: seq<byte>, handled: seq<seq<byte>>)
    requires -0x8000 <= x < 0x8000 && -0x8000 <= y < 0x8000 && x != y
    ensures VerifyPacketBuffer(a) && VerifyPacketBuffer(b) && Parse(Frame(a) + Frame(b)) == Received([a, b], [])
    ensures handled != [a, b] && (x != -1 && y != -1 ==> handled == [a, a])
  {
    hide VerifyPacketBuffer, ConnectReads, HasFrame, Parse;
    ghost var p, q;
    a, p := NewConnectPacket(x);
    b, q := NewConnectPacket(y);
    if a == b {
      OneServer(a, p, x, q, y);
    }
    NothingPending();
    SecondPacketLost(a, b, VerifyPacketBuffer);
    var session := new ClientSession(VerifyPacketBuffer);
    session.OnReceivePacket(Frame(a) + Frame(b));
    handled := session.handled;
  }

  /** The same requests, each in a piece of its own, are both handled. */
  method TwoPieces(x: int, y: int) returns (a: seq<byte>, b: seq<byte>, handled: seq<seq<byte>>)
    requires -0x8000 <= x < 0x8000 && -0x8000 <= y < 0x8000
    ensures VerifyPacketBuffer(a) && VerifyPacketBuffer(b) && handled == [a, b]
  {
    hide VerifyPacketBuffer, ConnectReads, HasFrame, Parse, Session;
    ghost var p, q;
    a, p := NewConnectPacket(x);
    b, q := NewConnectPacket(y);
    NothingPending();
    var session := new ClientSession(VerifyPacketBuffer);
    OnePacketHandled(a, VerifyPacketBuffer);
    session.OnReceivePacket(Frame(a));
    OnePacketHandled(b, VerifyPacketBuffer);
    session.OnReceivePacket(Frame(b));
    handled := session.handled;
  }
}
