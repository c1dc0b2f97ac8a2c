/** The whole tunnel: what the TX thread (src/main.rs) sends comes out of the receiving side. */
module Tunnel {
  import opened Bytes
  import opened Wrappers
  import opened Frame
  import opened NetTypes
  import opened Dispatch
  import Rndis

  /** A utun packet and the gateway address it is sent to. */
  datatype Outgoing = Outgoing(pkt: seq<byte>, gateway: Mac)

  /** The USB packet for one utun packet, unless it is dropped. */
  function WireOf(o: Outgoing, src: Mac): (w: Option<seq<byte>>)
    ensures w.Some? ==> |w.value| <= Rndis.HEADER + ETH_BUF
  {
    match EthOf(o.pkt, src, o.gateway, ETH_BUF)
    case None => None
    case Some(f) => Some(Rndis.DataPacket(f))
  }

  /** The forwarding half of the TX loop, over its two reused buffers. */
  method Forward(o: Outgoing, src: Mac, ebuf: array<byte>, rbuf: array<byte>)
    returns (w: Option<seq<byte>>)
    requires ebuf != rbuf && ebuf.Length == ETH_BUF && rbuf.Length == RNDIS_BUF
    modifies ebuf, rbuf
    ensures w == WireOf(o, src)
  {
    var elen := IpToEth(o.pkt, ebuf, src, o.gateway);
    if elen == 0 {
      return None;
    }
    var r := Rndis.BuildDataPacket(rbuf, ebuf[..elen]);
    match r {
      case Err(_) => return None;
      case Ok(rlen) => return Some(rbuf[..rlen]);
    }
  }

  /** All packets that are not dropped, concatenated into one transfer. */
  function Transfer(os: seq<Outgoing>, src: Mac): seq<byte> {
    if os == [] then []
    else (match WireOf(os[0], src) case None => [] case Some(w) => w) + Transfer(os[1..], src)
  }

  /** The USB packets for those that are not dropped, one by one. */
  function Wires(os: seq<Outgoing>, src: Mac): seq<seq<byte>> {
    if os == [] then []
    else Wires(os[..|os| - 1], src) + match WireOf(os[|os| - 1], src) case None => [] case Some(w) => [w]
  }

  function Join(ps: seq<seq<byte>>): seq<byte> {
    if ps == [] then [] else Join(ps[..|ps| - 1]) + ps[|ps| - 1]
  }

  lemma {:induction false} TransferConcat(a: seq<Outgoing>, b: seq<Outgoing>, src: Mac)
    ensures Transfer(a + b, src) == Transfer(a, src) + Transfer(b, src)
  {
    hide WireOf;
    if a == [] {
      assert a + b == b;
    } else {
      TransferConcat(a[1..], b, src);
      assert (a + b)[1..] == a[1..] + b;
    }
  }

  /** Submitted one by one or in one transfer, the bytes are the same. */
  lemma {:induction false} JoinWires(os: seq<Outgoing>, src: Mac)
    ensures Join(Wires(os, src)) == Transfer(os, src)
  {
    hide WireOf;
    if os != [] {
      var init, o := os[..|os| - 1], os[|os| - 1];
      JoinWires(init, src);
      TransferConcat(init, [o], src);
      assert os == init + [o] && [o][1..] == [];
      match WireOf(o, src) {
        case None => assert Wires(init, src) + [] == Wires(init, src);
        case Some(w) => assert (Wires(init, src) + [w])[..|Wires(init, src)|] == Wires(init, src);
      }
    }
  }

  predicate Fits(pkt: seq<byte>) {
    5 <= |pkt| <= ETH_BUF - 10 && EtherType(pkt).Some?
  }

  /** The packets that get through, each with its canonical address family. */
  function Expected(ps: seq<seq<byte>>): seq<seq<byte>> {
    if ps == [] then []
    else Passed(ps[0]) + Expected(ps[1..])
  }

  function Passed(p: seq<byte>): seq<seq<byte>> {
    if Fits(p) then [Canonical(p)] else []
  }

  function Packets(os: seq<Outgoing>): seq<seq<byte>> {
    seq(|os|, k requires 0 <= k < |os| => os[k].pkt)
  }

  lemma PacketsTail(os: seq<Outgoing>)
    requires os != []
    ensures Packets(os)[0] == os[0].pkt && Packets(os)[1..] == Packets(os[1..])
  {
  }

  lemma OneFrame(o: Outgoing, src: Mac, me: Host)
    requires Fits(o.pkt)
    ensures WireOf(o, src).Some? && Rndis.WellFramed(WireOf(o, src).value)
    ensures Delivered(Rndis.Frames(WireOf(o, src).value), me) == [Canonical(o.pkt)]
  {
    hide Rndis.Frames, Rndis.WellFramed, Rndis.DataPacket, Canonical, UtunOf, Arp.Answer;
    var f := EthOf(o.pkt, src, o.gateway, ETH_BUF).value;
    Rndis.ItemFrames(Rndis.Data(f));
    RoundTrip(o.pkt, src, o.gateway, ETH_BUF, UTUN_BUF);
    AppendOne(src, [], f, me);
    assert [] + [f] == [f];
  }

  lemma {:induction false} TransferWellFramed(os: seq<Outgoing>, src: Mac, me: Host)
    ensures Rndis.WellFramed(Transfer(os, src))
    ensures Delivered(Rndis.Frames(Transfer(os, src)), me) == Expected(Packets(os))
  {
    if os != [] {
      var rest := Transfer(os[1..], src);
      PacketsTail(os);
      TransferWellFramed(os[1..], src, me);
      if Fits(os[0].pkt) {
        OneFrame(os[0], src, me);
        var w := WireOf(os[0], src).value;
        Rndis.FramesConcat(w, rest);
        AppendAll(src, Rndis.Frames(w), Rndis.Frames(rest), me);
      } else {
        assert Transfer(os, src) == [] + rest == rest;
      }
    }
  }

  /** Transparency. Whatever packets enter, to whatever gateways: the ones that fit come out of the
      receiving side's dispatch in order, each exactly once, and nothing else does. */
  lemma Transparent(os: seq<Outgoing>, src: Mac, me: Host, padding: nat)
    ensures Delivered(Rndis.Frames(Transfer(os, src) + Zeros(padding)), me) == Expected(Packets(os))
  {
    TransferWellFramed(os, src, me);
    Rndis.ZerosStop(padding);
    Rndis.FramesConcat(Transfer(os, src), Zeros(padding));
    assert Rndis.Frames(Transfer(os, src)) + [] == Rndis.Frames(Transfer(os, src));
  }

  lemma OneTeaches(o: Outgoing, src: Mac, gw: Mac)
    requires Fits(o.pkt) && src[0] != 0xFF
    ensures WireOf(o, src).Some? && Rndis.WellFramed(WireOf(o, src).value)
    ensures Learned(gw, Rndis.Frames(WireOf(o, src).value)) == src
  {
    hide Rndis.Frames, Rndis.WellFramed, Rndis.DataPacket, Canonical, UtunOf;
    var f := EthOf(o.pkt, src, o.gateway, ETH_BUF).value;
    Rndis.ItemFrames(Rndis.Data(f));
    RoundTrip(o.pkt, src, o.gateway, ETH_BUF, UTUN_BUF);
    assert f[6] == f[6..12][0];
  }

  /** The gateway address learned from a peer's transfer is the peer's own source address. */
  lemma {:induction false} LearnsSender(os: seq<Outgoing>, src: Mac, gw: Mac, me: Host)
    requires src[0] != 0xFF
    ensures Learned(gw, Rndis.Frames(Transfer(os, src))) == if Expected(Packets(os)) == [] then gw else src
  {
    hide Rndis.Frames, Rndis.WellFramed, Learned, Canonical, Delivered;
    if os == [] {
      NoFrames(gw);
    } else {
      var rest := Transfer(os[1..], src);
      PacketsTail(os);
      if Fits(os[0].pkt) {
        OneTeaches(os[0], src, gw);
        var w := WireOf(os[0], src).value;
        Rndis.FramesConcat(w, rest);
        AppendAll(gw, Rndis.Frames(w), Rndis.Frames(rest), me);
        LearnsSender(os[1..], src, src, me);
      } else {
        assert Transfer(os, src) == [] + rest == rest;
        LearnsSender(os[1..], src, gw, me);
      }
    }
  }

  lemma NoFrames(gw: Mac)
    ensures Rndis.Frames([]) == [] && Learned(gw, []) == gw
  {
  }

  /** A packet that fits, of family 2 or 30. */
  predicate Plain(pkt: seq<byte>) {
    Fits(pkt) && (ReadBe32(pkt, 0) == AF_INET || ReadBe32(pkt, 0) == AF_INET6)
  }

  /** Such packets come back byte for byte. */
  lemma TransparentExactly(os: seq<Outgoing>, src: Mac, me: Host, padding: nat)
    requires forall o :: o in os ==> Plain(o.pkt)
    ensures Delivered(Rndis.Frames(Transfer(os, src) + Zeros(padding)), me) == Packets(os)
  {
    Transparent(os, src, me, padding);
    assert forall k :: 0 <= k < |os| ==> os[k] in os;
    ExpectedExactly(Packets(os));
  }

  lemma {:induction false} ExpectedExactly(ps: seq<seq<byte>>)
    requires forall p :: p in ps ==> Plain(p)
    ensures Expected(ps) == ps
  {
    if ps != [] {
      assert Plain(ps[0]);
      ExpectedExactly(ps[1..]);
      CanonicalIff(ps[0]);
    }
  }

  /** The USB packet for one utun packet, byte by byte: those of 5 to 2038 bytes that are IPv4 or IPv6. */
  lemma WireOnWire(o: Outgoing, src: Mac)
    ensures WireOf(o, src) ==
            if |o.pkt| < 5 || |o.pkt| > 2038 then None
            else if Four(o.pkt) then Some(Rndis.PacketBytes(o.gateway + src + [8, 0] + o.pkt[4..]))
            else if Six(o.pkt) then Some(Rndis.PacketBytes(o.gateway + src + [0x86, 0xDD] + o.pkt[4..]))
            else None
  {
    hide Rndis.PacketBytes, Rndis.DataPacket, Four, Six, EthOf;
    OutOnWire(o.pkt, src, o.gateway, 2048);
    match EthOf(o.pkt, src, o.gateway, 2048) {
      case None =>
      case Some(f) => Rndis.PacketOnWire(f);
    }
  }
}
