/** The keepalive of the main loop (src/main.rs): an ARP request for 0.0.0.0, sent through the same
    channel as the packets of the TX thread. */
module Keepalive {
  import opened Bytes
  import opened Wrappers
  import opened Frame
  import opened NetTypes
  import opened Dispatch
  import Arp
  import Rndis

  const ALL_ONES: Mac := [0xFF, 0xFF, 0xFF, 0xFF, 0xFF, 0xFF]
  const NO_IP: Arp.Ip := [0, 0, 0, 0]

  function KeepFrame(me: Host): (f: seq<byte>)
    ensures |f| == Arp.SIZE
  {
    Arp.EthHeader(ALL_ONES, me.mac, Arp.ETHERTYPE) + Arp.Body(Arp.REQUEST, me.mac, me.ip, ALL_ONES, NO_IP)
  }

  /** What goes into the channel. */
  function KeepTransfer(me: Host): seq<byte> {
    Rndis.DataPacket(KeepFrame(me))
  }

  method BuildKeepalive(me: Host) returns (w: seq<byte>)
    ensures w == KeepTransfer(me)
  {
    hide Arp.EthHeader, Arp.Body, Rndis.DataPacket;
    var arpBuf, rndisBuf := new byte[ETH_BUF], new byte[RNDIS_BUF];
    Write(arpBuf, 0, Arp.EthHeader(ALL_ONES, me.mac, Arp.ETHERTYPE));
    Write(arpBuf, ETH_HDR, Arp.Body(Arp.REQUEST, me.mac, me.ip, ALL_ONES, NO_IP));
    assert arpBuf[..Arp.SIZE] == KeepFrame(me);
    var r := Rndis.BuildDataPacket(rndisBuf, arpBuf[..Arp.SIZE]);
    assert rndisBuf[..r.value] == KeepTransfer(me);
    w := rndisBuf[..r.value];
  }

  /** No host forwards it, and only one without an address answers it. */
  lemma KeepaliveIsSilent(me: Host, peer: Host)
    ensures Decide(KeepFrame(me), peer) ==
            if peer.ip == NO_IP then ArpAnswered(Arp.Reply(peer.mac, peer.ip, me.mac, me.ip)) else ArpIgnored
  {
    var f := KeepFrame(me);
    Arp.AnswersRequests(ALL_ONES, me.mac, me.ip, Arp.REQUEST, ALL_ONES, NO_IP, peer.mac, peer.ip);
    assert f[12..14] == Be16(Arp.ETHERTYPE) && f[12] == f[12..14][0] && f[13] == f[12..14][1];
    hide Arp.Answer, Arp.EthHeader, Arp.Body, Arp.Reply;
  }

  /** The keepalive, byte by byte. */
  lemma KeepaliveOnWire(me: Host)
    ensures KeepTransfer(me) ==
            [1, 0, 0, 0, 86, 0, 0, 0, 36, 0, 0, 0, 42, 0, 0, 0] + Zeros(28)
            + ([0xFF, 0xFF, 0xFF, 0xFF, 0xFF, 0xFF] + me.mac + [8, 6, 0, 1, 8, 0, 6, 4, 0, 1] + me.mac + me.ip
               + [0xFF, 0xFF, 0xFF, 0xFF, 0xFF, 0xFF] + [0, 0, 0, 0])
  {
    FrameOnWire(me);
    hide KeepFrame, Rndis.DataPacket, Zeros;
    Rndis.BuiltOnWire(KeepFrame(me));
  }

  lemma FrameOnWire(me: Host)
    ensures KeepFrame(me) ==
            [0xFF, 0xFF, 0xFF, 0xFF, 0xFF, 0xFF] + me.mac + [8, 6, 0, 1, 8, 0, 6, 4, 0, 1] + me.mac + me.ip
            + [0xFF, 0xFF, 0xFF, 0xFF, 0xFF, 0xFF] + [0, 0, 0, 0]
  {
  }
}
