/** Recognising DNS queries on the utun interface and building their replies (src/dns_proxy.rs). */
module DnsProxy {
  import opened Bytes
  import opened Wrappers
  import opened Checksum

  const UDP := 17
  const DNS_PORT := 53

  /** Where the UDP header starts, by the IP header length field. */
  function UdpStart(pkt: seq<byte>): nat
    requires |pkt| >= 5
  {
    4 + pkt[4] % 16 * 4
  }

  /** `is_dns_to_gateway`: the length of the query carried, if this is one of our DNS queries. */
  function QueryLen(pkt: seq<byte>, ourIp: Quad): (n: Option<nat>) {
    if |pkt| < 44 then None
    else if ReadBe32(pkt, 0) != 2 then None
    else if pkt[4] / 16 != 4 then None
    else if |pkt| < UdpStart(pkt) + 8 then None
    else if pkt[13] != UDP then None
    else if pkt[16..20] != ourIp then None
    else if ReadBe16(pkt, UdpStart(pkt) + 2) != DNS_PORT then None
    else Some(|pkt| - (UdpStart(pkt) + 8))
  }

  /** What `build_reply` reads is there. */
  predicate Replyable(pkt: seq<byte>) {
    |pkt| >= 24 && UdpStart(pkt) + 4 <= |pkt|
  }

  /** Every recognised packet can be replied to, and its query is what follows the UDP header. */
  lemma RecognisedIsReplyable(pkt: seq<byte>, ourIp: Quad)
    requires QueryLen(pkt, ourIp).Some?
    ensures Replyable(pkt)
    ensures var n := QueryLen(pkt, ourIp).value;
            n <= |pkt| && pkt[|pkt| - n..] == pkt[UdpStart(pkt) + 8..]
  {
  }

  /** An IPv4 packet on the utun interface: a header with any options, ports, and a payload. */
  function Datagram(proto: byte, src: Quad, dst: Quad, opts: seq<byte>, srcPort: nat, dstPort: nat,
                    payload: seq<byte>): seq<byte>
    requires |opts| % 4 == 0 && |opts| <= 40 && srcPort < U16 && dstPort < U16
  {
    [0, 0, 0, 2] + [0x45 + |opts| / 4, 0] + Low16(28 + |opts| + |payload|) + [0, 0, 0, 0, 64, proto, 0, 0] + src + dst
    + opts + Be16(srcPort) + Be16(dstPort) + Low16(8 + |payload|) + [0, 0] + payload
  }

  /** The fields of a datagram, where they are. */
  lemma DatagramFields(proto: byte, src: Quad, dst: Quad, opts: seq<byte>, srcPort: nat, dstPort: nat, payload: seq<byte>)
    requires |opts| % 4 == 0 && |opts| <= 40 && srcPort < U16 && dstPort < U16
    ensures var p, u := Datagram(proto, src, dst, opts, srcPort, dstPort, payload), 24 + |opts|;
            && |p| == u + 8 + |payload| && ReadBe32(p, 0) == 2 && p[4] == 0x45 + |opts| / 4 && p[13] == proto
            && p[16..20] == src && p[20..24] == dst
            && p[u..u + 2] == Be16(srcPort) && p[u + 2..u + 4] == Be16(dstPort) && p[u + 8..] == payload
  {
    hide Low16, Be16;
    var p := Datagram(proto, src, dst, opts, srcPort, dstPort, payload);
    var head := [0, 0, 0, 2] + [0x45 + |opts| / 4, 0] + Low16(28 + |opts| + |payload|)
                + [0, 0, 0, 0, 64, proto, 0, 0] + src + dst;
    var udp := Be16(srcPort) + Be16(dstPort) + Low16(8 + |payload|) + [0, 0] + payload;
    assert p == head + opts + udp;
    assert p[..24] == head && p[24 + |opts|..] == udp;
    assert p[4] == head[4] && p[13] == head[13] && p[16..20] == head[16..20] && p[20..24] == head[20..24];
    var u := 24 + |opts|;
    assert p[u..u + 2] == udp[0..2] && p[u + 2..u + 4] == udp[2..4] && p[u + 8..] == udp[8..];
  }

  /** Against the sender's side: a datagram that has, with its family word, at least 44 bytes is recognised
      exactly when it is protocol 17 to port 53 from our address, whatever its IP options, and the query
      found is its payload. */
  lemma RecognisesIff(proto: byte, src: Quad, dst: Quad, opts: seq<byte>, srcPort: nat, dstPort: nat,
                      payload: seq<byte>, ourIp: Quad)
    requires |opts| % 4 == 0 && |opts| <= 40 && srcPort < U16 && dstPort < U16
    ensures var p := Datagram(proto, src, dst, opts, srcPort, dstPort, payload);
            && QueryLen(p, ourIp) ==
               (if 32 + |opts| + |payload| >= 44 && proto == 17 && src == ourIp && dstPort == 53 then Some(|payload|)
                else None)
            && UdpStart(p) == 24 + |opts| && p[UdpStart(p) + 8..] == payload
            && Replyable(p) && SrcIp(p) == src && DstIp(p) == dst
            && SrcPort(p) == Be16(srcPort) && DstPort(p) == Be16(dstPort)
  {
    hide Datagram, Be16, ReadBe16, ReadBe32;
    var p := Datagram(proto, src, dst, opts, srcPort, dstPort, payload);
    DatagramFields(proto, src, dst, opts, srcPort, dstPort, payload);
    assert p[4] % 16 == 5 + |opts| / 4 && p[4] / 16 == 4;
    PortOf(p, 24 + |opts| + 2, dstPort);
  }

  /** Nothing shorter, of another family or of another IP version is recognised. */
  lemma OthersNotRecognised(pkt: seq<byte>, ourIp: Quad)
    requires |pkt| < 44 || pkt[..4] != [0, 0, 0, 2] || !(0x40 <= pkt[4] < 0x50)
    ensures QueryLen(pkt, ourIp) == None
  {
    if |pkt| >= 44 {
      assert pkt[..4] == [pkt[0], pkt[1], pkt[2], pkt[3]];
    }
  }

  lemma PortOf(p: seq<byte>, at: nat, v: nat)
    requires at + 2 <= |p| && v < U16 && p[at..at + 2] == Be16(v)
    ensures ReadBe16(p, at) == v
  {
    var t := p[at..at + 2];
    assert p[at] == t[0] && p[at + 1] == t[1];
  }

  function SrcIp(pkt: seq<byte>): Quad requires |pkt| >= 24 { pkt[16..20] }
  function DstIp(pkt: seq<byte>): Quad requires |pkt| >= 24 { pkt[20..24] }

  function SrcPort(pkt: seq<byte>): (p: seq<byte>)
    requires Replyable(pkt)
    ensures |p| == 2
  {
    pkt[UdpStart(pkt)..UdpStart(pkt) + 2]
  }

  function DstPort(pkt: seq<byte>): (p: seq<byte>)
    requires Replyable(pkt)
    ensures |p| == 2
  {
    pkt[UdpStart(pkt) + 2..UdpStart(pkt) + 4]
  }

  /** A reply's IP header before its checksum is stored. */
  function BareHeader(len: nat, src: Quad, dst: Quad): (h: seq<byte>)
    ensures |h| == 20 && Word(h, 5) == 0
  {
    [0x45, 0x00] + Low16(20 + 8 + len) + [0, 0, 0, 0, 64, UDP, 0, 0] + src + dst
  }

  function IpHeader(len: nat, src: Quad, dst: Quad): (h: seq<byte>)
    ensures |h| == 20
  {
    var bare := BareHeader(len, src, dst);
    SetWord(bare, 5, Rfc1071(bare))
  }

  function UdpHeader(len: nat, srcPort: seq<byte>, dstPort: seq<byte>): seq<byte> {
    srcPort + dstPort + Low16(8 + len) + [0, 0]
  }

  /** The reply to `orig`: everything swapped, the response behind it. */
  function Reply(orig: seq<byte>, resp: seq<byte>): seq<byte>
    requires Replyable(orig)
  {
    orig[..4] + IpHeader(|resp|, DstIp(orig), SrcIp(orig))
    + UdpHeader(|resp|, DstPort(orig), SrcPort(orig)) + resp
  }

  /** The first half: the address family, then the IP header, summed and patched in place. */
  method PushIpHeader(orig: seq<byte>, len: nat) returns (out: seq<byte>)
    requires |orig| >= 24
    ensures out == orig[..4] + IpHeader(len, DstIp(orig), SrcIp(orig))
  {
    hide IpHeader, BareHeader, Low16;
    var ipTotal := 20 + 8 + len;
    out := orig[..4];
    out := out + [0x45];
    out := out + [0x00];
    out := out + Low16(ipTotal);
    out := out + [0, 0, 0, 0, 64, UDP];
    out := out + [0, 0];
    out := out + orig[20..24];
    out := out + orig[16..20];
    ghost var bare := BareHeader(len, DstIp(orig), SrcIp(orig));
    HeaderPushed(orig[..4], len, DstIp(orig), SrcIp(orig));
    var start := |out| - 20;
    assert out[start..start + 20] == bare;
    var csum := IpChecksum(out[start..start + 20]);
    out := out[start + 10 := csum / 256];
    out := out[start + 11 := csum % 256];
    HeaderPatched(orig[..4], len, DstIp(orig), SrcIp(orig));
  }

  method BuildReply(orig: seq<byte>, resp: seq<byte>) returns (out: seq<byte>)
    requires Replyable(orig)
    ensures out == Reply(orig, resp)
  {
    hide IpHeader, UdpHeader, Low16;
    var udpStart := 4 + orig[4] % 16 * 4;
    out := PushIpHeader(orig, |resp|);
    out := out + orig[udpStart + 2..udpStart + 4];
    out := out + orig[udpStart..udpStart + 2];
    out := out + Low16(8 + |resp|);
    out := out + [0, 0];
    UdpPushed(orig[..4] + IpHeader(|resp|, DstIp(orig), SrcIp(orig)), |resp|, DstPort(orig), SrcPort(orig));
    out := out + resp;
  }

  lemma HeaderPushed(pre: seq<byte>, len: nat, src: Quad, dst: Quad)
    ensures pre + [0x45] + [0x00] + Low16(20 + 8 + len) + [0, 0, 0, 0, 64, UDP] + [0, 0] + src + dst
         == pre + BareHeader(len, src, dst)
  {
    hide Low16;
  }

  lemma HeaderPatched(pre: seq<byte>, len: nat, src: Quad, dst: Quad)
    requires |pre| == 4
    ensures var bare := BareHeader(len, src, dst);
            var c := Rfc1071(bare);
            (pre + bare)[14 := c / 256][15 := c % 256] == pre + IpHeader(len, src, dst)
  {
    hide Rfc1071, BareHeader;
  }

  lemma UdpPushed(pre: seq<byte>, len: nat, srcPort: seq<byte>, dstPort: seq<byte>)
    ensures pre + srcPort + dstPort + Low16(8 + len) + [0, 0] == pre + UdpHeader(len, srcPort, dstPort)
  {
    hide Low16;
  }

  /** Field by field: addresses and ports swapped, a plain 20-byte header, the response unchanged. */
  lemma ReplyFields(orig: seq<byte>, resp: seq<byte>)
    requires Replyable(orig)
    ensures var r := Reply(orig, resp);
            && |r| == 32 + |resp| && Replyable(r) && UdpStart(r) == 24
            && r[..4] == orig[..4] && r[4..24] == IpHeader(|resp|, DstIp(orig), SrcIp(orig))
            && r[13] == UDP
            && SrcIp(r) == DstIp(orig) && DstIp(r) == SrcIp(orig)
            && SrcPort(r) == DstPort(orig) && DstPort(r) == SrcPort(orig)
            && r[6..8] == Low16(28 + |resp|) && r[28..30] == Low16(8 + |resp|) && r[32..] == resp
  {
    var r := Reply(orig, resp);
    var h := IpHeader(|resp|, DstIp(orig), SrcIp(orig));
    var u := UdpHeader(|resp|, DstPort(orig), SrcPort(orig));
    HeaderFields(|resp|, DstIp(orig), SrcIp(orig));
    assert u[0..2] == DstPort(orig) && u[2..4] == SrcPort(orig) && u[4..6] == Low16(8 + |resp|);
    hide IpHeader, UdpHeader, Low16;
    FourParts(orig[..4], h, u, resp);
    SubSlice(r, 4, 24, 12, 16);
    SubSlice(r, 4, 24, 16, 20);
    SubSlice(r, 4, 24, 2, 4);
    SubSlice(r, 24, 32, 0, 2);
    SubSlice(r, 24, 32, 2, 4);
    SubSlice(r, 24, 32, 4, 6);
    assert r[4] == r[4..24][0] && r[13] == r[4..24][9];
  }

  lemma HeaderFields(len: nat, src: Quad, dst: Quad)
    ensures var h := IpHeader(len, src, dst);
            && h[0] == 0x45 && h[9] == UDP && h[2..4] == Low16(28 + len) && h[12..16] == src && h[16..20] == dst
  {
    hide Rfc1071, Low16;
  }

  /** The IP header of every reply verifies, by RFC 1071 and by the code's own loop. */
  lemma HeaderVerifies(orig: seq<byte>, resp: seq<byte>)
    requires Replyable(orig)
    ensures Rfc1071(Reply(orig, resp)[4..24]) == 0 == Wrapped(Reply(orig, resp)[4..24])
  {
    hide Rfc1071, Wrapped;
    ReplyFields(orig, resp);
    StoreVerifies(BareHeader(|resp|, DstIp(orig), SrcIp(orig)), 5);
    ExactWithinU32(Reply(orig, resp)[4..24]);
  }

  lemma Low16Exact(v: nat, s: seq<byte>, at: nat)
    requires at + 2 <= |s| && s[at..at + 2] == Low16(v)
    ensures ReadBe16(s, at) == v <==> v < U16
  {
    var t, q := s[at..at + 2], v / 256;
    assert s[at] == t[0] && s[at + 1] == t[1];
    assert v == 256 * q + v % 256 && q == 256 * (q / 256) + q % 256;
    assert v == 65536 * (q / 256) + ReadBe16(s, at);
  }

  /** The length fields are exact exactly up to the largest UDP payload an IPv4 packet can carry. */
  lemma LengthsExactIff(orig: seq<byte>, resp: seq<byte>)
    requires Replyable(orig)
    ensures var r := Reply(orig, resp);
            |r| == 32 + |resp|
            && (ReadBe16(r, 6) == |r| - 4 && ReadBe16(r, 28) == |r| - 24 <==> |resp| <= 65507)
  {
    var r := Reply(orig, resp);
    ReplyFields(orig, resp);
    Low16Exact(28 + |resp|, r, 6);
    Low16Exact(8 + |resp|, r, 28);
  }

  /** Replying to a reply turns it round again: three turns are one. */
  lemma ReplyInvolution(p: seq<byte>, a: seq<byte>, b: seq<byte>)
    requires Replyable(p)
    ensures Replyable(Reply(p, a)) && Replyable(Reply(Reply(p, a), b))
    ensures Reply(Reply(Reply(p, a), b), a) == Reply(p, a)
  {
    hide IpHeader, UdpHeader;
    ReplyFields(p, a);
    ReplyFields(Reply(p, a), b);
  }

  /** The reply to a recognised query comes from where it was sent, port 53, and goes to us, to the
      port that asked. */
  lemma ReplyToAsker(pkt: seq<byte>, ourIp: Quad, resp: seq<byte>)
    requires QueryLen(pkt, ourIp).Some?
    ensures Replyable(pkt)
    ensures var r := Reply(pkt, resp);
            && Replyable(r)
            && DstIp(r) == ourIp && SrcIp(r) == DstIp(pkt)
            && r[24..26] == [0, 53] && DstPort(r) == SrcPort(pkt)
  {
    RecognisedIsReplyable(pkt, ourIp);
    ReplyFields(pkt, resp);
    var r := Reply(pkt, resp);
    var u := UdpStart(pkt);
    assert SrcPort(r) == r[24..26] && r[24] == r[24..26][0] && r[25] == r[24..26][1];
    assert DstPort(pkt)[0] == pkt[u + 2] && DstPort(pkt)[1] == pkt[u + 3];
  }

  /** The reply byte by byte, as far as its lengths fit their fields. */
  lemma ReplyOnWire(orig: seq<byte>, resp: seq<byte>)
    requires Replyable(orig) && |resp| <= 65507
    ensures var n, u := |resp|, 4 + 4 * (orig[4] % 16);
            var head := [0x45, 0, (28 + n) / 256, (28 + n) % 256, 0, 0, 0, 0, 64, 17];
            var sum := Rfc1071(head + [0, 0] + orig[20..24] + orig[16..20]);
            Reply(orig, resp) ==
            orig[..4] + (head + [sum / 256, sum % 256] + orig[20..24] + orig[16..20])
            + (orig[u + 2..u + 4] + orig[u..u + 2] + [(8 + n) / 256, (8 + n) % 256] + [0, 0]) + resp
  {
    hide Rfc1071;
    var n := |resp|;
    assert Low16(28 + n) == [(28 + n) / 256, (28 + n) % 256] && Low16(8 + n) == [(8 + n) / 256, (8 + n) % 256];
    HeaderOnWire(n, DstIp(orig), SrcIp(orig));
    hide Low16, IpHeader;
  }

  lemma HeaderOnWire(n: nat, src: Quad, dst: Quad)
    requires n <= 65507
    ensures var head := [0x45, 0, (28 + n) / 256, (28 + n) % 256, 0, 0, 0, 0, 64, 17];
            var sum := Rfc1071(head + [0, 0] + src + dst);
            IpHeader(n, src, dst) == head + [sum / 256, sum % 256] + src + dst
  {
    hide Rfc1071;
    var head: seq<byte> := [0x45, 0, (28 + n) / 256, (28 + n) % 256, 0, 0, 0, 0, 64, 17];
    assert BareHeader(n, src, dst) == head + [0, 0] + src + dst;
  }
}
