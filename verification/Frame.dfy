/** Between utun packets (a 4-byte address family, then an IP packet) and Ethernet frames
    (src/frame.rs). */
module Frame {
  import opened Bytes
  import opened Wrappers

  const ETH_HDR := 14
  const AF_INET := 2
  const AF_INET6 := 30
  const IPV4 := 0x0800
  const IPV6 := 0x86DD

  type Mac = m: seq<byte> | |m| == 6 witness [0, 0, 0, 0, 0, 0]

  /** The Ethernet type for a utun packet: by address family, otherwise by IP version. */
  function EtherType(pkt: seq<byte>): (e: Option<nat>)
    requires |pkt| >= 5
    ensures e.Some? ==> e.value == IPV4 || e.value == IPV6
  {
    var af := ReadBe32(pkt, 0);
    if af == AF_INET then Some(IPV4)
    else if af == AF_INET6 then Some(IPV6)
    else if pkt[4] / 16 == 4 then Some(IPV4)
    else if pkt[4] / 16 == 6 then Some(IPV6)
    else None
  }

  /** The frame `ip_to_eth` puts into a buffer of `cap` bytes, if any. */
  function EthOf(pkt: seq<byte>, src: Mac, gateway: Mac, cap: nat): (f: Option<seq<byte>>)
    ensures f.Some? ==> |f.value| == |pkt| + 10 <= cap && |pkt| >= 5
  {
    if |pkt| < 5 || |pkt| + 10 > cap then None
    else match EtherType(pkt)
      case None => None
      case Some(e) => Some(gateway + src + Be16(e) + pkt[4..])
  }

  /** The utun packet `eth_to_utun` puts into a buffer of `cap` bytes, if any. */
  function UtunOf(frame: seq<byte>, cap: nat): (p: Option<seq<byte>>)
    ensures p.Some? ==> |p.value| + 10 == |frame| && |p.value| <= cap && |frame| >= ETH_HDR
  {
    if |frame| < ETH_HDR || |frame| - 10 > cap then None
    else if ReadBe16(frame, 12) == IPV4 then Some([0, 0, 0, 2] + frame[ETH_HDR..])
    else if ReadBe16(frame, 12) == IPV6 then Some([0, 0, 0, 30] + frame[ETH_HDR..])
    else None
  }

  method IpToEth(pkt: seq<byte>, buf: array<byte>, src: Mac, gateway: Mac) returns (n: nat)
    modifies buf
    ensures n == 0 <==> EthOf(pkt, src, gateway, buf.Length).None?
    ensures n == 0 ==> buf[..] == old(buf[..])
    ensures n > 0 ==> buf[..] == Splice(old(buf[..]), 0, EthOf(pkt, src, gateway, buf.Length).value)
    ensures n > 0 ==> n <= buf.Length && buf[..n] == EthOf(pkt, src, gateway, buf.Length).value
  {
    if |pkt| < 5 {
      return 0;
    }
    var af := ReadBe32(pkt, 0);
    var total := ETH_HDR + (|pkt| - 4);
    if total > buf.Length {
      return 0;
    }
    var etherType;
    if af == AF_INET {
      etherType := IPV4;
    } else if af == AF_INET6 {
      etherType := IPV6;
    } else {
      var ver := pkt[4] / 16;
      if ver == 4 {
        etherType := IPV4;
      } else if ver == 6 {
        etherType := IPV6;
      } else {
        return 0;
      }
    }
    Write(buf, 0, gateway + src + Be16(etherType));
    Write(buf, ETH_HDR, pkt[4..]);
    SpliceTwice(old(buf[..]), 0, gateway + src + Be16(etherType), pkt[4..]);
    return total;
  }

  method EthToUtun(frame: seq<byte>, buf: array<byte>) returns (n: nat)
    modifies buf
    ensures n == 0 <==> UtunOf(frame, buf.Length).None?
    ensures n == 0 ==> buf[..] == old(buf[..])
    ensures n > 0 ==> buf[..] == Splice(old(buf[..]), 0, UtunOf(frame, buf.Length).value)
    ensures n > 0 ==> n <= buf.Length && buf[..n] == UtunOf(frame, buf.Length).value
  {
    if |frame| < ETH_HDR {
      return 0;
    }
    var etherType := ReadBe16(frame, 12);
    var total := 4 + (|frame| - ETH_HDR);
    if total > buf.Length {
      return 0;
    }
    var af: seq<byte>;
    if etherType == IPV4 {
      af := [0, 0, 0, 2];
    } else if etherType == IPV6 {
      af := [0, 0, 0, 30];
    } else {
      return 0;
    }
    Write(buf, 0, af);
    Write(buf, 4, frame[ETH_HDR..]);
    SpliceTwice(old(buf[..]), 0, af, frame[ETH_HDR..]);
    return total;
  }

  /** `pkt` with its address family set to the one its Ethernet type stands for. */
  function Canonical(pkt: seq<byte>): (r: seq<byte>)
    requires |pkt| >= 5 && EtherType(pkt).Some?
    ensures |r| == |pkt|
  {
    (if EtherType(pkt) == Some(IPV4) then [0, 0, 0, 2] else [0, 0, 0, 30]) + pkt[4..]
  }

  /** Over the wire and back: the frame goes to the gateway from us, and only the address family can
      differ. */
  lemma RoundTrip(pkt: seq<byte>, src: Mac, gateway: Mac, cap: nat, back: nat)
    requires EthOf(pkt, src, gateway, cap).Some? && |pkt| <= back
    ensures UtunOf(EthOf(pkt, src, gateway, cap).value, back) == Some(Canonical(pkt))
    ensures EthOf(pkt, src, gateway, cap).value[0..6] == gateway && EthOf(pkt, src, gateway, cap).value[6..12] == src
  {
    var f := EthOf(pkt, src, gateway, cap).value;
    assert f[12..14] == Be16(EtherType(pkt).value);
    assert f[12] == f[12..14][0] && f[13] == f[12..14][1];
    assert f[ETH_HDR..] == pkt[4..];
  }

  /** A packet survives unchanged exactly when its address family is 2 or 30. */
  lemma CanonicalIff(pkt: seq<byte>)
    requires |pkt| >= 5 && EtherType(pkt).Some?
    ensures Canonical(pkt) == pkt <==> ReadBe32(pkt, 0) == AF_INET || ReadBe32(pkt, 0) == AF_INET6
    ensures Canonical(pkt)[4..] == pkt[4..]
    ensures EtherType(Canonical(pkt)) == EtherType(pkt)
  {
    var c := Canonical(pkt);
    assert pkt == pkt[..4] + pkt[4..] && c == c[..4] + c[4..];
    assert pkt[..4] == [pkt[0], pkt[1], pkt[2], pkt[3]];
    assert c[4..] == pkt[4..];
    assert ReadBe32(c, 0) == AF_INET || ReadBe32(c, 0) == AF_INET6;
  }

  /** The other way round: an IP frame that came in and goes out again keeps its type and its
      payload; only the MAC addresses are ours. */
  lemma ReturnTrip(frame: seq<byte>, src: Mac, gateway: Mac, cap: nat, back: nat)
    requires |frame| > ETH_HDR && UtunOf(frame, back).Some? && |frame| <= cap
    ensures EthOf(UtunOf(frame, back).value, src, gateway, cap) == Some(gateway + src + frame[12..])
  {
    var p := UtunOf(frame, back).value;
    assert p[4..] == frame[ETH_HDR..];
    var e := ReadBe16(frame, 12);
    assert EtherType(p) == Some(e);
    assert frame[12..] == Be16(e) + frame[ETH_HDR..];
    assert gateway + src + Be16(e) + p[4..] == gateway + src + frame[12..];
  }

  // ---- On the wire ----

  /** A utun packet is IPv4 by family 2, or by its version where the family says neither. */
  predicate Four(pkt: seq<byte>)
    requires |pkt| >= 5
  {
    pkt[..4] == [0, 0, 0, 2] || (pkt[..4] != [0, 0, 0, 30] && 0x40 <= pkt[4] < 0x50)
  }

  predicate Six(pkt: seq<byte>)
    requires |pkt| >= 5
  {
    pkt[..4] == [0, 0, 0, 30] || (pkt[..4] != [0, 0, 0, 2] && 0x60 <= pkt[4] < 0x70)
  }

  /** The frame sent for a packet, byte by byte. */
  lemma OutOnWire(pkt: seq<byte>, src: Mac, gateway: Mac, cap: nat)
    ensures EthOf(pkt, src, gateway, cap) ==
            if |pkt| < 5 || |pkt| + 10 > cap then None
            else if Four(pkt) then Some(gateway + src + [8, 0] + pkt[4..])
            else if Six(pkt) then Some(gateway + src + [0x86, 0xDD] + pkt[4..])
            else None
  {
    if |pkt| >= 5 {
      var f := pkt[..4];
      assert f == [f[0], f[1], f[2], f[3]];
      assert Be16(0x0800) == [8, 0] && Be16(0x86DD) == [0x86, 0xDD];
    }
  }

  /** The packet made of a frame: family 2 for Ethernet type 0x0800, 30 for 0x86DD, and nothing else. */
  lemma InOnWire(dst: Mac, src: Mac, a: byte, b: byte, ip: seq<byte>, cap: nat)
    ensures UtunOf(dst + src + [a, b] + ip, cap) ==
            if 4 + |ip| > cap then None
            else if a == 8 && b == 0 then Some([0, 0, 0, 2] + ip)
            else if a == 0x86 && b == 0xDD then Some([0, 0, 0, 30] + ip)
            else None
  {
    var f := dst + src + [a, b] + ip;
    assert f[12] == a && f[13] == b && f[14..] == ip;
  }
}
