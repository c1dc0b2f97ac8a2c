/** Answering ARP requests for our address (src/arp.rs). Addresses are kept in network order. */
module Arp {
  import opened Bytes
  import opened Wrappers
  import opened Frame

  const ETHERTYPE := 0x0806
  const REQUEST := 1
  const REPLY := 2
  const SIZE := 42

  type Ip = Quad

  function EthHeader(dst: Mac, src: Mac, etherType: nat): (h: seq<byte>)
    requires etherType < U16
    ensures |h| == ETH_HDR
  {
    dst + src + Be16(etherType)
  }

  /** An Ethernet/IPv4 ARP body. */
  function Body(op: nat, senderMac: Mac, senderIp: Ip, targetMac: Mac, targetIp: Ip): (b: seq<byte>)
    requires op < U16
    ensures |b| == SIZE - ETH_HDR
  {
    Be16(1) + Be16(0x0800) + [6, 4] + Be16(op) + senderMac + senderIp + targetMac + targetIp
  }

  /** The frame that tells `theirMac`/`theirIp` where `ourIp` is. */
  function Reply(ourMac: Mac, ourIp: Ip, theirMac: Mac, theirIp: Ip): (f: seq<byte>)
    ensures |f| == SIZE
  {
    EthHeader(theirMac, ourMac, ETHERTYPE) + Body(REPLY, ourMac, ourIp, theirMac, theirIp)
  }

  /** What `handle_request` answers, if anything. */
  function Answer(frame: seq<byte>, ourMac: Mac, ourIp: Ip): (r: Option<seq<byte>>)
    ensures r.Some? ==> |r.value| == SIZE
  {
    if |frame| >= SIZE && ReadBe16(frame, 12) == ETHERTYPE
       && ReadBe16(frame, 20) == REQUEST && frame[38..42] == ourIp
    then Some(Reply(ourMac, ourIp, frame[22..28], frame[28..32]))
    else None
  }

  method BuildReply(buf: array<byte>, ourMac: Mac, ourIp: Ip, theirMac: Mac, theirIp: Ip)
    returns (r: Result<nat>)
    modifies buf
    ensures buf.Length < SIZE ==> r == Err(BufferTooSmall(SIZE, buf.Length)) && buf[..] == old(buf[..])
    ensures buf.Length >= SIZE ==>
              r == Ok(SIZE) && buf[..] == Splice(old(buf[..]), 0, Reply(ourMac, ourIp, theirMac, theirIp))
  {
    if buf.Length < SIZE {
      return Err(BufferTooSmall(SIZE, buf.Length));
    }
    hide EthHeader, Body;
    var eth := EthHeader(theirMac, ourMac, ETHERTYPE);
    var arp := Body(REPLY, ourMac, ourIp, theirMac, theirIp);
    Write(buf, 0, eth);
    Write(buf, ETH_HDR, arp);
    SpliceTwice(old(buf[..]), 0, eth, arp);
    return Ok(SIZE);
  }

  method HandleRequest(frame: seq<byte>, buf: array<byte>, ourMac: Mac, ourIp: Ip)
    returns (r: Result<nat>)
    modifies buf
    ensures Answer(frame, ourMac, ourIp).None? ==> r == Ok(0) && buf[..] == old(buf[..])
    ensures Answer(frame, ourMac, ourIp).Some? && buf.Length < SIZE ==>
              r == Err(BufferTooSmall(SIZE, buf.Length)) && buf[..] == old(buf[..])
    ensures Answer(frame, ourMac, ourIp).Some? && buf.Length >= SIZE ==>
              r == Ok(SIZE) && buf[..SIZE] == Answer(frame, ourMac, ourIp).value
  {
    if |frame| < SIZE {
      return Ok(0);
    }
    if ReadBe16(frame, 12) != ETHERTYPE {
      return Ok(0);
    }
    var op := ReadBe16(frame, 20);
    var target := frame[38..42];
    if op == REQUEST && target == ourIp {
      r := BuildReply(buf, ourMac, ourIp, frame[22..28], frame[28..32]);
    } else {
      return Ok(0);
    }
  }

  /** The fields of a reply, read back at the offsets `handle_request` reads a request. */
  lemma ReplyFields(ourMac: Mac, ourIp: Ip, theirMac: Mac, theirIp: Ip)
    ensures var f := Reply(ourMac, ourIp, theirMac, theirIp);
            && ReadBe16(f, 12) == ETHERTYPE && ReadBe16(f, 20) == REPLY
            && f[0..6] == f[32..38] == theirMac && f[6..12] == f[22..28] == ourMac
            && f[28..32] == ourIp && f[38..42] == theirIp
  {
  }

  /** An answer goes to the asker, names the address asked for, and is itself answered by nobody. */
  lemma AnswerMeaning(frame: seq<byte>, ourMac: Mac, ourIp: Ip, anyMac: Mac, anyIp: Ip)
    requires Answer(frame, ourMac, ourIp).Some?
    ensures var r := Answer(frame, ourMac, ourIp).value;
            && r[0..6] == frame[22..28] && r[38..42] == frame[28..32]
            && r[22..28] == ourMac && r[28..32] == frame[38..42]
            && Answer(r, anyMac, anyIp).None?
  {
    ReplyFields(ourMac, ourIp, frame[22..28], frame[28..32]);
  }

  /** Against the sender's side: an ARP body from a peer is answered exactly when it is a request for
      our address, and the answer goes to that peer. */
  lemma AnswersRequests(dst: Mac, peer: Mac, peerIp: Ip, op: nat, asked: Mac, target: Ip, ourMac: Mac, ourIp: Ip)
    requires op < U16
    ensures var f := EthHeader(dst, peer, ETHERTYPE) + Body(op, peer, peerIp, asked, target);
            Answer(f, ourMac, ourIp) ==
            if op == REQUEST && target == ourIp then Some(Reply(ourMac, ourIp, peer, peerIp)) else None
  {
    var f := EthHeader(dst, peer, ETHERTYPE) + Body(op, peer, peerIp, asked, target);
    assert f[12..14] == Be16(ETHERTYPE) && f[20..22] == Be16(op);
    assert f[22..28] == peer && f[28..32] == peerIp && f[38..42] == target;
    assert f[12] == f[12..14][0] && f[13] == f[12..14][1] && f[20] == f[20..22][0] && f[21] == f[20..22][1];
  }

  // ---- On the wire ----

  /** A reply, byte by byte: Ethernet, hardware type 1, protocol type 0x0800, operation 2. */
  lemma ReplyOnWire(ourMac: Mac, ourIp: Ip, theirMac: Mac, theirIp: Ip)
    ensures Reply(ourMac, ourIp, theirMac, theirIp) ==
            theirMac + ourMac + [8, 6, 0, 1, 8, 0, 6, 4, 0, 2] + ourMac + ourIp + theirMac + theirIp
  {
  }

  /** The fields the code looks at, in any frame long enough. */
  lemma FieldsOnWire(head: seq<byte>, kind: seq<byte>, op: seq<byte>, peer: Mac, peerIp: Ip, asked: Mac, target: Ip,
                     padding: seq<byte>)
    requires |head| == 14 && |kind| == 6 && |op| == 2
    ensures var f := head + kind + op + peer + peerIp + asked + target + padding;
            && |f| >= 42 && f[12..14] == head[12..14] && f[20..22] == op
            && f[22..28] == peer && f[28..32] == peerIp && f[38..42] == target
  {
  }

  lemma NumberOnWire(f: seq<byte>, at: nat, a: byte, b: byte)
    requires at + 2 <= |f| && f[at..at + 2] == [a, b]
    ensures ReadBe16(f, at) == 256 * a + b
  {
    assert f[at] == f[at..at + 2][0] && f[at + 1] == f[at..at + 2][1];
  }

  /** A frame of Ethernet type 0x0806, whatever its other types say and however it is padded, is answered
      if and only if its operation is 1 and it asks for our address; the answer goes to the sender it names. */
  lemma RequestOnWire(dst: Mac, src: Mac, kind: seq<byte>, a: byte, b: byte, peer: Mac, peerIp: Ip, asked: Mac,
                      target: Ip, padding: seq<byte>, ourMac: Mac, ourIp: Ip)
    requires |kind| == 6
    ensures Answer(dst + src + [8, 6] + kind + [a, b] + peer + peerIp + asked + target + padding, ourMac, ourIp) ==
            if a == 0 && b == 1 && target == ourIp
            then Some(peer + ourMac + [8, 6, 0, 1, 8, 0, 6, 4, 0, 2] + ourMac + ourIp + peer + peerIp)
            else None
  {
    hide Reply, ReadBe16;
    var head := dst + src + [8, 6];
    assert head[12..14] == [8, 6];
    FieldsOnWire(head, kind, [a, b], peer, peerIp, asked, target, padding);
    var f := head + kind + [a, b] + peer + peerIp + asked + target + padding;
    NumberOnWire(f, 12, 8, 6);
    NumberOnWire(f, 20, a, b);
    ReplyOnWire(ourMac, ourIp, peer, peerIp);
  }

  /** No other frame is. */
  lemma OthersOnWire(f: seq<byte>, ourMac: Mac, ourIp: Ip)
    requires |f| < 42 || f[12..14] != [8, 6]
    ensures Answer(f, ourMac, ourIp) == None
  {
    if |f| >= 42 {
      assert f[12..14] == [f[12], f[13]];
    }
  }
}
