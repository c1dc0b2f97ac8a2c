/** The threads put together: the TX thread and the main loop (src/main.rs) feed the I/O engine
    (src/usb_io.rs) through the transmit channel, and what the engine submits, ARP replies in between, is
    received transfer by transfer by a peer that works as this engine does. */
module Pipeline {
  import opened Bytes
  import opened Wrappers
  import opened Frame
  import opened Dispatch
  import opened Tunnel
  import Arp
  import Rndis
  import opened Keepalive
  import U = UsbIo
  import T = TxThread

  /** The bytes of every transfer submitted, in order. */
  function Payloads(us: seq<U.Urb>): seq<seq<byte>> {
    seq(|us|, k requires 0 <= k < |us| => us[k].data)
  }

  // ---- ARP replies and keepalives deliver nothing ----

  ghost predicate Silenced(r: seq<byte>, peer: Host) {
    |r| == Arp.SIZE && !Decide(r, peer).Forwarded?
  }

  lemma {:induction false} AnswersAreIgnored(fs: seq<seq<byte>>, me: Host, peer: Host)
    ensures forall r :: r in Answers(fs, me) ==> Silenced(r, peer)
  {
    hide Arp.Answer, Arp.Reply;
    if fs != [] {
      AnswersAreIgnored(fs[..|fs| - 1], me, peer);
      var f := fs[|fs| - 1];
      if Decide(f, me).ArpAnswered? {
        AnswerIsIgnored(f, me, peer);
      }
    }
  }

  lemma AnswerIsIgnored(f: seq<byte>, me: Host, peer: Host)
    requires Decide(f, me).ArpAnswered?
    ensures Silenced(Decide(f, me).reply, peer)
  {
    Arp.AnswerMeaning(f, me.mac, me.ip, peer.mac, peer.ip);
    Arp.ReplyFields(me.mac, me.ip, f[22..28], f[28..32]);
  }

  lemma SilencedTransfer(r: seq<byte>, peer: Host)
    requires Silenced(r, peer)
    ensures Delivered(Rndis.Frames(Rndis.DataPacket(r)), peer) == []
  {
    hide Rndis.Frames, Rndis.DataPacket, Decide;
    Rndis.ItemFrames(Rndis.Data(r));
    AppendOne(peer.mac, [], r, peer);
    assert [] + [r] == [r];
  }

  lemma DeliveredNext(ts: seq<seq<byte>>, t: seq<byte>, peer: Host)
    ensures Delivered(U.FramesOf(ts + [t]), peer)
         == Delivered(U.FramesOf(ts), peer) + Delivered(Rndis.Frames(t), peer)
  {
    U.ReceivedAppend(ts, t);
    AppendAll(peer.mac, U.FramesOf(ts), Rndis.Frames(t), peer);
  }

  lemma NothingSubmitted()
    ensures Payloads([]) == U.Channelled([]) == []
  {
  }

  /** With the ARP replies or without them, the same packets are delivered. */
  lemma {:induction false} RepliesAddNothing(us: seq<U.Urb>, rs: seq<seq<byte>>, peer: Host)
    requires U.ArpOnly(us) == U.Wrapped(rs) && forall r :: r in rs ==> Silenced(r, peer)
    ensures Delivered(U.FramesOf(Payloads(us)), peer) == Delivered(U.FramesOf(U.Channelled(us)), peer)
  {
    hide Rndis.Frames, Rndis.DataPacket, Silenced, U.FramesOf, Delivered, U.ArpOnly, U.Channelled;
    if us == [] {
      NothingSubmitted();
    } else {
      var p, u := us[..|us| - 1], us[|us| - 1];
      assert us == p + [u];
      U.UrbAppend(p, u);
      assert Payloads(us) == Payloads(p) + [u.data];
      DeliveredNext(Payloads(p), u.data, peer);
      match u {
        case FromChannel(d) =>
          RepliesAddNothing(p, rs, peer);
          DeliveredNext(U.Channelled(p), d, peer);
        case FromArp(d) =>
          var k := |rs| - 1;
          assert |U.Wrapped(rs)| == |rs| && U.Wrapped(rs)[k] == d == Rndis.DataPacket(rs[k]);
          assert U.Wrapped(rs[..k]) == U.Wrapped(rs)[..k] == U.ArpOnly(p);
          RepliesAddNothing(p, rs[..k], peer);
          SilencedTransfer(rs[k], peer);
      }
    }
  }

  /** A channel's packets without the keepalives. */
  function Without(ps: seq<seq<byte>>, keepalive: seq<byte>): seq<seq<byte>> {
    if ps == [] then []
    else Without(ps[..|ps| - 1], keepalive) + if ps[|ps| - 1] == keepalive then [] else [ps[|ps| - 1]]
  }

  lemma {:induction false} KeepalivesAddNothing(ps: seq<seq<byte>>, r: seq<byte>, peer: Host)
    requires Silenced(r, peer)
    ensures Delivered(U.FramesOf(ps), peer) == Delivered(U.FramesOf(Without(ps, Rndis.DataPacket(r))), peer)
  {
    hide Rndis.Frames, Rndis.DataPacket, Silenced, U.FramesOf, Delivered;
    var k := Rndis.DataPacket(r);
    if ps != [] {
      var init, p := ps[..|ps| - 1], ps[|ps| - 1];
      assert ps == init + [p];
      KeepalivesAddNothing(init, r, peer);
      DeliveredNext(init, p, peer);
      if p == k {
        SilencedTransfer(r, peer);
        assert Without(ps, k) == Without(init, k) + [] == Without(init, k);
      } else {
        DeliveredNext(Without(init, k), p, peer);
      }
    }
  }

  lemma {:induction false} WithoutGrows(a: seq<seq<byte>>, b: seq<seq<byte>>, k: seq<byte>)
    requires a <= b
    ensures Without(a, k) <= Without(b, k)
  {
    if a != b {
      var init := b[..|b| - 1];
      assert a <= init;
      WithoutGrows(a, init, k);
    }
  }

  // ---- Transfer by transfer ----

  lemma {:induction false} ExpectedConcat(a: seq<seq<byte>>, b: seq<seq<byte>>)
    ensures Expected(a + b) == Expected(a) + Expected(b)
  {
    hide Passed;
    if a == [] {
      assert a + b == b;
    } else {
      var c := a + b;
      assert c[0] == a[0] && c[1..] == a[1..] + b;
      ExpectedConcat(a[1..], b);
    }
  }

  lemma ExpectedGrows(a: seq<seq<byte>>, b: seq<seq<byte>>)
    requires a <= b
    ensures Expected(a) <= Expected(b)
  {
    assert b == a + b[|a|..];
    ExpectedConcat(a, b[|a|..]);
  }

  lemma PacketsAppend(os: seq<Outgoing>, o: Outgoing)
    ensures Packets(os + [o]) == Packets(os) + [o.pkt]
  {
  }

  lemma ExpectedOne(p: seq<byte>)
    ensures Expected([p]) == if Fits(p) then [Canonical(p)] else []
  {
    assert [p][1..] == [];
  }

  /** Received one by one, the transfers of a list of packets deliver the ones that fit. */
  lemma {:induction false} WiresDeliver(os: seq<Outgoing>, src: Mac, peer: Host)
    ensures Delivered(U.FramesOf(Wires(os, src)), peer) == Expected(Packets(os))
  {
    hide Rndis.Frames, Rndis.WellFramed, Rndis.DataPacket, Canonical, Decide, EtherType;
    if os != [] {
      var p, o := os[..|os| - 1], os[|os| - 1];
      assert os == p + [o];
      WiresDeliver(p, src, peer);
      PacketsAppend(p, o);
      ExpectedConcat(Packets(p), [o.pkt]);
      ExpectedOne(o.pkt);
      hide Packets, Expected;
      if Fits(o.pkt) {
        OneFrame(o, src, peer);
        DeliveredNext(Wires(p, src), WireOf(o, src).value, peer);
      } else {
        assert WireOf(o, src).None?;
        assert Wires(os, src) == Wires(p, src) + [] == Wires(p, src);
        assert Expected(Packets(os)) == Expected(Packets(p)) + [] == Expected(Packets(p));
      }
    }
  }

  /** What has been taken so far are the transfers of the first packets. */
  lemma {:induction false} WiresPrefix(os: seq<Outgoing>, src: Mac, taken: seq<seq<byte>>) returns (n: nat)
    requires taken <= Wires(os, src)
    ensures n <= |os| && taken == Wires(os[..n], src)
    ensures taken == Wires(os, src) ==> n == |os|
  {
    hide WireOf;
    if taken == Wires(os, src) {
      n := |os|;
      assert os[..n] == os;
    } else {
      var p := os[..|os| - 1];
      n := WiresPrefix(p, src, taken);
      assert p[..n] == os[..n];
    }
  }

  /** The first transfers submitted, and the first ARP replies among them. */
  lemma {:induction false} LogPrefix(us: seq<U.Urb>, m: nat)
    requires m <= |us|
    ensures U.Channelled(us[..m]) <= U.Channelled(us) && U.ArpOnly(us[..m]) <= U.ArpOnly(us)
    ensures Payloads(us[..m]) == Payloads(us)[..m]
  {
    hide U.Channelled, U.ArpOnly;
    if m == |us| {
      assert us[..m] == us;
    } else {
      var p, u := us[..|us| - 1], us[|us| - 1];
      assert us == p + [u] && p[..m] == us[..m];
      LogPrefix(p, m);
      U.UrbAppend(p, u);
    }
  }

  /** What the first `m` transfers submitted deliver, while the engine is at work on the transfer `a`. */
  lemma PeerDelivers(io: U.UsbIo, a: seq<byte>, m: nat, peer: Host)
    requires io.RxUnder(a) && m <= |io.submitted|
    ensures Delivered(U.FramesOf(Payloads(io.submitted)[..m]), peer)
         == Delivered(U.FramesOf(U.Channelled(io.submitted[..m])), peer)
  {
    hide Delivered, Learned, U.FramesOf, U.Channelled, U.ArpOnly, Payloads, Silenced, Answers, Rndis.DataPacket,
         Rndis.Frames;
    var us, fs := io.submitted, U.FramesOf(io.received) + Rndis.Frames(a);
    var rs := Answers(fs, io.me);
    AnswersAreIgnored(fs, io.me, peer);
    LogPrefix(us, m);
    var j := |U.ArpOnly(us[..m])|;
    assert U.ArpOnly(us[..m]) == U.Wrapped(rs)[..j] == U.Wrapped(rs[..j]);
    RepliesAddNothing(us[..m], rs[..j], peer);
  }

  /** The packets of the channel that have been submitted are, but for the keepalives, the wire forms of
      the first packets the TX thread sent. */
  lemma Submitted(t: T.TxThread, io: U.UsbIo, taken: seq<seq<byte>>) returns (n: nat)
    requires t.sent == Wires(t.forwarded, t.mac) && io.TxUnder() && taken <= U.Channelled(io.submitted)
    requires Without(io.enqueued, KeepTransfer(io.me)) <= t.sent
    ensures n <= |t.forwarded| && Without(taken, KeepTransfer(io.me)) == Wires(t.forwarded[..n], t.mac)
    ensures taken == io.enqueued && Without(io.enqueued, KeepTransfer(io.me)) == t.sent ==> n == |t.forwarded|
  {
    hide Wires, U.Channelled, Without, KeepTransfer;
    WithoutGrows(taken, io.enqueued, KeepTransfer(io.me));
    n := WiresPrefix(t.forwarded, t.mac, Without(taken, KeepTransfer(io.me)));
  }

  /** What the first `m` transfers submitted deliver are the first packets kept that fit. */
  lemma DeliversKept(t: T.TxThread, io: U.UsbIo, a: seq<byte>, m: nat, peer: Host) returns (n: nat)
    requires t.sent == Wires(t.forwarded, t.mac) && io.TxUnder() && io.RxUnder(a) && m <= |io.submitted|
    requires Without(io.enqueued, KeepTransfer(io.me)) <= t.sent
    ensures n <= |t.forwarded|
    ensures Delivered(U.FramesOf(Payloads(io.submitted)[..m]), peer) == Expected(Packets(t.forwarded[..n]))
    ensures m == |io.submitted| && U.Channelled(io.submitted) == io.enqueued ==>
              Without(io.enqueued, KeepTransfer(io.me)) == t.sent ==> n == |t.forwarded|
  {
    hide Wires, Delivered, U.FramesOf, U.Channelled, U.ArpOnly, Payloads, Without, Silenced, Answers, Rndis.DataPacket,
         Rndis.Frames, Expected, Packets, KeepFrame;
    var taken := U.Channelled(io.submitted[..m]);
    PeerDelivers(io, a, m, peer);
    LogPrefix(io.submitted, m);
    KeepaliveSilenced(io.me, peer);
    KeepalivesAddNothing(taken, KeepFrame(io.me), peer);
    n := Submitted(t, io, taken);
    WiresDeliver(t.forwarded[..n], t.mac, peer);
    assert m == |io.submitted| ==> io.submitted[..m] == io.submitted;
  }

  lemma KeepaliveSilenced(me: Host, peer: Host)
    ensures Silenced(KeepFrame(me), peer)
  {
    KeepaliveIsSilent(me, peer);
  }

  /** The transfers the peer has taken up, the last one, if any, still at work on. */
  function TakenUp(received: seq<seq<byte>>, b: seq<byte>): seq<seq<byte>> {
    if b == [] then received else received + [b]
  }

  lemma TakenUpDeliver(peer: U.UsbIo, b: seq<byte>)
    requires peer.RxUnder(b)
    ensures peer.utun <= Delivered(U.FramesOf(TakenUp(peer.received, b)), peer.me)
  {
    hide Delivered, U.FramesOf, Answers, U.ArpOnly, U.Wrapped;
    if b == [] {
      assert Rndis.Frames(b) == [];
      assert U.FramesOf(peer.received) + [] == U.FramesOf(peer.received);
    } else {
      hide Rndis.Frames;
      U.ReceivedAppend(peer.received, b);
    }
  }

  /** Any moment: the TX thread between any two of its steps, a packet in hand or not; its packets and the
      keepalives in the channel in any order; the engine with a packet in hand or not, at work on the
      transfer `a`; transfers in flight; the peer at work on the transfer `b`. */
  ghost predicate Moment(t: T.TxThread, io: U.UsbIo, a: seq<byte>, peer: U.UsbIo, b: seq<byte>)
    reads t, io, peer
  {
    && t.Steady() && io.TxUnder() && io.RxUnder(a) && peer.RxUnder(b)
    && Without(io.enqueued, KeepTransfer(io.me)) <= t.sent
    && TakenUp(peer.received, b) <= Payloads(io.submitted)
  }

  /** Everything is through. */
  ghost predicate Quiet(t: T.TxThread, io: U.UsbIo, peer: U.UsbIo)
    reads t, io, peer
  {
    && t.Valid() && t.ioUp && io.TxValid() && io.queue == [] && peer.RxValid()
    && Without(io.enqueued, KeepTransfer(io.me)) == t.sent && peer.received == Payloads(io.submitted)
  }

  /** End to end, across all threads, at any moment. The packets the peer has written to its interface are
      the first of those the TX thread kept and that fit, in order, with canonical address families;
      nothing is lost, doubled, reordered or made up on the way, whatever ARP traffic went between. When
      everything is through they are all of them. */
  lemma EndToEnd(t: T.TxThread, io: U.UsbIo, a: seq<byte>, peer: U.UsbIo, b: seq<byte>)
    requires Moment(t, io, a, peer, b)
    ensures peer.utun <= Expected(T.Kept(t.decisions))
    ensures Quiet(t, io, peer) ==> peer.utun == Expected(T.Kept(t.decisions))
  {
    hide Wires, Expected, Delivered, Learned, U.FramesOf, U.Channelled, Payloads, Total, Packets, T.Kept, T.NonEmpty,
         T.Asked, T.S.Inv, KeepTransfer, Without, T.TxThread.Accounted;
    hide U.UsbIo.RxUnder, U.UsbIo.TxUnder;
    var ts := TakenUp(peer.received, b);
    PayloadCount(io);
    TakenUpDeliver(peer, b);
    assert ts == Payloads(io.submitted)[..|ts|];
    var n := DeliversKept(t, io, a, |ts|, peer.me);
    PacketsPrefix(t.forwarded, n);
    ExpectedGrows(Packets(t.forwarded[..n]), T.Kept(t.decisions));
    if Quiet(t, io, peer) {
      AllDelivered(t, io, a, peer);
    }
  }

  lemma AllDelivered(t: T.TxThread, io: U.UsbIo, a: seq<byte>, peer: U.UsbIo)
    requires t.Steady() && io.TxUnder() && io.RxUnder(a) && Quiet(t, io, peer)
    ensures peer.utun == Expected(T.Kept(t.decisions))
  {
    hide Wires, Expected, Delivered, Learned, U.FramesOf, U.Channelled, U.ArpOnly, U.Wrapped, Answers, Payloads, Total,
         Packets, T.Kept, T.NonEmpty, T.Asked, T.S.Inv, KeepTransfer, Without, Trues;
    PayloadCount(io);
    var m := |io.submitted|;
    assert Payloads(io.submitted)[..m] == peer.received && U.Channelled(io.submitted) == io.enqueued;
    var n := DeliversKept(t, io, a, m, peer.me);
    assert t.forwarded[..n] == t.forwarded;
  }

  lemma PayloadCount(io: U.UsbIo)
    ensures |Payloads(io.submitted)| == |io.submitted|
  {
  }

  lemma PacketsPrefix(os: seq<Outgoing>, n: nat)
    requires n <= |os|
    ensures Packets(os[..n]) <= Packets(os)
  {
  }

  lemma AllKept(t: T.TxThread)
    requires t.Steady() && !t.encrypted
    ensures T.Kept(t.decisions) == T.Asked(t.decisions)
  {
    hide T.Kept, T.Asked, T.NonEmpty, Wires, T.S.Packets, T.S.Delivered;
    T.KeptAll(t.decisions);
  }

  /** Without encrypted DNS this is from interface to interface, at any moment: the peer has written the
      first of the packets read from ours that fit. When everything is through, that is all of them: only
      a packet read after `running` was cleared is dropped. */
  lemma InterfaceToInterface(t: T.TxThread, io: U.UsbIo, a: seq<byte>, peer: U.UsbIo, b: seq<byte>)
    requires Moment(t, io, a, peer, b) && !t.encrypted
    ensures peer.utun <= Expected(T.NonEmpty(t.taken))
    ensures Quiet(t, io, peer) && t.running ==> peer.utun == Expected(T.NonEmpty(t.taken))
  {
    hide Expected, T.Kept, T.NonEmpty, T.Asked, Payloads, U.Channelled, U.ArpOnly, Wires, Packets, T.S.Inv, Without,
         KeepTransfer, U.FramesOf, Delivered, Answers, U.Wrapped;
    EndToEnd(t, io, a, peer, b);
    AllKept(t);
    ExpectedGrows(T.Asked(t.decisions), T.NonEmpty(t.taken));
    assert Quiet(t, io, peer) && t.running ==> T.NonEmpty(t.taken) == T.Asked(t.decisions);
  }
}
