/** What the engine does with each received Ethernet frame (the frame handler in src/usb_io.rs). */
module Dispatch {
  import opened Bytes
  import opened Wrappers
  import opened Frame
  import opened NetTypes
  import Arp

  const UTUN_BUF := ETH_BUF + 4

  /** Who we are on the link. */
  datatype Host = Host(mac: Mac, ip: Arp.Ip)

  datatype Outcome = Dropped | ArpIgnored | ArpAnswered(reply: seq<byte>) | Forwarded(pkt: seq<byte>)

  function Decide(frame: seq<byte>, me: Host): Outcome {
    if |frame| < ETH_HDR then Dropped
    else if ReadBe16(frame, 12) == Arp.ETHERTYPE then
      match Arp.Answer(frame, me.mac, me.ip)
      case None => ArpIgnored
      case Some(r) => ArpAnswered(r)
    else
      match UtunOf(frame, UTUN_BUF)
      case None => Dropped
      case Some(p) => Forwarded(p)
  }

  /** The utun packets forwarded for a list of frames, in order. */
  function Delivered(fs: seq<seq<byte>>, me: Host): seq<seq<byte>> {
    if fs == [] then []
    else
      var d := Decide(fs[|fs| - 1], me);
      Delivered(fs[..|fs| - 1], me) + if d.Forwarded? then [d.pkt] else []
  }

  /** The ARP replies owed for a list of frames, in order. */
  function Answers(fs: seq<seq<byte>>, me: Host): seq<seq<byte>> {
    if fs == [] then []
    else
      var d := Decide(fs[|fs| - 1], me);
      Answers(fs[..|fs| - 1], me) + if d.ArpAnswered? then [d.reply] else []
  }

  /** Frames that leave no trace but a possible gateway address. */
  function Silent(fs: seq<seq<byte>>, me: Host): nat {
    if fs == [] then 0
    else
      var d := Decide(fs[|fs| - 1], me);
      Silent(fs[..|fs| - 1], me) + if d.Dropped? || d.ArpIgnored? then 1 else 0
  }

  /** A frame the gateway address is learned from. */
  predicate Teaches(frame: seq<byte>) {
    |frame| >= ETH_HDR && frame[6] != 0xFF
  }

  /** The gateway address after a list of frames. */
  function Learned(gw: Mac, fs: seq<seq<byte>>): Mac {
    if fs == [] then gw
    else if Teaches(fs[|fs| - 1]) then fs[|fs| - 1][6..12]
    else Learned(gw, fs[..|fs| - 1])
  }

  lemma AppendOne(gw: Mac, fs: seq<seq<byte>>, f: seq<byte>, me: Host)
    ensures var d := Decide(f, me);
            && Delivered(fs + [f], me) == Delivered(fs, me) + (if d.Forwarded? then [d.pkt] else [])
            && Answers(fs + [f], me) == Answers(fs, me) + (if d.ArpAnswered? then [d.reply] else [])
            && Learned(gw, fs + [f]) == if Teaches(f) then f[6..12] else Learned(gw, fs)
  {
    assert (fs + [f])[..|fs + [f]| - 1] == fs;
  }

  lemma {:induction false} AppendAll(gw: Mac, a: seq<seq<byte>>, b: seq<seq<byte>>, me: Host)
    ensures Delivered(a + b, me) == Delivered(a, me) + Delivered(b, me)
    ensures Answers(a + b, me) == Answers(a, me) + Answers(b, me)
    ensures Learned(gw, a + b) == Learned(Learned(gw, a), b)
  {
    if b == [] {
      assert a + b == a;
    } else {
      AppendAll(gw, a, b[..|b| - 1], me);
      assert (a + b)[..|a + b| - 1] == a + b[..|b| - 1];
    }
  }

  /** Every frame has exactly one outcome: none is forwarded twice, answered twice or lost. */
  lemma {:induction false} Conservation(fs: seq<seq<byte>>, me: Host)
    ensures |Delivered(fs, me)| + |Answers(fs, me)| + Silent(fs, me) == |fs|
  {
    if fs != [] {
      Conservation(fs[..|fs| - 1], me);
    }
  }

  /** A frame is forwarded exactly when it is IPv4 or IPv6 and fits the utun buffer, and then its
      payload follows the address family unchanged. */
  lemma ForwardedIff(frame: seq<byte>, me: Host)
    ensures Decide(frame, me).Forwarded? <==>
            && 14 <= |frame| <= 2062
            && (frame[12..14] == [8, 0] || frame[12..14] == [0x86, 0xDD])
    ensures Decide(frame, me).Forwarded? ==> Decide(frame, me).pkt[4..] == frame[14..]
  {
    if |frame| >= 14 {
      assert frame[12..14] == [frame[12], frame[13]];
    }
  }

  /** The gateway address is the source of the last frame of at least 14 bytes, of whatever type, whose
      source does not start with 0xFF... */
  lemma {:induction false} LearnedLast(gw: Mac, fs: seq<seq<byte>>, j: nat)
    requires j < |fs| && |fs[j]| >= 14 && fs[j][6] != 0xFF
    requires forall k :: j < k < |fs| ==> |fs[k]| < 14 || fs[k][6] == 0xFF
    ensures Learned(gw, fs) == fs[j][6..12]
  {
    if j < |fs| - 1 {
      LearnedLast(gw, fs[..|fs| - 1], j);
    }
  }

  /** ...or stays what it was. */
  lemma {:induction false} LearnedNothing(gw: Mac, fs: seq<seq<byte>>)
    requires forall k :: 0 <= k < |fs| ==> |fs[k]| < 14 || fs[k][6] == 0xFF
    ensures Learned(gw, fs) == gw
  {
    if fs != [] {
      LearnedNothing(gw, fs[..|fs| - 1]);
    }
  }

  // ---- On the wire ----

  /** The outcome for a frame, by its Ethernet type in bytes. */
  lemma OutcomeOnWire(frame: seq<byte>, me: Host)
    ensures |frame| < 14 ==> Decide(frame, me) == Dropped
    ensures |frame| >= 14 ==>
              var t, ip := frame[12..14], frame[14..];
              Decide(frame, me) ==
              if t == [8, 6] then
                (match Arp.Answer(frame, me.mac, me.ip) case None => ArpIgnored case Some(r) => ArpAnswered(r))
              else if |frame| > 2062 then Dropped
              else if t == [8, 0] then Forwarded([0, 0, 0, 2] + ip)
              else if t == [0x86, 0xDD] then Forwarded([0, 0, 0, 30] + ip)
              else Dropped
  {
    hide Arp.Answer;
    if |frame| >= 14 {
      var dst, src := frame[..6], frame[6..12];
      assert frame == dst + src + [frame[12], frame[13]] + frame[14..];
      assert frame[12..14] == [frame[12], frame[13]];
      InOnWire(dst, src, frame[12], frame[13], frame[14..], 2052);
    }
  }
}
