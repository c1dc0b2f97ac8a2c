/** The USB I/O engine (src/usb_io.rs): receive buffers, the transmit queue and the counters.

    The device and the other threads are the environment: what each poll of an endpoint will find,
    what is sent into the transmit channel between two looks at it, and whether somebody has cleared
    `running` at each look at that, are scripts of any length, given beforehand. */
module UsbIo {
  import opened Bytes
  import opened Wrappers
  import opened Frame
  import opened NetTypes
  import opened Dispatch
  import Arp
  import Rndis

  const NUM_RX_BUFS := 16
  const MAX_OUT_URBS := 32
  const CHANNEL_CAP := 4096

  /** A finished IN transfer: an error, or the bytes received. */
  datatype Completion = Failed | Received(data: seq<byte>)

  /** A submitted OUT transfer, by where it came from. */
  datatype Urb = FromChannel(data: seq<byte>) | FromArp(data: seq<byte>)

  function Channelled(us: seq<Urb>): seq<seq<byte>> {
    if us == [] then []
    else Channelled(us[..|us| - 1]) + (if us[|us| - 1].FromChannel? then [us[|us| - 1].data] else [])
  }

  function ArpOnly(us: seq<Urb>): (r: seq<seq<byte>>)
    ensures |r| + |Channelled(us)| == |us|
  {
    if us == [] then []
    else ArpOnly(us[..|us| - 1]) + (if us[|us| - 1].FromArp? then [us[|us| - 1].data] else [])
  }

  lemma UrbAppend(us: seq<Urb>, u: Urb)
    ensures Channelled(us + [u]) == if u.FromChannel? then Channelled(us) + [u.data] else Channelled(us)
    ensures ArpOnly(us + [u]) == if u.FromArp? then ArpOnly(us) + [u.data] else ArpOnly(us)
  {
    assert (us + [u])[..|us|] == us;
    assert Channelled(us) + [] == Channelled(us) && ArpOnly(us) + [] == ArpOnly(us);
  }

  /** The bytes received in a row of polls of the IN endpoint, in order. */
  function DataOf(ps: seq<Option<Completion>>): seq<seq<byte>> {
    if ps == [] then []
    else DataOf(ps[..|ps| - 1]) + DataIn(ps[|ps| - 1])
  }

  function DataIn(p: Option<Completion>): seq<seq<byte>> {
    if p.Some? && p.value.Received? then [p.value.data] else []
  }

  /** The failed completions in it. */
  function Failures(ps: seq<Option<Completion>>): nat {
    if ps == [] then 0
    else Failures(ps[..|ps| - 1]) + if ps[|ps| - 1] == Some(Failed) then 1 else 0
  }

  lemma PollAppend(ps: seq<Option<Completion>>, p: Option<Completion>)
    ensures DataOf(ps + [p]) == DataOf(ps) + DataIn(p)
    ensures Failures(ps + [p]) == Failures(ps) + if p == Some(Failed) then 1 else 0
  {
    assert (ps + [p])[..|ps|] == ps;
  }

  /** All frames of all transfers received. */
  function FramesOf(ts: seq<seq<byte>>): seq<seq<byte>> {
    if ts == [] then [] else FramesOf(ts[..|ts| - 1]) + Rndis.Frames(ts[|ts| - 1])
  }

  /** The USB packets that carry a list of ARP replies. */
  function Wrapped(rs: seq<seq<byte>>): seq<seq<byte>> {
    seq(|rs|, k requires 0 <= k < |rs| => Rndis.DataPacket(rs[k]))
  }

  function Max(a: nat, b: nat): nat {
    if a > b then a else b
  }

  lemma Prefix(fs: seq<seq<byte>>, k: nat)
    requires k < |fs|
    ensures fs[..k + 1] == fs[..k] + [fs[k]] && fs[..k + 1] <= fs
  {
  }

  lemma Prefixes(fs: seq<seq<byte>>)
    ensures fs[..0] == [] && fs[..|fs|] == fs
  {
  }

  lemma EmptyFold(gw: Mac, me: Host)
    ensures Delivered([], me) == [] && Answers([], me) == [] && Learned(gw, []) == gw && Total([]) == 0
  {
  }

  /** A forwarded frame is 10 bytes longer than its utun packet. */
  lemma ForwardedLength(before: seq<seq<byte>>, frame: seq<byte>, me: Host)
    ensures var d := Decide(frame, me);
            Total(before + (if d.Forwarded? then [d.pkt] else [])) + (if d.Forwarded? then 10 else 0)
            == Total(before) + (if d.Forwarded? then |frame| else 0)
  {
    hide Total;
    var d := Decide(frame, me);
    if d.Forwarded? {
      TotalGrows(before, [d.pkt]);
      TotalOne(d.pkt);
    } else {
      assert before + [] == before;
    }
  }

  lemma ReceivedAppend(ts: seq<seq<byte>>, t: seq<byte>)
    ensures FramesOf(ts + [t]) == FramesOf(ts) + Rndis.Frames(t)
  {
    assert (ts + [t])[..|ts|] == ts;
  }

  lemma EmptyTransfer(ts: seq<seq<byte>>)
    ensures FramesOf(ts + [[]]) == FramesOf(ts)
  {
    ReceivedAppend(ts, []);
    assert FramesOf(ts) + [] == FramesOf(ts);
  }

  lemma WrappedConcat(a: seq<seq<byte>>, b: seq<seq<byte>>)
    ensures Wrapped(a + b) == Wrapped(a) + Wrapped(b)
  {
  }

  lemma WrappedPrefix(rs: seq<seq<byte>>, k: nat)
    requires k <= |rs|
    ensures Wrapped(rs[..k]) <= Wrapped(rs)
  {
    hide Rndis.DataPacket;
  }

  /** Wrapped one by one. */
  lemma WrappedAppend(rs: seq<seq<byte>>)
    ensures Wrapped(rs[..0]) == [] && rs[..|rs|] == rs
    ensures forall k :: 0 <= k < |rs| ==> Wrapped(rs[..k + 1]) == Wrapped(rs[..k]) + [Rndis.DataPacket(rs[k])]
  {
    hide Rndis.DataPacket;
  }

  /** Part of the frames of a transfer give part of what is delivered for all. */
  lemma PartDelivered(fs: seq<seq<byte>>, part: seq<seq<byte>>, all: seq<seq<byte>>, me: Host)
    requires part <= all
    ensures Delivered(fs, me) <= Delivered(fs, me) + Delivered(part, me) <= Delivered(fs + all, me)
  {
    hide Delivered, Answers, Learned;
    AppendAll(me.mac, fs, all, me);
    AppendAll(me.mac, part, all[|part|..], me);
    assert all == part + all[|part|..];
  }

  lemma {:induction false} AnswerSizes(fs: seq<seq<byte>>, me: Host)
    ensures forall r :: r in Answers(fs, me) ==> |r| == Arp.SIZE
  {
    if fs != [] {
      AnswerSizes(fs[..|fs| - 1], me);
    }
  }

  /** Sending the head of the queue keeps sent-then-queued equal to everything enqueued. */
  lemma Fifo<T>(sent: seq<T>, queue: seq<T>, more: seq<T>, head: seq<T>, rest: seq<T>)
    requires queue + more == head + rest
    ensures (sent + head) + rest == (sent + queue) + more
  {
    assert (sent + head) + rest == sent + (head + rest);
    assert (sent + queue) + more == sent + (queue + more);
  }

  function SaturatingSub(a: nat, b: nat): nat {
    if a < b then 0 else a - b
  }

  class UsbIo {
    const me: Host
    const firstGateway: Mac
    ghost const script: seq<Option<Completion>>
    ghost const flagScript: seq<bool>

    // the endpoints, and what their next polls will find
    var inPending: nat
    var outPending: nat
    var polls: seq<Option<Completion>>
    var outPolls: seq<bool>
    // the transmit channel, and what the other threads have yet to send into it
    var queue: seq<seq<byte>>
    var arrivals: seq<seq<seq<byte>>>
    // shared with the other threads
    var txPkts: nat
    var txBytes: nat
    var rxPkts: nat
    var rxBytes: nat
    var gatewayMac: Mac
    var utun: seq<seq<byte>>
    var running: bool
    var deviceGone: bool
    var flags: seq<bool>

    // history
    ghost var polled: seq<Option<Completion>>
    ghost var outPolled: seq<bool>
    ghost var seen: seq<bool>
    ghost var enqueued: seq<seq<byte>>
    ghost var submitted: seq<Urb>
    ghost var outDone: nat
    ghost var received: seq<seq<byte>>
    ghost var lost: nat

    constructor (me: Host, gateway: Mac, polls: seq<Option<Completion>>, outPolls: seq<bool>,
                 arrivals: seq<seq<seq<byte>>>, flags: seq<bool>)
      ensures this.me == me && firstGateway == gateway && script == polls && flagScript == flags
      ensures this.outPolls == outPolls && this.arrivals == arrivals
      ensures Fresh()
    {
      this.me, this.firstGateway, this.gatewayMac := me, gateway, gateway;
      this.script, this.flagScript := polls, flags;
      this.polls, this.outPolls, this.arrivals, this.flags := polls, outPolls, arrivals, flags;
      inPending, outPending, queue, utun := 0, 0, [], [];
      txPkts, txBytes, rxPkts, rxBytes := 0, 0, 0, 0;
      running, deviceGone := true, false;
      polled, outPolled, seen, enqueued, submitted, outDone, received, lost := [], [], [], [], [], 0, [], 0;
    }

    ghost predicate Fresh()
      reads this
    {
      && inPending == 0 && outPending == 0 && queue == [] && utun == []
      && txPkts == 0 && txBytes == 0 && rxPkts == 0 && rxBytes == 0
      && gatewayMac == firstGateway && running && !deviceGone
      && polls == script && polled == [] && outPolled == [] && flags == flagScript && seen == []
      && enqueued == [] && submitted == [] && outDone == 0 && received == [] && lost == 0
    }

    /** Nothing queued is lost, duplicated or reordered; the counters count what was submitted;
        every OUT transfer is pending or done; only ARP replies exceed the 32-URB limit. */
    ghost predicate TxValid()
      reads `queue, `enqueued, `submitted, `txPkts, `txBytes, `outPending, `outDone, `outPolled
    {
      && Channelled(submitted) + queue == enqueued
      && txPkts == |Channelled(submitted)| && txBytes == Total(Channelled(submitted))
      && outPending + outDone == |submitted| && outDone == Trues(outPolled)
      && outPending <= 32 + |ArpOnly(submitted)|
      && |queue| <= 4096
    }

    /** The transmit side at any moment, a packet in hand or not. */
    ghost predicate TxUnder()
      reads `enqueued, `submitted
    {
      Channelled(submitted) <= enqueued
    }

    /** Everything the receiving side did is a function of the transfers received. */
    ghost predicate RxValid()
      reads `received, `submitted, `utun, `gatewayMac, `rxPkts, `rxBytes
    {
      var fs := FramesOf(received);
      && utun == Delivered(fs, me)
      && ArpOnly(submitted) == Wrapped(Answers(fs, me))
      && gatewayMac == Learned(firstGateway, fs)
      && rxPkts == |utun| && rxBytes == Total(utun) + 10 * |utun|
    }

    /** The receiving side at any moment at work on a transfer: it has forwarded and answered what it
        would have before, and part of what is in this one. */
    ghost predicate RxUnder(data: seq<byte>)
      reads `received, `submitted, `utun
    {
      var fs := FramesOf(received);
      && Delivered(fs, me) <= utun <= Delivered(fs + Rndis.Frames(data), me)
      && ArpOnly(submitted) <= Wrapped(Answers(fs + Rndis.Frames(data), me))
    }

    lemma ValidUnder(data: seq<byte>)
      requires RxValid()
      ensures RxUnder(data)
    {
      hide FramesOf, Rndis.Frames, Delivered, Answers, Learned, ArpOnly, Total, Rndis.DataPacket;
      AppendAll(firstGateway, FramesOf(received), Rndis.Frames(data), me);
      WrappedConcat(Answers(FramesOf(received), me), Answers(Rndis.Frames(data), me));
    }

    lemma FreshValid()
      requires Fresh()
      ensures TxValid() && RxValid()
    {
    }

    /** Transfers in flight and packets waiting balance what was ever handed over. */
    lemma Balance()
      requires TxValid()
      ensures |queue| + outPending + outDone == |enqueued| + |ArpOnly(submitted)|
    {
    }

    // ---- The environment ----

    /** The other threads send what comes next in their script, as far as the bounded channel takes it. */
    method Deliver()
      requires |queue| <= 4096
      modifies `queue, `arrivals, `enqueued
      ensures old(enqueued) <= enqueued && |queue| <= 4096
      ensures queue == old(queue) + enqueued[|old(enqueued)|..]
      ensures if old(arrivals) == [] then arrivals == [] && enqueued == old(enqueued)
              else arrivals == old(arrivals)[1..]
      ensures old(arrivals) != [] && |old(queue)| + |old(arrivals)[0]| <= 4096 ==>
                enqueued == old(enqueued) + old(arrivals)[0]
    {
      if arrivals != [] {
        var room := CHANNEL_CAP - |queue|;
        var batch := if |arrivals[0]| <= room then arrivals[0] else arrivals[0][..room];
        queue := queue + batch;
        enqueued := enqueued + batch;
        arrivals := arrivals[1..];
      }
    }

    /** `try_recv`: first the other threads may send. */
    method TryRecv() returns (r: Option<seq<byte>>)
      requires |queue| <= 4096
      modifies `queue, `arrivals, `enqueued
      ensures old(enqueued) <= enqueued && |queue| <= 4096
      ensures old(queue) + enqueued[|old(enqueued)|..] == (if r.Some? then [r.value] else []) + queue
      ensures r.None? ==> queue == []
      ensures if old(arrivals) == [] then arrivals == [] && enqueued == old(enqueued)
              else |arrivals| == |old(arrivals)| - 1
    {
      Deliver();
      if queue == [] {
        return None;
      }
      r := Some(queue[0]);
      queue := queue[1..];
    }

    /** Polls the OUT endpoint. */
    method WaitOut() returns (done: bool)
      requires outPending > 0 && outDone == Trues(outPolled)
      modifies `outPending, `outDone, `outPolls, `outPolled
      ensures outDone == Trues(outPolled) && outPolled + outPolls == old(outPolled + outPolls)
      ensures if done then outPending == old(outPending) - 1 && outDone == old(outDone) + 1
              else outPending == old(outPending) && outDone == old(outDone)
      ensures if old(outPolls) == [] then !done && outPolls == [] && outPolled == old(outPolled)
              else outPolled == old(outPolled) + [done]
    {
      if outPolls == [] {
        return false;
      }
      done := outPolls[0];
      TruesAppend(outPolled, done);
      outPolled, outPolls := outPolled + [done], outPolls[1..];
      if done {
        outPending := outPending - 1;
        outDone := outDone + 1;
      }
    }

    /** Polls the IN endpoint. */
    method WaitIn() returns (c: Option<Completion>)
      requires inPending > 0
      modifies `inPending, `polls, `polled
      ensures polled + polls == old(polled + polls)
      ensures inPending == old(inPending) - if c.Some? then 1 else 0
      ensures if old(polls) == [] then c == None && polls == [] && polled == old(polled)
              else polled == old(polled) + [c] && |polls| < |old(polls)|
    {
      if polls == [] {
        return None;
      }
      c := polls[0];
      polled, polls := polled + [c], polls[1..];
      if c.Some? {
        inPending := inPending - 1;
      }
    }

    /** Reads the flag, which any other thread may have cleared; when the script is over, one has. */
    method LoadRunning() returns (r: bool)
      modifies `running, `flags, `seen
      ensures r == running == (old(running) && old(flags) != [] && old(flags)[0])
      ensures if old(flags) == [] then flags == [] && seen == old(seen)
              else seen == old(seen) + [old(flags)[0]] && flags == old(flags)[1..]
    {
      if flags == [] {
        running := false;
      } else {
        running := running && flags[0];
        seen, flags := seen + [flags[0]], flags[1..];
      }
      r := running;
    }

    // ---- Transmitting ----

    method SubmitTx(pkt: seq<byte>)
      modifies `outPending, `submitted, `txPkts, `txBytes
      ensures outPending == old(outPending) + 1 && submitted == old(submitted) + [FromChannel(pkt)]
      ensures txPkts == old(txPkts) + 1 && txBytes == old(txBytes) + |pkt|
    {
      outPending := outPending + 1;
      submitted := submitted + [FromChannel(pkt)];
      txPkts := txPkts + 1;
      txBytes := txBytes + |pkt|;
    }

    /** Moves one packet, if there is one, from the channel to the endpoint. */
    method Pump() returns (moved: bool)
      requires TxValid() && outPending < 32 + |ArpOnly(submitted)|
      modifies `queue, `arrivals, `enqueued, `outPending, `submitted, `txPkts, `txBytes
      ensures TxValid() && Grew(old(enqueued), old(submitted)) && old(txBytes) <= txBytes
      ensures moved ==> outPending == old(outPending) + 1
      ensures !moved ==> outPending == old(outPending) && queue == [] && submitted == old(submitted)
      ensures ArpOnly(submitted) == ArpOnly(old(submitted))
      ensures if old(arrivals) == [] then arrivals == [] && enqueued == old(enqueued)
              else |arrivals| < |old(arrivals)|
    {
      hide Channelled, ArpOnly, Total;
      var r := TryRecv();
      assert enqueued == old(enqueued) + enqueued[|old(enqueued)|..];
      match r {
        case Some(pkt) =>
          UrbAppend(submitted, FromChannel(pkt));
          Fifo(Channelled(submitted), old(queue), enqueued[|old(enqueued)|..], [pkt], queue);
          assert TxUnder();
          TotalGrows(Channelled(submitted), [pkt]);
          TotalOne(pkt);
          SubmitTx(pkt);
          moved := true;
        case None =>
          Fifo(Channelled(submitted), old(queue), enqueued[|old(enqueued)|..], [], queue);
          moved := false;
      }
    }

    /** The logs only ever grow. */
    ghost predicate Grew(enqueued0: seq<seq<byte>>, submitted0: seq<Urb>)
      reads `enqueued, `submitted
    {
      enqueued0 <= enqueued && submitted0 <= submitted
    }

    /** `refill_tx`: stops at 32 transfers in flight or at an empty channel. */
    method RefillTx()
      requires TxValid()
      modifies `queue, `arrivals, `enqueued, `outPending, `submitted, `txPkts, `txBytes
      ensures TxValid() && Grew(old(enqueued), old(submitted)) && old(txBytes) <= txBytes
      ensures old(outPending) <= outPending <= Max(32, old(outPending))
      ensures outPending >= 32 || queue == []
      ensures old(outPending) >= 32 ==> outPending == old(outPending)
      ensures ArpOnly(submitted) == ArpOnly(old(submitted))
      ensures old(arrivals) == [] ==> arrivals == [] && enqueued == old(enqueued)
      ensures old(RxValid()) ==> RxValid()
    {
      hide Channelled, ArpOnly, FramesOf, Total, Delivered, Answers, Learned, Wrapped;
      while outPending < MAX_OUT_URBS
        invariant TxValid() && Grew(old(enqueued), old(submitted)) && old(txBytes) <= txBytes
        invariant old(outPending) <= outPending <= Max(MAX_OUT_URBS, old(outPending))
        invariant ArpOnly(submitted) == ArpOnly(old(submitted))
        invariant old(arrivals) == [] ==> arrivals == [] && enqueued == old(enqueued)
        decreases MAX_OUT_URBS - outPending
      {
        var moved := Pump();
        if !moved {
          break;
        }
      }
    }

    /** The drain loop: each completion makes room for the next packet, however many are in flight. It ends
        without any bound on completions, for while nobody sends, each turn takes one off queued plus
        pending, and it stops early only at a poll that finds nothing. */
    method DrainOut()
      requires TxValid()
      modifies `queue, `arrivals, `enqueued, `outPending, `outDone, `submitted, `txPkts, `txBytes,
               `outPolls, `outPolled
      ensures TxValid() && Grew(old(enqueued), old(submitted)) && old(outDone) <= outDone && old(txBytes) <= txBytes
      ensures outPolled + outPolls == old(outPolled + outPolls)
      ensures outPolls == [] || outPending == 0
              || (|old(outPolled)| < |outPolled| && !outPolled[|outPolled| - 1])
      ensures outPending <= old(outPending)
      ensures ArpOnly(submitted) == ArpOnly(old(submitted))
      ensures old(arrivals) == [] ==> arrivals == [] && enqueued == old(enqueued)
                                      && (queue == [] || outPending == old(outPending))
    {
      hide Channelled, ArpOnly, Total, Trues;
      Balance();
      while outPending > 0
        invariant TxValid() && Grew(old(enqueued), old(submitted)) && old(outDone) <= outDone
        invariant old(txBytes) <= txBytes
        invariant outPolled + outPolls == old(outPolled + outPolls) && old(outPolled) <= outPolled
        invariant outPending <= old(outPending)
        invariant ArpOnly(submitted) == ArpOnly(old(submitted))
        invariant old(arrivals) == [] ==> arrivals == [] && enqueued == old(enqueued)
                                          && (queue == [] || outPending == old(outPending))
        decreases |arrivals|, |queue| + outPending
      {
        var done := WaitOut();
        if !done {
          break;
        }
        Balance();
        var moved := Pump();
        Balance();
      }
    }

    /** `drain_out_and_refill`. */
    method DrainOutAndRefill()
      requires TxValid()
      modifies `queue, `arrivals, `enqueued, `outPending, `outDone, `submitted, `txPkts, `txBytes,
               `outPolls, `outPolled
      ensures TxValid() && Grew(old(enqueued), old(submitted)) && old(outDone) <= outDone && old(txBytes) <= txBytes
      ensures outPolled + outPolls == old(outPolled + outPolls)
      ensures outPolls == [] || |old(submitted)| <= outDone
              || (|old(outPolled)| < |outPolled| && !outPolled[|outPolled| - 1])
      ensures outPending <= Max(32, old(outPending))
      ensures outPending >= 32 || queue == []
      ensures ArpOnly(submitted) == ArpOnly(old(submitted))
      ensures old(arrivals) == [] ==>
                && |queue| + outPending + (outDone - old(outDone)) == old(|queue| + outPending)
                && (queue == [] || outPending == Max(32, old(outPending)))
      ensures old(RxValid()) ==> RxValid()
    {
      hide Channelled, ArpOnly, FramesOf, Total, Delivered, Answers, Learned, Wrapped, Trues;
      Balance();
      DrainOut();
      RefillTx();
      Balance();
    }

    // ---- Receiving ----

    /** The frame handler: decides, learns the gateway address, forwards or answers. */
    method OnFrame(frame: seq<byte>, utunBuf: array<byte>) returns (reply: Option<seq<byte>>)
      requires utunBuf.Length == UTUN_BUF
      modifies `gatewayMac, `utun, `rxPkts, `rxBytes, utunBuf
      ensures var d := Decide(frame, me);
              && reply == (if d.ArpAnswered? then Some(d.reply) else None)
              && utun == old(utun) + (if d.Forwarded? then [d.pkt] else [])
              && rxPkts == old(rxPkts) + (if d.Forwarded? then 1 else 0)
              && rxBytes == old(rxBytes) + (if d.Forwarded? then |frame| else 0)
              && gatewayMac == if |frame| >= 14 && frame[6] != 0xFF then frame[6..12] else old(gatewayMac)
    {
      if |frame| < ETH_HDR {
        return None;
      }
      var etherType := ReadBe16(frame, 12);
      if frame[6] != 0xFF && gatewayMac != frame[6..12] {
        gatewayMac := frame[6..12];
      }
      if etherType == Arp.ETHERTYPE {
        var replyBuf := new byte[ETH_BUF];
        var r := Arp.HandleRequest(frame, replyBuf, me.mac, me.ip);
        if r.Ok? && r.value > 0 {
          return Some(replyBuf[..r.value]);
        }
        return None;
      }
      var n := EthToUtun(frame, utunBuf);
      if n > 0 {
        utun := utun + [utunBuf[..n]];
        rxPkts := rxPkts + 1;
        rxBytes := rxBytes + |frame|;
      }
      return None;
    }

    /** What the handler has done with the frames `seen`, from what was there before. */
    ghost predicate Handled(seen: seq<seq<byte>>, replies: seq<seq<byte>>, utun0: seq<seq<byte>>, gw0: Mac)
      reads `gatewayMac, `utun, `rxPkts, `rxBytes
    {
      && utun == utun0 + Delivered(seen, me) && replies == Answers(seen, me) && gatewayMac == Learned(gw0, seen)
      && rxPkts == |utun| && rxBytes == Total(utun) + 10 * |utun|
    }

    /** One frame more. */
    method TakeFrame(frame: seq<byte>, utunBuf: array<byte>, replies0: seq<seq<byte>>, ghost data: seq<byte>,
                     ghost seen: seq<seq<byte>>, ghost utun0: seq<seq<byte>>, ghost gw0: Mac)
      returns (replies: seq<seq<byte>>)
      requires utunBuf.Length == UTUN_BUF && Handled(seen, replies0, utun0, gw0)
      requires Before(data, utun0) && seen + [frame] <= Rndis.Frames(data)
      modifies `gatewayMac, `utun, `rxPkts, `rxBytes, utunBuf
      ensures Handled(seen + [frame], replies, utun0, gw0) && RxUnder(data) && old(rxBytes) <= rxBytes
    {
      hide Decide, Total, Delivered, Answers, Learned, Before, RxUnder, Rndis.Frames;
      AppendOne(gw0, seen, frame, me);
      ForwardedLength(utun, frame, me);
      var reply := OnFrame(frame, utunBuf);
      replies := if reply.Some? then replies0 + [reply.value] else replies0;
      HandledUnder(data, seen + [frame], replies, utun0, gw0);
    }

    /** Walks one transfer: the frames it decodes to, in order, each through the handler. */
    method Unwrap(data: seq<byte>) returns (replies: seq<seq<byte>>)
      requires RxValid()
      modifies `gatewayMac, `utun, `rxPkts, `rxBytes
      ensures utun == old(utun) + Delivered(Rndis.Frames(data), me)
      ensures replies == Answers(Rndis.Frames(data), me)
      ensures gatewayMac == Learned(old(gatewayMac), Rndis.Frames(data))
      ensures rxPkts == |utun| && rxBytes == Total(utun) + 10 * |utun| && old(rxBytes) <= rxBytes
    {
      Untouched(data);
      hide Rndis.Frames, Rndis.Inside, Rndis.Ordered, Rndis.Cut, Rndis.Seen, Handled, RxUnder, Before, RxValid, Delivered,
           Answers, Learned, Total;
      var utunBuf := new byte[UTUN_BUF];
      var slices := Rndis.Collect(data);
      replies := [];
      ghost var fs, utun0, gw0 := Rndis.Frames(data), utun, gatewayMac;
      Prefixes(fs);
      HandledUnder(data, [], replies, utun0, gw0);
      for k := 0 to |slices|
        invariant Handled(fs[..k], replies, utun0, gw0) && RxUnder(data) && old(rxBytes) <= rxBytes
      {
        Rndis.CutAt(data, slices, k);
        Prefix(fs, k);
        replies := TakeFrame(data[slices[k].lo..slices[k].hi], utunBuf, replies, data, fs[..k], utun0, gw0);
      }
      HandledAll(fs, replies, utun0, gw0);
    }

    /** What the walk does not touch: the transfers before, and the answers to them. */
    ghost predicate Before(data: seq<byte>, utun0: seq<seq<byte>>)
      reads `received, `submitted
    {
      && utun0 == Delivered(FramesOf(received), me)
      && ArpOnly(submitted) <= Wrapped(Answers(FramesOf(received) + Rndis.Frames(data), me))
    }

    lemma Untouched(data: seq<byte>)
      requires RxValid()
      ensures Handled([], [], utun, gatewayMac) && Before(data, utun)
    {
      EmptyFold(gatewayMac, me);
      ValidUnder(data);
      hide FramesOf, Rndis.Frames, Delivered, Answers, Learned, ArpOnly, Total, Rndis.DataPacket;
    }

    lemma HandledUnder(data: seq<byte>, seen: seq<seq<byte>>, replies: seq<seq<byte>>, utun0: seq<seq<byte>>, gw0: Mac)
      requires Handled(seen, replies, utun0, gw0) && seen <= Rndis.Frames(data)
      requires Before(data, utun0)
      ensures RxUnder(data)
    {
      hide Rndis.Frames, Delivered, Answers, Learned, Total, FramesOf, ArpOnly, Wrapped;
      PartDelivered(FramesOf(received), seen, Rndis.Frames(data), me);
    }

    lemma HandledAll(seen: seq<seq<byte>>, replies: seq<seq<byte>>, utun0: seq<seq<byte>>, gw0: Mac)
      requires Handled(seen, replies, utun0, gw0)
      ensures utun == utun0 + Delivered(seen, me) && replies == Answers(seen, me) && gatewayMac == Learned(gw0, seen)
      ensures rxPkts == |utun| && rxBytes == Total(utun) + 10 * |utun|
    {
    }

    method SubmitIn()
      modifies `inPending
      ensures inPending == old(inPending) + 1
    {
      inPending := inPending + 1;
    }

    /** Submits one ARP reply, with no look at the 32-URB limit. */
    method SubmitReply(reply: seq<byte>)
      requires TxValid() && |reply| == Arp.SIZE
      modifies `outPending, `submitted
      ensures TxValid() && submitted == old(submitted) + [FromArp(Rndis.DataPacket(reply))]
      ensures outPending == old(outPending) + 1
    {
      hide Rndis.DataPacket, Channelled, ArpOnly, Total, Trues;
      var rndisBuf := new byte[RNDIS_BUF];
      var r := Rndis.BuildDataPacket(rndisBuf, reply);
      if r.Ok? {
        var urb := rndisBuf[..r.value];
        assert urb == Rndis.DataPacket(reply);
        UrbAppend(submitted, FromArp(urb));
        outPending := outPending + 1;
        submitted := submitted + [FromArp(urb)];
      }
    }

    /** All of a transfer's replies. */
    method SubmitReplies(replies: seq<seq<byte>>, ghost data: seq<byte>)
      requires TxValid() && RxUnder(data) && forall r :: r in replies ==> |r| == Arp.SIZE
      requires ArpOnly(submitted) + Wrapped(replies) == Wrapped(Answers(FramesOf(received) + Rndis.Frames(data), me))
      modifies `outPending, `submitted
      ensures TxValid() && old(submitted) <= submitted
      ensures ArpOnly(submitted) == ArpOnly(old(submitted)) + Wrapped(replies)
      ensures Channelled(submitted) == Channelled(old(submitted))
      ensures outPending == old(outPending) + |replies|
    {
      hide Rndis.DataPacket, Channelled, ArpOnly, Wrapped, TxValid, FramesOf, Rndis.Frames, Delivered, Answers;
      WrappedAppend(replies);
      for k := 0 to |replies|
        invariant TxValid() && old(submitted) <= submitted
        invariant Channelled(submitted) == Channelled(old(submitted))
        invariant ArpOnly(submitted) == ArpOnly(old(submitted)) + Wrapped(replies[..k]) && RxUnder(data)
        invariant outPending == old(outPending) + k
      {
        UrbAppend(submitted, FromArp(Rndis.DataPacket(replies[k])));
        SubmitReply(replies[k]);
        WrappedPrefix(replies, k + 1);
      }
    }

    /** One non-empty transfer: walk it, then answer. */
    method HandleTransfer(data: seq<byte>)
      requires TxValid() && RxValid()
      modifies `outPending, `submitted, `gatewayMac, `utun, `rxPkts, `rxBytes, `received
      ensures TxValid() && RxValid() && old(submitted) <= submitted && old(utun) <= utun && old(rxBytes) <= rxBytes
      ensures received == old(received) + [data]
      ensures outPending == old(outPending) + |Answers(Rndis.Frames(data), me)|
      ensures Channelled(submitted) == Channelled(old(submitted))
    {
      hide TxValid, Channelled, ArpOnly, Rndis.Frames, Total, Delivered, Answers, Learned, Wrapped, FramesOf;
      ghost var fs, more := FramesOf(received), Rndis.Frames(data);
      ReceivedAppend(received, data);
      AppendAll(firstGateway, fs, more, me);
      var replies := Unwrap(data);
      AnswerSizes(more, me);
      WrappedConcat(Answers(fs, me), replies);
      SubmitReplies(replies, data);
      received := received + [data];
    }

    /** `process_rx_completion`: the result says whether the receive buffer is back in flight. */
    method ProcessRxCompletion(c: Completion) returns (ok: bool)
      requires TxValid() && RxValid()
      modifies `inPending, `outPending, `submitted, `gatewayMac, `utun, `rxPkts, `rxBytes, `received, `lost
      ensures TxValid() && RxValid() && old(submitted) <= submitted && old(utun) <= utun && old(rxBytes) <= rxBytes
      ensures ok == c.Received?
      ensures ok ==> inPending == old(inPending) + 1 && lost == old(lost)
                     && received == old(received) + [c.data]
      ensures !ok ==> inPending == old(inPending) && lost == old(lost) + 1
                      && received == old(received) && submitted == old(submitted)
      ensures Channelled(submitted) == Channelled(old(submitted))
    {
      hide TxValid, Channelled, ArpOnly, Rndis.Frames, Total, Delivered, Answers, Learned, Wrapped, FramesOf;
      if c.Failed? {
        lost := lost + 1;
        return false;
      }
      if |c.data| == 0 {
        EmptyTransfer(received);
        received := received + [c.data];
      } else {
        HandleTransfer(c.data);
      }
      var before := inPending;
      SubmitIn();
      ok := inPending > before;
    }

    // ---- The engine ----

    /** The state at every head of the receive loops: each poll so far has been acted on, its bytes
        dispatched or its receive buffer counted as lost. */
    ghost predicate AtHead(activeRx: nat)
      reads `queue, `enqueued, `submitted, `txPkts, `txBytes, `outPending, `outDone, `outPolled
      reads `received, `utun, `gatewayMac, `rxPkts, `rxBytes, `inPending, `lost, `polls, `polled
    {
      && TxValid() && RxValid()
      && polled + polls == script && received == DataOf(polled) && lost == Failures(polled)
      && activeRx == inPending == 16 - lost
    }

    /** The transmit side has been served: the endpoint is full or the channel is empty. */
    ghost predicate Served()
      reads `outPending, `queue
    {
      outPending >= 32 || queue == []
    }

    ghost predicate FoundNothing()
      reads `polled
    {
      polled != [] && polled[|polled| - 1].None?
    }

    /** Polls once and takes what is there. Each lost buffer is taken off exactly: the subtraction
        never saturates. `more` is whether there was anything. */
    method ReceiveOne(activeRx0: nat) returns (activeRx: nat, more: bool)
      requires AtHead(activeRx0) && activeRx0 > 0
      modifies `inPending, `polls, `polled, `outPending, `submitted, `gatewayMac, `utun, `rxPkts, `rxBytes,
               `received, `lost
      ensures AtHead(activeRx) && old(submitted) <= submitted && old(utun) <= utun && old(rxBytes) <= rxBytes
      ensures Channelled(submitted) == Channelled(old(submitted))
      ensures if old(polls) == [] then !more && polls == [] && polled == old(polled)
              else old(polled) < polled && |polled| == |old(polled)| + 1 && (more <==> !FoundNothing())
      ensures activeRx == activeRx0 - (lost - old(lost))
    {
      hide TxValid, RxValid, DataOf, Failures, Channelled;
      ghost var before := polled;
      var c := WaitIn();
      activeRx, more := activeRx0, c.Some?;
      PollAppend(before, c);
      if c.Some? {
        var ok := ProcessRxCompletion(c.value);
        if !ok {
          activeRx := SaturatingSub(activeRx, 1);
        }
      }
    }

    /** Waits for one completed receive, then takes all that are ready: it stops only at a poll that
        finds nothing or with no receive left in flight. */
    method ReceiveAll(activeRx0: nat) returns (activeRx: nat)
      requires AtHead(activeRx0) && activeRx0 > 0
      modifies `inPending, `polls, `polled, `outPending, `submitted, `gatewayMac, `utun, `rxPkts, `rxBytes,
               `received, `lost
      ensures AtHead(activeRx) && old(submitted) <= submitted && old(utun) <= utun && old(rxBytes) <= rxBytes
      ensures Channelled(submitted) == Channelled(old(submitted))
      ensures old(polled) <= polled && (old(polls) != [] ==> |old(polled)| < |polled|)
      ensures polls == [] || activeRx == 0 || FoundNothing()
    {
      hide TxValid, RxValid, DataOf, Failures, Channelled;
      var more;
      activeRx, more := ReceiveOne(activeRx0);
      if more {
        while inPending > 0
          invariant AtHead(activeRx) && old(submitted) <= submitted && old(utun) <= utun && old(rxBytes) <= rxBytes
          invariant Channelled(submitted) == Channelled(old(submitted))
          invariant old(polled) <= polled && |old(polled)| < |polled|
          decreases |polls|
        {
          activeRx, more := ReceiveOne(activeRx);
          if !more {
            break;
          }
        }
      }
    }

    /** Submits all receive buffers. */
    method Start()
      requires Fresh()
      modifies `inPending
      ensures AtHead(16) && lost == 0 && !deviceGone && running
    {
      FreshValid();
      assert received == DataOf(polled) && Failures(polled) == 0;
      assert lost == 0 && !deviceGone && inPending == 0 && running && polled + polls == script;
      hide TxValid, RxValid, Fresh;
      for k := 0 to NUM_RX_BUFS
        invariant inPending == k && TxValid() && RxValid()
      {
        SubmitIn();
      }
    }

    /** The transmit half of a turn. */
    method Serve(activeRx: nat)
      requires AtHead(activeRx)
      modifies `queue, `arrivals, `enqueued, `outPending, `outDone, `submitted, `txPkts, `txBytes,
               `outPolls, `outPolled
      ensures AtHead(activeRx) && Served() && old(submitted) <= submitted && old(txBytes) <= txBytes
    {
      hide TxValid, RxValid, DataOf, Failures;
      DrainOutAndRefill();
    }

    /** One turn of the loop: the ready receives, then the transmit side. Losing the last receive
        buffer, and only that, reports the device gone, and clears `running` at once. */
    method Turn(activeRx0: nat) returns (activeRx: nat)
      requires AtHead(activeRx0) && activeRx0 > 0 && !deviceGone && running
      modifies this
      ensures AtHead(activeRx) && flags == old(flags) && seen == old(seen)
      ensures deviceGone == !running == (activeRx == 0)
      ensures activeRx > 0 ==> Served()
      ensures old(polled) <= polled && (old(polls) != [] ==> |old(polled)| < |polled|)
      ensures polls == [] || activeRx == 0 || FoundNothing()
      ensures old(submitted) <= submitted && old(utun) <= utun
      ensures old(txBytes) <= txBytes && old(rxBytes) <= rxBytes
    {
      hide AtHead;
      activeRx := ReceiveAll(activeRx0);
      if activeRx == 0 {
        deviceGone := true;
        running := false;
      } else {
        Serve(activeRx);
      }
    }

    /** Why the loop ends: the device is gone, or a look at `running`, the last one, found it cleared. */
    ghost predicate Stopped()
      reads `running, `deviceGone, `flags, `seen
    {
      && !running && seen + flags == flagScript && (forall k :: 0 <= k < |seen| - 1 ==> seen[k])
      && (deviceGone || flags == [] || (seen != [] && !seen[|seen| - 1]))
    }

    /** The end of a run, by what the polls have found. Every transfer received went through dispatch, in
        order; the device is reported gone exactly when the sixteenth failure was found; while it is
        not, the transmit side has been served; and the device was polled whenever `running` was seen set. */
    ghost predicate Finished()
      reads this
    {
      && TxValid() && RxValid() && Stopped()
      && polled + polls == script && received == DataOf(polled)
      && utun == Delivered(FramesOf(DataOf(polled)), me)
      && gatewayMac == Learned(firstGateway, FramesOf(DataOf(polled)))
      && ArpOnly(submitted) == Wrapped(Answers(FramesOf(DataOf(polled)), me))
      && inPending == 16 - Failures(polled)
      && (deviceGone <==> Failures(polled) == 16)
      && (!deviceGone ==> Served())
      && (polls == [] || |polled| >= Trues(seen))
    }

    /** The gateway address at the end of a run: the source of the last frame received that is at least 14
        bytes long, ARP frames included, and whose source does not start with 0xFF. */
    lemma GatewayAtEnd(j: nat)
      requires Finished()
      ensures var fs := FramesOf(DataOf(polled));
              && (j < |fs| && |fs[j]| >= 14 && fs[j][6] != 0xFF ==>
                    (forall k :: j < k < |fs| ==> |fs[k]| < 14 || fs[k][6] == 0xFF) ==> gatewayMac == fs[j][6..12])
              && ((forall k :: 0 <= k < |fs| ==> |fs[k]| < 14 || fs[k][6] == 0xFF) ==> gatewayMac == firstGateway)
    {
      hide TxValid, DataOf, Failures, FramesOf, Total, Delivered, Answers, Wrapped, ArpOnly, Trues;
      var fs := FramesOf(DataOf(polled));
      if j < |fs| && |fs[j]| >= 14 && fs[j][6] != 0xFF
         && forall k :: j < k < |fs| ==> |fs[k]| < 14 || fs[k][6] == 0xFF {
        LearnedLast(firstGateway, fs, j);
      }
      if forall k :: 0 <= k < |fs| ==> |fs[k]| < 14 || fs[k][6] == 0xFF {
        LearnedNothing(firstGateway, fs);
      }
    }

    /** Between two looks at `running`. */
    ghost predicate Looping(activeRx: nat)
      reads this
    {
      && AtHead(activeRx) && seen + flags == flagScript
      && (deviceGone <==> activeRx == 0) && (running ==> !deviceGone) && (!deviceGone ==> Served())
      && (forall k :: 0 <= k < |seen| - 1 ==> seen[k])
      && (running ==> forall k :: 0 <= k < |seen| ==> seen[k])
      && (!running ==> Stopped())
      && (polls == [] || |polled| + (if running then 1 else 0) >= Trues(seen))
    }

    lemma LoopEnds(activeRx: nat)
      requires Looping(activeRx) && !running
      ensures Finished()
    {
      hide TxValid, DataOf, Failures, FramesOf, Total, Delivered, Answers, Learned, Wrapped, ArpOnly, Trues;
    }

    /** A turn of the loop, with the look at the flag behind it. */
    method Cycle(activeRx0: nat) returns (activeRx: nat)
      requires Looping(activeRx0) && running
      modifies this
      ensures Looping(activeRx) && |flags| <= |old(flags)| && (running ==> |flags| < |old(flags)|)
      ensures old(txBytes) <= txBytes && old(rxBytes) <= rxBytes
      ensures Trues(seen) == Trues(old(seen)) + if running then 1 else 0
    {
      hide TxValid, RxValid, DataOf, Failures, Trues;
      assert polls == [] ==> |polled| == |script|;
      activeRx := Turn(activeRx0);
      if !deviceGone {
        Look(activeRx);
      }
    }

    method Look(activeRx: nat)
      requires AtHead(activeRx) && seen + flags == flagScript && running && !deviceGone && activeRx > 0 && Served()
      requires forall k :: 0 <= k < |seen| ==> seen[k]
      requires polls == [] || |polled| >= Trues(seen)
      modifies `running, `flags, `seen
      ensures Trues(seen) == Trues(old(seen)) + if running then 1 else 0
      ensures Looping(activeRx) && |flags| <= |old(flags)| && (running ==> |flags| < |old(flags)|)
    {
      hide TxValid, RxValid, DataOf, Failures, Trues;
      if flags != [] {
        TruesAppend(seen, flags[0]);
      }
      var run := LoadRunning();
    }

    /** `run`, from a fresh engine. */
    method Run()
      requires Fresh()
      modifies this
      ensures Finished()
    {
      hide Fresh, AtHead, Looping, Finished, TxValid, RxValid, Trues;
      StartedFrom();
      Start();
      var activeRx: nat := NUM_RX_BUFS;
      Refill(activeRx);
      Look(activeRx);
      while running
        invariant Looping(activeRx)
        decreases |flags| + if running then 1 else 0
      {
        activeRx := Cycle(activeRx);
      }
      LoopEnds(activeRx);
    }

    /** The first transmits. */
    method Refill(activeRx: nat)
      requires AtHead(activeRx)
      modifies `queue, `arrivals, `enqueued, `outPending, `submitted, `txPkts, `txBytes
      ensures AtHead(activeRx) && Served() && old(txBytes) <= txBytes
    {
      hide TxValid, RxValid, DataOf, Failures;
      RefillTx();
    }

    lemma StartedFrom()
      requires Fresh()
      ensures seen == [] && flags == flagScript && Trues([]) == 0
    {
    }
  }

  // ---- The 32-transfer limit ----

  /** An ARP request for our address, in a transfer of its own. */
  function Request(me: Host): seq<byte> {
    Rndis.DataPacket(
      Arp.EthHeader(me.mac, me.mac, Arp.ETHERTYPE) + Arp.Body(Arp.REQUEST, me.mac, me.ip, me.mac, me.ip))
  }

  lemma RequestIsAnswered(me: Host)
    ensures |Request(me)| > 0 && |Answers(Rndis.Frames(Request(me)), me)| == 1
  {
    var f := Arp.EthHeader(me.mac, me.mac, Arp.ETHERTYPE) + Arp.Body(Arp.REQUEST, me.mac, me.ip, me.mac, me.ip);
    Arp.AnswersRequests(me.mac, me.mac, me.ip, Arp.REQUEST, me.mac, me.ip, me.mac, me.ip);
    assert ReadBe16(f, 12) == Arp.ETHERTYPE;
    hide Rndis.Frames, Rndis.DataPacket, Arp.EthHeader, Arp.Body;
    Rndis.ItemFrames(Rndis.Data(f));
    AppendOne(me.mac, [], f, me);
    assert [] + [f] == [f];
  }

  /** A device that sends nothing but requests for our address. */
  function Asking(n: nat, me: Host): seq<Option<Completion>> {
    seq(n, _ => Some(Received(Request(me))))
  }

  lemma {:induction false} AskingAnswered(n: nat, me: Host)
    ensures Failures(Asking(n, me)) == 0
    ensures |Wrapped(Answers(FramesOf(DataOf(Asking(n, me))), me))| == n
  {
    hide Rndis.Frames, Request;
    if n > 0 {
      var p, t := Asking(n - 1, me), Request(me);
      AskingAnswered(n - 1, me);
      assert Asking(n, me) == p + [Some(Received(t))];
      PollAppend(p, Some(Received(t)));
      ReceivedAppend(DataOf(p), t);
      RequestIsAnswered(me);
      AppendAll(me.mac, FramesOf(DataOf(p)), Rndis.Frames(t), me);
    }
  }

  /** An engine that is sent 32 packets at the start, whose OUT transfers do not complete. */
  method FullEngine(script: seq<Option<Completion>>, me: Host, pkt: seq<byte>) returns (io: UsbIo)
    ensures fresh(io) && io.me == me && io.script == script
    ensures io.AtHead(16) && io.polled == [] && io.polls == script
    ensures io.outPending == 32 && io.outDone == 0 && ArpOnly(io.submitted) == []
    ensures Channelled(io.submitted) == seq(32, _ => pkt)
  {
    hide DataOf, Failures, Channelled, FramesOf, Total, Delivered, Answers, Learned, Wrapped, Trues;
    var burst := seq(MAX_OUT_URBS, _ => pkt);
    io := new UsbIo(me, me.mac, script, [], [burst], []);
    io.Start();
    io.Deliver();
    io.RefillTx();
    assert Channelled(io.submitted) == burst;
  }

  /** The bound of 32 plus the ARP replies is the best possible: when such an engine receives `n`
      requests, it has 32 + `n` transfers in flight, `n` of them replies. */
  method LimitExceeded(n: nat, me: Host, pkt: seq<byte>) returns (io: UsbIo)
    ensures fresh(io) && io.me == me && io.script == Asking(n, me)
    ensures io.AtHead(16) && io.polled == io.script
    ensures io.outPending == 32 + n
    ensures |ArpOnly(io.submitted)| == n && Channelled(io.submitted) == seq(32, _ => pkt)
  {
    hide DataOf, Failures, Channelled, ArpOnly, FramesOf, Total, Delivered, Answers, Learned, Wrapped, Trues;
    io := FullEngine(Asking(n, me), me, pkt);
    var activeRx := io.ReceiveAll(NUM_RX_BUFS);
    AllAsked(io, n, activeRx);
  }

  /** When everything ready has been received, all requests have been. */
  lemma AllAsked(io: UsbIo, n: nat, activeRx: nat)
    requires io.AtHead(activeRx) && io.script == Asking(n, io.me)
    requires io.polls == [] || activeRx == 0 || io.FoundNothing()
    ensures io.polled == io.script && activeRx == 16 && |ArpOnly(io.submitted)| == n
    ensures io.outPending + io.outDone == |Channelled(io.submitted)| + n
  {
    hide DataOf, Failures, Channelled, ArpOnly, FramesOf, Total, Delivered, Answers, Learned, Wrapped, Trues;
    var k := |io.polled|;
    assert io.polled == io.script[..k];
    AskingPrefix(n, k, io.me);
    hide Asking;
    AskingAnswered(k, io.me);
  }

  lemma AskingPrefix(n: nat, k: nat, me: Host)
    requires k <= n
    ensures |Asking(n, me)| == n && Asking(n, me)[..k] == Asking(k, me) && Asking(n, me)[..n] == Asking(n, me)
    ensures k > 0 ==> Asking(k, me)[k - 1].Some?
  {
    hide Request;
  }
}
