/** The TX thread's loop (src/main.rs): read, intercept, look at the flag, forward. The `warm` flag, the
    gateway address and the ends of both channels belong to other threads, which may run between any
    two steps. Every step here is the TX step of the same name of the switch-over protocol. */
module TxThread {
  import opened Bytes
  import opened Wrappers
  import opened Frame
  import opened NetTypes
  import opened Tunnel
  import Dispatch
  import Rndis
  import DnsProxy
  import P = DotPool
  import S = Switchover

  const BATCH := 64

  /** The packets decided on, in order. */
  function Asked(ds: seq<S.Decision>): seq<seq<byte>> {
    seq(|ds|, k requires 0 <= k < |ds| => ds[k].pkt)
  }

  lemma AskedAppend(ds: seq<S.Decision>, d: S.Decision)
    ensures Asked(ds + [d]) == Asked(ds) + [d.pkt]
  {
  }

  /** The reads that returned a packet. */
  function NonEmpty(rs: seq<seq<byte>>): seq<seq<byte>> {
    if rs == [] then []
    else NonEmpty(rs[..|rs| - 1]) + if rs[|rs| - 1] != [] then [rs[|rs| - 1]] else []
  }

  lemma NonEmptyAppend(rs: seq<seq<byte>>, r: seq<byte>)
    ensures NonEmpty(rs + [r]) == if r != [] then NonEmpty(rs) + [r] else NonEmpty(rs)
  {
    assert (rs + [r])[..|rs|] == rs;
    assert NonEmpty(rs) + [] == NonEmpty(rs);
  }

  /** From the `from`-th on, no recognised query goes to the phone. */
  ghost predicate NoneKept(ds: seq<S.Decision>, from: nat) {
    forall k :: from <= k < |ds| && ds[k].recognised ==> !ds[k].kept
  }

  /** The packets of the decisions that kept theirs. */
  function Kept(ds: seq<S.Decision>): seq<seq<byte>> {
    if ds == [] then []
    else Kept(ds[..|ds| - 1]) + if ds[|ds| - 1].kept then [ds[|ds| - 1].pkt] else []
  }

  lemma KeptAppend(ds: seq<S.Decision>, d: S.Decision)
    ensures Kept(ds + [d]) == if d.kept then Kept(ds) + [d.pkt] else Kept(ds)
  {
    assert (ds + [d])[..|ds|] == ds;
    assert Kept(ds) + [] == Kept(ds);
  }

  lemma ForwardAppend(os: seq<Outgoing>, o: Outgoing, src: Mac)
    ensures Packets(os + [o]) == Packets(os) + [o.pkt]
    ensures Wires(os + [o], src) ==
            match WireOf(o, src) case None => Wires(os, src) case Some(w) => Wires(os, src) + [w]
  {
    hide WireOf;
    assert (os + [o])[..|os|] == os;
    assert Wires(os, src) + [] == Wires(os, src);
  }

  lemma KeptAll(ds: seq<S.Decision>)
    requires forall d :: d in ds ==> d.kept
    ensures Kept(ds) == Asked(ds)
  {
    if ds != [] {
      KeptAll(ds[..|ds| - 1]);
      assert ds == ds[..|ds| - 1] + [ds[|ds| - 1]];
    }
  }

  lemma NoTrues(bs: seq<bool>)
    ensures Trues(bs[..0]) == 0
  {
  }

  lemma OneMorePoll(bs: seq<bool>, n: nat)
    requires n < |bs|
    ensures Trues(bs[..n + 1]) == Trues(bs[..n]) + if bs[n] then 1 else 0
  {
    TruesAppend(bs[..n], bs[n]);
    assert bs[..n + 1] == bs[..n] + [bs[n]];
  }

  class TxThread {
    const encrypted: bool
    const ourIp: Quad
    const mac: Mac
    const ebuf: array<byte>
    const rbuf: array<byte>

    // written by other threads
    var warm: bool
    var gateway: Mac
    var resolverUp: bool
    var ioUp: bool
    var running: bool
    var utun: seq<seq<byte>>
    // what the next reads of the interface return; an empty one is a read that finds nothing
    var incoming: seq<seq<byte>>
    // the two channels, by what was put into them
    var offered: seq<P.Job>
    var sent: seq<seq<byte>>

    // the reads so far, the packet that came too late, the decisions taken, and each packet sent with
    // the gateway address it got
    ghost var taken: seq<seq<byte>>
    ghost var dropped: seq<seq<byte>>
    ghost var decisions: seq<S.Decision>
    ghost var forwarded: seq<Outgoing>
    ghost var tx: S.Tx
    // every address the gateway has had
    ghost var known: seq<Mac>

    constructor (encrypted: bool, ourIp: Quad, mac: Mac, incoming: seq<seq<byte>>)
      ensures Valid() && decisions == [] && taken == [] && dropped == [] && this.incoming == incoming
      ensures this.encrypted == encrypted && this.ourIp == ourIp && this.mac == mac
      ensures fresh(ebuf) && fresh(rbuf)
    {
      this.encrypted, this.ourIp, this.mac, this.incoming := encrypted, ourIp, mac, incoming;
      ebuf := new byte[ETH_BUF];
      rbuf := new byte[RNDIS_BUF];
      warm, resolverUp, ioUp, running, utun := false, true, true, true, [];
      gateway := [255, 255, 255, 255, 255, 255];
      offered, sent, taken, dropped, decisions, forwarded, tx := [], [], [], [], [], [], S.Reading;
      known := [[255, 255, 255, 255, 255, 255]];
    }

    /** This thread and what it shares, as a state of the switch-over protocol. */
    ghost function View(): S.State
      reads `warm, `resolverUp, `offered, `utun, `decisions, `tx
    {
      S.State.State(encrypted, ourIp, warm, resolverUp, tx, offered, [], utun, decisions)
    }

    /** The I/O thread, while it listens, got the wire form of every kept packet that fits. */
    ghost predicate Forwarded()
      reads `ioUp, `decisions, `forwarded, `sent
    {
      && Packets(forwarded) <= Kept(decisions) && (ioUp ==> Packets(forwarded) == Kept(decisions))
      && sent == Wires(forwarded, mac)
    }

    /** Every packet read was decided on, in order, but for at most one, read after `running` had been
        cleared. */
    ghost predicate Accounted()
      reads `taken, `dropped, `decisions, `running
    {
      && NonEmpty(taken) == Asked(decisions) + dropped
      && |dropped| <= 1 && (dropped != [] ==> !running)
    }

    ghost predicate Valid()
      reads `warm, `resolverUp, `ioUp, `running, `utun, `offered, `sent
      reads `taken, `dropped, `decisions, `forwarded, `tx, `gateway, `known
    {
      && Addressed() && ebuf != rbuf && ebuf.Length == ETH_BUF && rbuf.Length == RNDIS_BUF
      && tx.Reading? && S.Inv(View()) && Forwarded() && Accounted()
    }

    /** Everything was sent to an address the gateway had. */
    ghost predicate Addressed()
      reads `gateway, `known, `forwarded
    {
      gateway in known && forall o :: o in forwarded ==> o.gateway in known
    }

    /** What holds between any two steps, with a packet in hand or not: the protocol's invariant; what was
        sent is the wire form of the first packets kept; what was decided on are the first packets read. */
    ghost predicate Steady()
      reads `warm, `resolverUp, `utun, `offered, `sent, `taken, `decisions, `forwarded, `tx, `gateway, `known
    {
      && Addressed()
      && S.Inv(View()) && Packets(forwarded) <= Kept(decisions) && sent == Wires(forwarded, mac)
      && Asked(decisions) <= NonEmpty(taken)
    }

    lemma ValidSteady()
      requires Valid()
      ensures Steady()
    {
      hide S.Inv, Packets, Kept, Wires, NonEmpty, Asked;
    }

    /** Any other thread may run here: resolver workers may set the flag and write replies, the I/O thread
        may learn a gateway, and the receivers of the channels may end. */
    method Others()
      requires Steady()
      modifies `warm, `gateway, `known, `resolverUp, `ioUp, `running, `utun
      ensures Steady() && S.Interferes(old(View()), View()) && old(known) <= known
      ensures (ioUp ==> old(ioUp)) && (running ==> old(running))
    {
      hide S.Inv, S.Interferes, Packets, Kept, Wires, NonEmpty, Asked;
      ghost var s := View();
      Resolve();
      Notice();
      S.InterferesInv(s, View());
    }

    /** What the resolver may do. */
    method Resolve()
      modifies `warm, `resolverUp, `utun
      ensures S.Interferes(old(View()), View())
    {
      var warmed: bool, down: bool := *, *;
      var replies: seq<seq<byte>> := *;
      warm := warm || warmed;
      if warm {
        utun := utun + replies;
      }
      resolverUp := resolverUp && !down;
    }

    /** What the I/O thread and the main thread may do. */
    method Notice()
      requires Addressed()
      modifies `gateway, `known, `ioUp, `running
      ensures Addressed() && known == old(known) + [gateway]
      ensures (ioUp ==> old(ioUp)) && (running ==> old(running))
    {
      var ioDown: bool, stop: bool := *, *;
      var gw: Mac := *;
      ioUp := ioUp && !ioDown;
      running := running && !stop;
      gateway := gw;
      known := known + [gw];
    }

    /** The intercept: the job for the resolver, if the packet is one of our DNS queries. */
    method Intercept(pkt: seq<byte>) returns (job: Option<P.Job>)
      ensures job.Some? <==> encrypted && DnsProxy.QueryLen(pkt, ourIp).Some?
      ensures job.Some? ==> job.value == S.JobOf(pkt, ourIp) && job.value.pkt == pkt
    {
      if encrypted {
        var len := DnsProxy.QueryLen(pkt, ourIp);
        if len.Some? {
          S.JobPacket(pkt, ourIp);
          return Some(P.Job(pkt, pkt[|pkt| - len.value..]));
        }
      }
      return None;
    }

    /** Looks at a packet; one that is no query of ours is decided on at once. */
    method Look(pkt: seq<byte>) returns (job: Option<P.Job>)
      requires Steady() && tx.Reading? && Asked(decisions) + [pkt] <= NonEmpty(taken)
      modifies `decisions, `tx
      ensures Steady() && View() == S.Next(old(View()), S.Read(pkt))
      ensures job.None? ==> tx.Reading?
                            && decisions == old(decisions) + [S.Decision(pkt, false, false, false, 0, true)]
      ensures job.Some? ==> tx == S.Offering(job.value) && job.value.pkt == pkt && decisions == old(decisions)
    {
      hide DnsProxy.QueryLen, S.JobOf, S.Inv, Packets, Kept, Wires, NonEmpty, Asked;
      S.NextInv(View(), S.Read(pkt));
      job := Intercept(pkt);
      match job {
        case None =>
          ghost var d := S.Decision(pkt, false, false, false, 0, true);
          KeptAppend(decisions, d);
          AskedAppend(decisions, d);
          decisions := decisions + [d];
        case Some(j) => tx := S.Offering(j);
      }
    }

    /** Sends a query to the resolver, which may be gone. */
    method Send(job: P.Job)
      requires Steady() && tx == S.Offering(job)
      modifies `offered, `tx
      ensures Steady() && View() == S.Next(old(View()), S.TxStep) && tx.Checking? && tx.job == job
    {
      hide S.Inv, Packets, Kept, Wires, NonEmpty, Asked;
      S.NextInv(View(), S.TxStep);
      ghost var delivered := resolverUp;
      if resolverUp {
        offered := offered + [job];
      }
      tx := S.Checking(job, delivered);
    }

    /** Reads the flag: `keep` is whether the query goes to the phone too. */
    method Check(job: P.Job) returns (keep: bool)
      requires Steady() && tx.Checking? && tx.job == job && Asked(decisions) + [job.pkt] <= NonEmpty(taken)
      modifies `decisions, `tx
      ensures Steady() && View() == S.Next(old(View()), S.TxStep) && tx.Reading? && keep == !warm
      ensures |decisions| == |old(decisions)| + 1 && old(decisions) < decisions
      ensures var d := decisions[|decisions| - 1]; d.pkt == job.pkt && d.kept == keep && d.recognised
    {
      hide S.Inv, Packets, Kept, Wires, NonEmpty, Asked;
      S.NextInv(View(), S.TxStep);
      keep := !warm;
      ghost var d := S.Decision(job.pkt, true, tx.delivered, warm, |utun|, keep);
      KeptAppend(decisions, d);
      AskedAppend(decisions, d);
      decisions := decisions + [d];
      tx := S.Reading;
    }

    /** The intercept half for one packet: offers a recognised query, then looks at the flag. A recognised
        query is withheld from the phone for sure if the flag was set before. */
    method Decide(pkt: seq<byte>) returns (ghost d: S.Decision, keep: bool)
      requires Steady() && tx.Reading? && Asked(decisions) + [pkt] <= NonEmpty(taken)
      modifies `warm, `gateway, `known, `resolverUp, `ioUp, `running, `utun, `offered, `decisions, `tx
      ensures Steady() && tx.Reading? && decisions == old(decisions) + [d]
      ensures d.pkt == pkt && d.kept == keep && (d.recognised && old(warm) ==> !keep)
      ensures (old(warm) ==> warm) && (ioUp ==> old(ioUp)) && (running ==> old(running))
    {
      hide S.Inv, S.Next, Steady, NonEmpty, Asked;
      var job := Look(pkt);
      keep := true;
      if job.Some? {
        Others();
        Send(job.value);
        Others();
        keep := Check(job.value);
      }
      d := decisions[|decisions| - 1];
    }

    /** Sends a kept packet's wire form, if it has one, to the I/O thread. */
    method Push(o: Outgoing, w: Option<seq<byte>>)
      requires Steady() && o.gateway in known && w == WireOf(o, mac) && ioUp && Packets(forwarded) + [o.pkt] == Kept(decisions)
      modifies `sent, `forwarded
      ensures Steady() && Forwarded()
    {
      hide S.Inv, WireOf, Packets, Kept, Wires, NonEmpty, Asked;
      ForwardAppend(forwarded, o, mac);
      forwarded := forwarded + [o];
      if w.Some? {
        sent := sent + [w.value];
      }
    }

    /** The forwarding half, for a packet decided on. `up` is false when the I/O thread is gone. */
    method Pass(pkt: seq<byte>, keep: bool, ghost before: seq<S.Decision>, ghost d: S.Decision) returns (up: bool)
      requires Steady() && tx.Reading? && decisions == before + [d] && d.pkt == pkt && d.kept == keep
      requires ebuf != rbuf && ebuf.Length == ETH_BUF && rbuf.Length == RNDIS_BUF
      requires ioUp ==> Packets(forwarded) == Kept(before)
      modifies `warm, `gateway, `known, `resolverUp, `ioUp, `running, `utun, `sent, `forwarded, ebuf, rbuf
      ensures Steady() && tx.Reading? && Forwarded() && (!up ==> !ioUp)
      ensures (old(warm) ==> warm) && (running ==> old(running)) && (ioUp ==> old(ioUp))
    {
      hide S.Inv, WireOf, Packets, Kept, Wires, NonEmpty, Asked;
      KeptAppend(before, d);
      up := true;
      if !keep {
        return;
      }
      Others();
      var o := Outgoing(pkt, gateway);
      assert o.gateway in known;
      var w := Forward(o, mac, ebuf, rbuf);
      Others();
      if ioUp {
        Push(o, w);
      } else {
        up := w.None?;
      }
    }

    /** One packet. */
    method Handle(pkt: seq<byte>) returns (up: bool, ghost d: S.Decision)
      requires Steady() && tx.Reading? && Forwarded() && dropped == []
      requires NonEmpty(taken) == Asked(decisions) + [pkt]
      requires ebuf != rbuf && ebuf.Length == ETH_BUF && rbuf.Length == RNDIS_BUF
      modifies `warm, `gateway, `known, `resolverUp, `ioUp, `running, `utun, `offered, `sent
      modifies `decisions, `forwarded, `tx, ebuf, rbuf
      ensures Valid() && (!up ==> !ioUp)
      ensures (old(warm) ==> warm) && (running ==> old(running)) && (ioUp ==> old(ioUp))
      ensures decisions == old(decisions) + [d] && d.pkt == pkt && (d.recognised && old(warm) ==> !d.kept)
    {
      hide S.Inv, WireOf, Packets, Kept, Wires, NonEmpty, Asked;
      ghost var before := decisions;
      var keep;
      d, keep := Decide(pkt);
      AskedAppend(before, d);
      up := Pass(pkt, keep, before, d);
      assert Asked(decisions) + dropped == Asked(before) + [pkt];
    }

    /** One read of the interface. */
    method Read() returns (pkt: seq<byte>)
      requires Steady()
      modifies `incoming, `taken
      ensures Steady() && taken + incoming == old(taken + incoming)
      ensures if old(incoming) == [] then pkt == [] && taken == old(taken) && incoming == []
              else taken == old(taken) + [pkt]
      ensures NonEmpty(taken) == if pkt != [] then NonEmpty(old(taken)) + [pkt] else NonEmpty(old(taken))
    {
      hide S.Inv, Packets, Kept, Wires, NonEmpty, Asked;
      if incoming == [] {
        return [];
      }
      pkt := incoming[0];
      NonEmptyAppend(taken, pkt);
      taken, incoming := taken + [pkt], incoming[1..];
    }

    /** A batch, by the reads from the `from`-th to the `to`-th: 64, or fewer only when the last found nothing,
        `running` was cleared, or the I/O thread is gone. None but the last found nothing. */
    ghost predicate Whole(from: nat, to: nat)
      reads `incoming, `taken, `dropped, `ioUp
    {
      && from <= to <= |taken| && to - from <= 64 && (forall k :: from <= k < to - 1 ==> taken[k] != [])
      && (to - from == 64 || (from < to && (taken[to - 1] == [] || !ioUp)) || incoming == [] || dropped != [])
    }

    /** One turn of the batch loop. `more` is whether it goes on. */
    method Turn() returns (more: bool)
      requires Valid() && dropped == []
      modifies this, ebuf, rbuf
      ensures Valid() && old(decisions) <= decisions
      ensures (old(warm) ==> warm) && (running ==> old(running)) && (ioUp ==> old(ioUp))
      ensures taken + incoming == old(taken + incoming)
      ensures old(taken) <= taken && |taken| <= |old(taken)| + 1
      ensures if more then dropped == [] && |taken| == |old(taken)| + 1 && taken[|taken| - 1] != []
              else Whole(|old(taken)|, |taken|)
      ensures old(warm) ==> NoneKept(decisions, |old(decisions)|)
    {
      hide S.Inv, Packets, Kept, Wires, NonEmpty, Asked;
      ValidSteady();
      var pkt := Read();
      if pkt == [] {
        return false;
      }
      Others();
      if !running {
        dropped := [pkt];
        return false;
      }
      ghost var d;
      more, d := Handle(pkt);
    }

    /** One batch: at most 64 reads, to the first that finds nothing. */
    method Batch()
      requires Valid() && dropped == []
      modifies this, ebuf, rbuf
      ensures Valid() && old(decisions) <= decisions
      ensures (old(warm) ==> warm) && (running ==> old(running)) && (ioUp ==> old(ioUp))
      ensures taken + incoming == old(taken + incoming)
      ensures old(taken) <= taken && Whole(|old(taken)|, |taken|)
      ensures old(warm) ==> NoneKept(decisions, |old(decisions)|)
    {
      hide View, Forwarded, Accounted;
      var n := 0;
      while n < BATCH
        invariant Valid() && dropped == [] && n <= BATCH
        invariant old(decisions) <= decisions && |taken| == |old(taken)| + n
        invariant (old(warm) ==> warm) && (running ==> old(running)) && (ioUp ==> old(ioUp))
        invariant taken + incoming == old(taken + incoming) && old(taken) <= taken
        invariant forall k :: |old(taken)| <= k < |taken| ==> taken[k] != []
        invariant old(warm) ==> NoneKept(decisions, |old(decisions)|)
      {
        ghost var before := taken;
        n := n + 1;
        var more := Turn();
        assert forall k :: 0 <= k < |before| ==> taken[k] == before[k];
        if !more {
          break;
        }
      }
    }

    /** Polling: time for the others. */
    method Idle()
      requires Valid()
      modifies `warm, `gateway, `known, `resolverUp, `ioUp, `running, `utun
      ensures Valid() && (old(warm) ==> warm) && (running ==> old(running)) && (ioUp ==> old(ioUp))
    {
      hide S.Inv, Packets, Kept, Wires, NonEmpty, Asked;
      ValidSteady();
      Others();
    }

    /** One poll, and the batch if it finds packets and `running` has not been cleared meanwhile. */
    method Poll(ready: bool) returns (ran: bool)
      requires Valid() && dropped == []
      modifies this, ebuf, rbuf
      ensures Valid() && old(decisions) <= decisions && (old(warm) ==> warm) && (running ==> dropped == [])
      ensures taken + incoming == old(taken + incoming) && old(taken) <= taken
      ensures if ran then ready && Whole(|old(taken)|, |taken|) else taken == old(taken) && (ready ==> !running)
      ensures forall a, b :: old(Whole(a, b)) ==> Whole(a, b)
      ensures old(warm) ==> NoneKept(decisions, |old(decisions)|)
    {
      hide View, Forwarded, NonEmpty, Asked;
      Idle();
      ran := ready && running;
      if ran {
        ghost var before := taken;
        Batch();
        assert forall k :: 0 <= k < |before| ==> taken[k] == before[k];
        assert before == taken[..|before|];
      }
    }

    /** The batches of a run: between any two of the marks lies one. */
    ghost predicate Batches(marks: seq<nat>)
      reads `incoming, `taken, `dropped, `ioUp
    {
      forall k :: 0 <= k < |marks| - 1 ==> Whole(marks[k], marks[k + 1])
    }

    /** The loop around it. `polls` is what each poll of the interface finds; `n` of them are made, until
        `running` is cleared. Each that finds packets is followed by a batch, unless `running` has been
        cleared meanwhile. `marks` are the numbers of reads between which the batches lie. */
    method Run(polls: seq<bool>) returns (n: nat, ghost marks: seq<nat>)
      requires Valid() && dropped == []
      modifies this, ebuf, rbuf
      ensures Valid() && old(decisions) <= decisions && (old(warm) ==> warm)
      ensures taken + incoming == old(taken + incoming) && old(taken) <= taken
      ensures n <= |polls| && (n == |polls| || !running)
      ensures marks != [] && marks[0] == |old(taken)| && marks[|marks| - 1] == |taken| && Batches(marks)
      ensures |marks| == 1 + Trues(polls[..n]) || (!running && |marks| == Trues(polls[..n]))
      ensures old(warm) ==> NoneKept(decisions, |old(decisions)|)
    {
      hide Valid, Whole, Trues;
      n, marks := 0, [|taken|];
      NoTrues(polls);
      while n < |polls| && running
        invariant Valid() && (running ==> dropped == []) && old(decisions) <= decisions && (old(warm) ==> warm)
        invariant taken + incoming == old(taken + incoming) && old(taken) <= taken
        invariant n <= |polls| && marks != [] && marks[0] == |old(taken)| && marks[|marks| - 1] == |taken|
        invariant Batches(marks)
        invariant |marks| == 1 + Trues(polls[..n]) || (!running && |marks| == Trues(polls[..n]))
        invariant old(warm) ==> NoneKept(decisions, |old(decisions)|)
        decreases |polls| - n
      {
        OneMorePoll(polls, n);
        var ran := Poll(polls[n]);
        n := n + 1;
        if ran {
          marks := marks + [|taken|];
        }
      }
    }
  }

  /** End to end: while the I/O thread listens, the bytes it was given decode and dispatch on the other
      side to exactly the kept packets that fit, in order, with canonical address families. */
  lemma SentDecodes(t: TxThread, me: Dispatch.Host, padding: nat)
    requires t.Valid() && t.ioUp
    ensures Dispatch.Delivered(Rndis.Frames(Join(t.sent) + Zeros(padding)), me) == Expected(Kept(t.decisions))
  {
    hide DnsProxy.QueryLen, S.Packets, S.Delivered, WireOf, Packets, Kept, Wires, Rndis.Frames, Expected;
    JoinWires(t.forwarded, t.mac);
    Transparent(t.forwarded, t.mac, me, padding);
  }
}
