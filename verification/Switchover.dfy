/** The switch from the phone's resolver to encrypted DNS (src/main.rs): the TX thread, any number of
    resolver workers (DoH or DoT) and the `warm` flag they share.

    A run is any sequence of events; each lets one thread take its next atomic step. */
module Switchover {
  import opened Bytes
  import opened Wrappers
  import opened NetTypes
  import P = DotPool
  import DnsProxy
  import Frame
  import Tunnel

  type Job = P.Job

  /** The TX thread between two reads: about to offer a query to the resolver, or about to look at
      the flag, the offer having gone through or not. */
  datatype Tx = Reading | Offering(job: Job) | Checking(job: Job, delivered: bool)

  /** A resolver worker: waiting, or holding a reply it has yet to write. */
  datatype Worker = Waiting | Holding(reply: seq<byte>) | Warming(reply: seq<byte>) | Writing(reply: seq<byte>)

  /** What the TX thread did with a packet. `kept`: it went on to the phone. For a recognised query,
      `sawWarm` is the flag it read and `written` how many encrypted replies were out by then. */
  datatype Decision = Decision(pkt: seq<byte>, recognised: bool, delivered: bool, sawWarm: bool,
                               written: nat, kept: bool)

  datatype State = State(encrypted: bool, ourIp: Quad, warm: bool, resolverUp: bool, tx: Tx,
                         channel: seq<Job>, workers: seq<Worker>, utun: seq<seq<byte>>,
                         decisions: seq<Decision>)

  datatype Event =
    | Read(pkt: seq<byte>)
    | TxStep
    | Answer(w: nat, job: Job, resp: seq<byte>)
    | WorkerStep(w: nat)
    | Spawn
    | ResolverGone

  function Init(encrypted: bool, ourIp: Quad): State {
    State.State(encrypted, ourIp, false, true, Reading, [], [], [], [])
  }

  /** The packet and the query in it, as they go to the resolver. */
  function JobOf(pkt: seq<byte>, ourIp: Quad): Job
    requires DnsProxy.QueryLen(pkt, ourIp).Some?
  {
    DnsProxy.RecognisedIsReplyable(pkt, ourIp);
    P.Job(pkt, pkt[|pkt| - DnsProxy.QueryLen(pkt, ourIp).value..])
  }

  predicate Recognised(s: State, pkt: seq<byte>) {
    s.encrypted && DnsProxy.QueryLen(pkt, s.ourIp).Some?
  }

  function NextTx(s: State): State {
    match s.tx
    case Reading => s
    case Offering(job) =>
      s.(tx := Checking(job, s.resolverUp), channel := if s.resolverUp then s.channel + [job] else s.channel)
    case Checking(job, delivered) =>
      s.(tx := Reading,
         decisions := s.decisions + [Decision(job.pkt, true, delivered, s.warm, |s.utun|, !s.warm)])
  }

  function NextWorker(s: State, w: nat): State
    requires w < |s.workers|
  {
    match s.workers[w]
    case Waiting => s
    case Holding(r) => s.(workers := s.workers[w := if s.warm then Writing(r) else Warming(r)])
    case Warming(r) => s.(workers := s.workers[w := Writing(r)], warm := true)
    case Writing(r) => s.(workers := s.workers[w := Waiting], utun := s.utun + [r])
  }

  function Next(s: State, e: Event): State {
    match e
    case Read(pkt) =>
      if s.tx != Reading then s
      else if Recognised(s, pkt) then s.(tx := Offering(JobOf(pkt, s.ourIp)))
      else s.(decisions := s.decisions + [Decision(pkt, false, false, false, 0, true)])
    case TxStep => NextTx(s)
    case Answer(w, job, resp) =>
      if w < |s.workers| && s.workers[w].Waiting? && job in s.channel
      then s.(workers := s.workers[w := Holding(DnsProxy.Reply(job.pkt, resp))])
      else s
    case WorkerStep(w) => if w < |s.workers| then NextWorker(s, w) else s
    case Spawn => s.(workers := s.workers + [Waiting])
    case ResolverGone => s.(resolverUp := false)
  }

  function Run(s: State, es: seq<Event>): State {
    if es == [] then s else Next(Run(s, es[..|es| - 1]), es[|es| - 1])
  }

  /** The queries delivered to the resolver, by the TX thread's own record. */
  function Delivered(ds: seq<Decision>): seq<seq<byte>> {
    if ds == [] then []
    else Delivered(ds[..|ds| - 1]) + if ds[|ds| - 1].delivered then [ds[|ds| - 1].pkt] else []
  }

  function Packets(js: seq<Job>): seq<seq<byte>> {
    seq(|js|, k requires 0 <= k < |js| => js[k].pkt)
  }

  lemma Appends(ds: seq<Decision>, d: Decision, js: seq<Job>, j: Job)
    ensures Delivered(ds + [d]) == if d.delivered then Delivered(ds) + [d.pkt] else Delivered(ds)
    ensures Packets(js + [j]) == Packets(js) + [j.pkt]
  {
    assert (ds + [d])[..|ds|] == ds;
    assert Delivered(ds) + [] == Delivered(ds);
  }

  /** What the record says of one packet, whatever the interleaving was. */
  ghost predicate Right(s: State, d: Decision) {
    && d.recognised == Recognised(s, d.pkt)
    && d.kept == !(d.recognised && d.sawWarm)
    && (d.recognised && d.written > 0 ==> d.sawWarm)
    && (d.sawWarm ==> s.warm) && d.written <= |s.utun|
    && (d.recognised && s.resolverUp ==> d.delivered)
    && (d.delivered ==> d.recognised)
  }

  /** Nothing is written before the flag is set, the record is right, and the resolver was offered
      exactly the delivered queries, in order. */
  ghost predicate Inv(s: State) {
    && (s.utun != [] ==> s.warm)
    && (forall w :: 0 <= w < |s.workers| && s.workers[w].Writing? ==> s.warm)
    && (forall d :: d in s.decisions ==> Right(s, d))
    && (s.tx.Offering? || s.tx.Checking? ==> Recognised(s, s.tx.job.pkt))
    && (s.tx.Checking? && s.resolverUp ==> s.tx.delivered)
    && Packets(s.channel) == Delivered(s.decisions) + InFlight(s)
  }

  function InFlight(s: State): seq<seq<byte>> {
    if s.tx.Checking? && s.tx.delivered then [s.tx.job.pkt] else []
  }

  lemma ReadInv(s: State, pkt: seq<byte>)
    requires Inv(s)
    ensures Inv(Next(s, Read(pkt)))
  {
    hide JobOf, DnsProxy.Reply, DnsProxy.QueryLen, Packets, Delivered;
    Appends(s.decisions, Decision(pkt, false, false, false, 0, true), [], P.Job(Zeros(44), []));
    if Recognised(s, pkt) {
      JobPacket(pkt, s.ourIp);
    }
  }

  lemma TxInv(s: State)
    requires Inv(s)
    ensures Inv(NextTx(s))
  {
    hide DnsProxy.QueryLen, Packets, Delivered;
    if !s.tx.Reading? {
      var d := Decision(s.tx.job.pkt, true, s.tx.Checking? && s.tx.delivered, s.warm, |s.utun|, !s.warm);
      Appends(s.decisions, d, s.channel, s.tx.job);
      assert Delivered(s.decisions) + [] == Delivered(s.decisions);
    }
  }

  /** The record stays right as the flag, the interface log and the resolver move on. */
  lemma StillRight(s: State, t: State, d: Decision)
    requires Right(s, d) && t.encrypted == s.encrypted && t.ourIp == s.ourIp
    requires (s.warm ==> t.warm) && (t.resolverUp ==> s.resolverUp) && |s.utun| <= |t.utun|
    ensures Right(t, d)
  {
    hide DnsProxy.QueryLen;
  }

  lemma SameRecognised(s: State, t: State)
    requires t.encrypted == s.encrypted && t.ourIp == s.ourIp
    ensures forall pkt :: Recognised(t, pkt) == Recognised(s, pkt)
  {
  }

  lemma OthersInv(s: State, e: Event)
    requires Inv(s) && !e.Read? && !e.TxStep?
    ensures Inv(Next(s, e))
  {
    hide Right, Recognised, DnsProxy.Reply, DnsProxy.QueryLen, Packets, Delivered;
    NextKeeps(s, e);
    var t := Next(s, e);
    forall d | d in t.decisions ensures Right(t, d) {
      StillRight(s, t, d);
    }
    SameRecognised(s, t);
  }

  lemma NextInv(s: State, e: Event)
    requires Inv(s)
    ensures Inv(Next(s, e))
  {
    hide Inv;
    match e {
      case Read(pkt) => ReadInv(s, pkt);
      case TxStep => TxInv(s);
      case _ => OthersInv(s, e);
    }
  }

  lemma NextKeeps(s: State, e: Event)
    ensures Next(s, e).encrypted == s.encrypted && Next(s, e).ourIp == s.ourIp
    ensures s.warm ==> Next(s, e).warm
    ensures s.utun <= Next(s, e).utun
  {
    hide JobOf, DnsProxy.Reply, DnsProxy.QueryLen;
  }

  lemma JobPacket(pkt: seq<byte>, ourIp: Quad)
    requires DnsProxy.QueryLen(pkt, ourIp).Some?
    ensures JobOf(pkt, ourIp).pkt == pkt
    ensures JobOf(pkt, ourIp).query == pkt[DnsProxy.UdpStart(pkt) + 8..]
  {
    DnsProxy.RecognisedIsReplyable(pkt, ourIp);
  }

  // ---- The TX thread's side: what the other threads may do to it ----

  /** What the TX thread can see of `s`: all but the workers. */
  function TxView(s: State): State {
    s.(workers := [])
  }

  /** Any number of steps of other threads, as the TX thread sees them. */
  ghost predicate Interferes(s: State, t: State) {
    && t == s.(warm := t.warm, resolverUp := t.resolverUp, utun := t.utun)
    && (s.warm ==> t.warm) && (t.resolverUp ==> s.resolverUp)
    && s.utun <= t.utun && (s.utun < t.utun ==> t.warm)
  }

  /** Every step of every other thread is of that kind, */
  lemma OthersInterfere(s: State, e: Event)
    requires Inv(s) && !e.Read? && !e.TxStep?
    ensures Interferes(TxView(s), TxView(Next(s, e)))
  {
    hide DnsProxy.Reply, DnsProxy.QueryLen, Packets, Delivered;
  }

  /** so are any two after one another, */
  lemma InterferesTwice(s: State, t: State, u: State)
    requires Interferes(s, t) && Interferes(t, u)
    ensures Interferes(s, u)
  {
  }

  /** and the TX thread's own steps do not look at the workers: whatever happens in the system, the TX
      thread sees a step of its own or interference, */
  lemma SeenByTx(s: State, e: Event)
    requires Inv(s)
    ensures if e.Read? || e.TxStep? then TxView(Next(s, e)) == Next(TxView(s), e)
            else Interferes(TxView(s), TxView(Next(s, e)))
  {
    if e.Read? || e.TxStep? {
      hide DnsProxy.QueryLen, JobOf, Packets, Delivered;
    } else {
      OthersInterfere(s, e);
    }
  }

  /** and all of it keeps what the TX thread relies on. */
  lemma InterferesInv(s: State, t: State)
    requires Inv(s) && s.workers == [] && Interferes(s, t)
    ensures Inv(t)
  {
    hide Right, Recognised, Packets, Delivered;
    forall d | d in t.decisions ensures Right(t, d) {
      StillRight(s, t, d);
    }
    SameRecognised(s, t);
  }

  lemma {:induction false} RunInv(s: State, es: seq<Event>)
    requires Inv(s)
    ensures Inv(Run(s, es)) && (s.warm ==> Run(s, es).warm) && s.utun <= Run(s, es).utun
    ensures Run(s, es).encrypted == s.encrypted && Run(s, es).ourIp == s.ourIp
  {
    hide Inv, Next;
    if es != [] {
      RunInv(s, es[..|es| - 1]);
      NextInv(Run(s, es[..|es| - 1]), es[|es| - 1]);
      NextKeeps(Run(s, es[..|es| - 1]), es[|es| - 1]);
    }
  }

  lemma InitInv(encrypted: bool, ourIp: Quad)
    ensures Inv(Init(encrypted, ourIp))
  {
  }

  /** What is promised. The flag is set before any encrypted reply is written. A packet is withheld from
      the phone exactly when it is a recognised query and the flag was seen set; that is so for every
      recognised query checked after a reply was written. Every recognised query is offered to the
      resolver, kept on the ordinary path as well while the flag was seen clear; while the resolver is up
      it has been given exactly those queries, in order. */
  ghost predicate Safe(s: State) {
    && (s.utun != [] ==> s.warm)
    && (forall d :: d in s.decisions ==>
          && (d.recognised <==> s.encrypted && DnsProxy.QueryLen(d.pkt, s.ourIp).Some?)
          && (!d.kept <==> d.recognised && d.sawWarm)
          && (d.recognised && d.written > 0 ==> !d.kept)
          && (d.recognised && s.resolverUp ==> d.delivered))
    && Packets(s.channel) == Delivered(s.decisions) + InFlight(s)
  }

  lemma InvSafe(s: State)
    requires Inv(s)
    ensures Safe(s)
  {
    hide DnsProxy.QueryLen;
  }

  /** Safety, over every interleaving. */
  lemma Safety(encrypted: bool, ourIp: Quad, es: seq<Event>)
    ensures Safe(Run(Init(encrypted, ourIp), es))
  {
    hide Next, Inv, Safe;
    InitInv(encrypted, ourIp);
    RunInv(Init(encrypted, ourIp), es);
    InvSafe(Run(Init(encrypted, ourIp), es));
  }

  /** "No leak" is not true while the flag is clear: whatever went before, a recognised query that is
      checked then goes to the phone, and to the resolver as well while that is up. */
  lemma ColdQueryIsKept(s: State)
    requires Inv(s) && s.tx.Checking? && !s.warm
    ensures Recognised(s, s.tx.job.pkt)
    ensures Next(s, TxStep).decisions ==
            s.decisions + [Decision(s.tx.job.pkt, true, s.tx.delivered, false, 0, true)]
    ensures s.resolverUp ==> s.tx.delivered && s.tx.job.pkt in Packets(s.channel)
  {
    hide DnsProxy.QueryLen, Delivered;
    if s.tx.delivered {
      assert Packets(s.channel)[|Delivered(s.decisions)|] == s.tx.job.pkt;
    }
  }

  /** There are such states: the first query of every run is one, for any packet that is a query. */
  lemma FirstQueryIsKept(pkt: seq<byte>, ourIp: Quad)
    requires DnsProxy.QueryLen(pkt, ourIp).Some?
    ensures var s := Run(Init(true, ourIp), [Read(pkt), TxStep, TxStep]);
            s.decisions == [Decision(pkt, true, true, false, 0, true)] && Packets(s.channel) == [pkt]
  {
    hide DnsProxy.QueryLen, Run;
    var s0, es := Init(true, ourIp), [Read(pkt), TxStep, TxStep];
    JobPacket(pkt, ourIp);
    RunSnoc(s0, [], es[0]);
    RunSnoc(s0, [es[0]], es[1]);
    RunSnoc(s0, [es[0], es[1]], es[2]);
    assert Run(s0, []) == s0 by { RunNothing(s0); }
    assert [] + [es[0]] == [es[0]] && [es[0]] + [es[1]] == [es[0], es[1]] && [es[0], es[1]] + [es[2]] == es;
  }

  lemma RunNothing(s: State)
    ensures Run(s, []) == s
  {
  }

  lemma RunSnoc(s: State, es: seq<Event>, e: Event)
    ensures Run(s, es + [e]) == Next(Run(s, es), e)
  {
    hide Next;
    assert (es + [e])[..|es|] == es;
  }

  /** One step decides at most one packet, by the flag it finds. */
  lemma StepDecides(s: State, e: Event)
    requires Inv(s) && s.utun != []
    ensures var t := Next(s, e);
            t.decisions == s.decisions
            || exists d :: t.decisions == s.decisions + [d] && (d.recognised ==> !d.kept)
  {
    hide JobOf, DnsProxy.Reply, DnsProxy.QueryLen, Packets, Delivered;
  }

  /** From the first encrypted reply on, for the rest of every run: no recognised query read later, or
      still unchecked, goes to the phone. */
  lemma {:induction false} NoneKeptAfterReply(s: State, es: seq<Event>)
    requires Inv(s) && s.utun != []
    ensures s.decisions <= Run(s, es).decisions
    ensures forall k :: |s.decisions| <= k < |Run(s, es).decisions| ==>
              Run(s, es).decisions[k].recognised ==> !Run(s, es).decisions[k].kept
  {
    hide Next, Inv;
    if es != [] {
      NoneKeptAfterReply(s, es[..|es| - 1]);
      RunInv(s, es[..|es| - 1]);
      StepDecides(Run(s, es[..|es| - 1]), es[|es| - 1]);
    }
  }

  /** A recognised query that is kept and fits an Ethernet frame does reach the wire. */
  lemma KeptReachesWire(pkt: seq<byte>, ourIp: Quad, src: Frame.Mac, gateway: Frame.Mac)
    requires DnsProxy.QueryLen(pkt, ourIp).Some? && |pkt| <= ETH_BUF - 10
    ensures Tunnel.WireOf(Tunnel.Outgoing(pkt, gateway), src).Some?
  {
  }
}
