/** The DoT resolver and the TX thread as one system, over whole runs: batch after batch of pool workers
    on the one side, reads, offers and looks at the flag on the other, interleaved in any way. */
module DotSystem {
  import opened Bytes
  import P = DotPool
  import S = Switchover
  import R = DotRefinement
  import DnsProxy

  /** The current batch, and the rest: the TX thread, the channel, what earlier batches wrote. */
  datatype System = System(pool: P.State, rest: S.State)

  datatype Event =
    | Pool(step: P.Event)
    | Tx(step': S.Event)
    | NewBatch(jobs: seq<P.Job>, conns: seq<P.Conn>)

  /** The system as the switch-over protocol sees it. */
  function View(y: System): S.State {
    R.Abs(y.pool, y.rest)
  }

  function Init(encrypted: bool, ourIp: Quad): System {
    System(P.Init([], [], 0, true, false), S.Init(encrypted, ourIp))
  }

  predicate OfTx(e: S.Event) {
    e.Read? || e.TxStep? || e.ResolverGone?
  }

  /** A batch is started when the last one is done, with queries from the channel. */
  ghost predicate CanStart(y: System, jobs: seq<P.Job>, conns: seq<P.Conn>) {
    && P.AllDone(y.pool) && P.Startable(conns, y.pool.nextConn)
    && forall j :: j in jobs ==> j in y.rest.channel
  }

  ghost function Next(y: System, e: Event): System {
    match e
    case Pool(p) => y.(pool := P.Next(y.pool, p))
    case Tx(t) => if OfTx(t) then y.(rest := S.Next(View(y), t).(utun := y.rest.utun)) else y
    case NewBatch(jobs, conns) =>
      if CanStart(y, jobs, conns) then
        System(P.Init(jobs, conns, y.pool.nextConn, y.pool.running, y.pool.warm),
               y.rest.(utun := y.rest.utun + R.Written(y.pool.utun)))
      else y
  }

  ghost function Run(y: System, es: seq<Event>): System {
    if es == [] then y else Next(Run(y, es[..|es| - 1]), es[|es| - 1])
  }

  ghost predicate Inv(y: System) {
    && P.Inv(y.pool) && S.Inv(View(y))
    && forall j :: j in y.pool.jobs ==> j in y.rest.channel
  }

  lemma PoolStep(y: System, p: P.Event)
    requires Inv(y)
    ensures Inv(Next(y, Pool(p)))
  {
    hide P.Next, P.Inv, S.Inv, S.Next, R.Abs;
    P.NextInv(y.pool, p);
    P.NextKeeps(y.pool, p);
    R.PoolRefines(y.pool, p, y.rest);
    match R.AbsEvent(y.pool, p) {
      case None =>
      case Some(a) => S.NextInv(View(y), a);
    }
  }

  /** A step of the TX thread is that step of the protocol. */
  lemma TxRefines(y: System, t: S.Event)
    requires OfTx(t)
    ensures View(Next(y, Tx(t))) == S.Next(View(y), t)
    ensures y.rest.channel <= Next(y, Tx(t)).rest.channel
  {
    hide DnsProxy.QueryLen, DnsProxy.Reply, S.JobOf, R.AbsWorkers, R.Written;
  }

  lemma TxStep(y: System, t: S.Event)
    requires Inv(y) && OfTx(t)
    ensures Inv(Next(y, Tx(t)))
  {
    TxRefines(y, t);
    hide P.Inv, S.Inv, S.Next, R.Abs;
    S.NextInv(View(y), t);
  }

  /** A pool about to start: nothing written, and workers the protocol sees as waiting. */
  lemma FreshPool(jobs: seq<P.Job>, conns: seq<P.Conn>, nextConn: P.Conn, running: bool, warm: bool)
    requires P.Startable(conns, nextConn)
    ensures var s := P.Init(jobs, conns, nextConn, running, warm);
            && s.warm == warm && s.jobs == jobs && R.Written(s.utun) == []
            && forall w :: w in R.AbsWorkers(s) ==> w.Waiting?
  {
    hide DnsProxy.Reply;
  }

  /** Between two batches the protocol sees nothing but other waiting workers. */
  lemma BatchView(y: System, jobs: seq<P.Job>, conns: seq<P.Conn>)
    requires CanStart(y, jobs, conns)
    ensures var t := Next(y, NewBatch(jobs, conns));
            && t.pool == P.Init(jobs, conns, y.pool.nextConn, y.pool.running, y.pool.warm)
            && t.rest.channel == y.rest.channel
            && View(t) == View(y).(workers := R.AbsWorkers(t.pool))
  {
    FreshPool(jobs, conns, y.pool.nextConn, y.pool.running, y.pool.warm);
    hide P.Init, R.AbsWorkers, R.Written;
    var u := y.rest.utun + R.Written(y.pool.utun);
    assert u + [] == u;
  }

  lemma BatchStep(y: System, jobs: seq<P.Job>, conns: seq<P.Conn>)
    requires Inv(y) && CanStart(y, jobs, conns)
    ensures Inv(Next(y, NewBatch(jobs, conns)))
  {
    P.InitInv(jobs, conns, y.pool.nextConn, y.pool.running, y.pool.warm);
    FreshPool(jobs, conns, y.pool.nextConn, y.pool.running, y.pool.warm);
    BatchView(y, jobs, conns);
    hide P.Inv, P.Init, S.Inv, View, R.AbsWorkers, R.Written, Next, P.AllDone, P.Startable;
    Waiting(View(y), R.AbsWorkers(Next(y, NewBatch(jobs, conns)).pool));
  }

  lemma Waiting(s: S.State, ws: seq<S.Worker>)
    requires S.Inv(s) && forall w :: w in ws ==> w.Waiting?
    ensures S.Inv(s.(workers := ws))
  {
    var t := s.(workers := ws);
    hide S.Right, S.Recognised, S.Packets, S.Delivered;
    forall d | d in t.decisions ensures S.Right(t, d) {
      S.StillRight(s, t, d);
    }
    S.SameRecognised(s, t);
    assert forall k :: 0 <= k < |ws| ==> ws[k] in ws;
  }

  lemma {:induction false} RunInv(y: System, es: seq<Event>)
    requires Inv(y)
    ensures Inv(Run(y, es))
  {
    hide Inv, Next;
    if es != [] {
      var t, e := Run(y, es[..|es| - 1]), es[|es| - 1];
      RunInv(y, es[..|es| - 1]);
      NextInv(t, e);
    }
  }

  lemma NextInv(y: System, e: Event)
    requires Inv(y)
    ensures Inv(Next(y, e))
  {
    hide P.Inv, S.Inv, P.Next, S.Next, R.Abs, P.Init;
    match e {
      case Pool(p) => PoolStep(y, p);
      case Tx(t) =>
        if OfTx(t) {
          TxStep(y, t);
        }
      case NewBatch(jobs, conns) =>
        if CanStart(y, jobs, conns) {
          BatchStep(y, jobs, conns);
        }
    }
  }

  lemma InitInv(encrypted: bool, ourIp: Quad)
    ensures Inv(Init(encrypted, ourIp))
  {
    P.InitInv([], [], 0, true, false);
    FreshPool([], [], 0, true, false);
    S.InitInv(encrypted, ourIp);
    hide P.Inv, P.Init, S.Inv, R.AbsWorkers, R.Written;
    var v := View(Init(encrypted, ourIp));
    assert v == S.Init(encrypted, ourIp).(workers := v.workers);
    Waiting(S.Init(encrypted, ourIp), v.workers);
  }

  /** Over every interleaving of any number of batches with the TX thread: what the protocol promises
      holds of the DoT resolver, and what the pool promises of the batch at work. */
  lemma Safety(encrypted: bool, ourIp: Quad, es: seq<Event>)
    ensures S.Safe(View(Run(Init(encrypted, ourIp), es)))
    ensures P.Inv(Run(Init(encrypted, ourIp), es).pool)
  {
    hide Next, P.Inv, S.Inv, S.Safe;
    InitInv(encrypted, ourIp);
    RunInv(Init(encrypted, ourIp), es);
    S.InvSafe(View(Run(Init(encrypted, ourIp), es)));
  }
}
