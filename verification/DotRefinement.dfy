/** The DoT worker pool is an instance of the switch-over protocol: every step of a pool worker is one
    step of a resolver worker there, or invisible. */
module DotRefinement {
  import opened Bytes
  import opened Wrappers
  import P = DotPool
  import S = Switchover
  import DnsProxy

  /** A pool worker as the switch-over sees it: only a reply in hand is visible. */
  function AbsWorker(jobs: seq<P.Job>, x: P.Worker): S.Worker {
    if x.i >= |jobs| then S.Waiting
    else
      match x.pc
      case Answered => S.Holding(DnsProxy.Reply(jobs[x.i].pkt, x.resp))
      case Warming => S.Worker.Warming(DnsProxy.Reply(jobs[x.i].pkt, x.resp))
      case Writing => S.Worker.Writing(DnsProxy.Reply(jobs[x.i].pkt, x.resp))
      case _ => S.Waiting
  }

  function AbsWorkers(s: P.State): (ws: seq<S.Worker>)
    ensures |ws| == |s.workers|
  {
    seq(|s.workers|, w requires 0 <= w < |s.workers| => AbsWorker(s.jobs, s.workers[w]))
  }

  function Written(us: seq<P.Written>): seq<seq<byte>> {
    seq(|us|, k requires 0 <= k < |us| => us[k].bytes)
  }

  /** A batch in progress, inside the rest of the system. */
  function Abs(s: P.State, rest: S.State): S.State {
    rest.(warm := s.warm, workers := AbsWorkers(s), utun := rest.utun + Written(s.utun))
  }

  /** What the switch-over sees of a pool event. */
  function AbsEvent(s: P.State, e: P.Event): Option<S.Event> {
    if e.Stop? || e.w >= |s.workers| then None
    else
      var x := s.workers[e.w];
      if (x.pc == P.Asking || x.pc == P.Retrying) && P.Fits(e.o) then
        if x.i < |s.jobs| then Some(S.Answer(e.w, s.jobs[x.i], e.o.resp)) else None
      else if P.HasAnswer(x) then Some(S.WorkerStep(e.w))
      else None
  }

  lemma PoolRefines(s: P.State, e: P.Event, rest: S.State)
    requires P.Inv(s)
    requires forall j :: j in s.jobs ==> j in rest.channel
    ensures Abs(P.Next(s, e), rest) ==
            match AbsEvent(s, e)
            case None => Abs(s, rest)
            case Some(a) => S.Next(Abs(s, rest), a)
  {
    hide DnsProxy.Reply, P.Sum, P.Attempts, P.Conns, P.Replies, P.WarmFirst, P.Claims, P.Step;
    if e.Work? && e.w < |s.workers| {
      StepRefines(s, e.w, e.o, rest);
    } else {
      assert AbsWorkers(P.Next(s, e)) == AbsWorkers(s);
    }
  }

  /** One step, seen at the worker that takes it. */
  lemma WorkerRefines(s: P.State, w: nat, o: P.Outcome)
    requires P.Claims(s) && w < |s.workers|
    ensures var t := P.Step(s, w, o);
            var x, y := AbsWorker(s.jobs, s.workers[w]), AbsWorker(s.jobs, t.workers[w]);
            t.jobs == s.jobs && AbsWorkers(t) == AbsWorkers(s)[w := y]
            && match AbsEvent(s, P.Work(w, o))
               case None => y == x && t.warm == s.warm && t.utun == s.utun
               case Some(a) =>
                 if a.Answer? then
                   a.job in s.jobs && x.Waiting? && y == S.Holding(DnsProxy.Reply(a.job.pkt, a.resp))
                   && t.warm == s.warm && t.utun == s.utun
                 else
                   a == S.WorkerStep(w)
                   && match x
                      case Waiting => false
                      case Holding(r) =>
                        y == (if s.warm then S.Worker.Writing(r) else S.Worker.Warming(r))
                        && t.warm == s.warm && t.utun == s.utun
                      case Warming(r) => y == S.Worker.Writing(r) && t.warm && t.utun == s.utun
                      case Writing(r) => y.Waiting? && t.warm == s.warm && Written(t.utun) == Written(s.utun) + [r]
  {
    hide DnsProxy.Reply, P.Sum;
    var t := P.Step(s, w, o);
    assert AbsWorkers(t) == AbsWorkers(s)[w := AbsWorker(s.jobs, t.workers[w])];
  }

  lemma StepRefines(s: P.State, w: nat, o: P.Outcome, rest: S.State)
    requires P.Claims(s) && w < |s.workers|
    requires forall j :: j in s.jobs ==> j in rest.channel
    ensures Abs(P.Step(s, w, o), rest) ==
            match AbsEvent(s, P.Work(w, o))
            case None => Abs(s, rest)
            case Some(a) => S.Next(Abs(s, rest), a)
  {
    hide DnsProxy.Reply, P.Sum, P.Step, P.Claims, AbsWorker, Written;
    WorkerRefines(s, w, o);
    var x := AbsWorker(s.jobs, s.workers[w]);
    assert AbsWorkers(s)[w] == x && AbsWorkers(s)[w := x] == AbsWorkers(s);
    assert forall r :: rest.utun + (Written(s.utun) + [r]) == (rest.utun + Written(s.utun)) + [r];
  }
}
