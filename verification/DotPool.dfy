/** The DNS-over-TLS worker pool (src/main.rs, `process_dot_serial`): threads that claim queries from a
    shared counter, may reconnect, write replies and hand their connection back.

    A run is any sequence of events; an event lets one worker take its next atomic step, with the
    environment choosing whether a query or a connection attempt succeeds, or clears `running`. */
module DotPool {
  import opened Bytes
  import opened Wrappers
  import DnsProxy

  const MAX_POOL := 4
  const MAX_RESPONSE := 4096

  /** A TLS connection, by identity. */
  type Conn = nat

  /** A packet the interceptor lets through. */
  type Intercepted = p: seq<byte> | DnsProxy.Replyable(p) witness Zeros(44)

  datatype Job = Job(pkt: Intercepted, query: seq<byte>)

  /** Where a worker stands. */
  datatype Pc = Claiming | Claimed | Asking | Reconnecting | Retrying | Answered | Warming | Writing
              | Returning | Done

  /** A worker: its connection, the index it claimed last, the response it got last. */
  datatype Worker = Worker(pc: Pc, conn: Conn, i: nat, resp: seq<byte>)

  /** What the environment decides for a step that needs it. */
  datatype Outcome = Yes(resp: seq<byte>) | No

  datatype Event = Stop | Work(w: nat, o: Outcome)

  /** A packet written to the utun interface, and the query it answers. */
  datatype Written = Written(index: nat, bytes: seq<byte>)

  /** What was tried for a query, and how it went. */
  datatype Try = Query(ok: bool) | Connect(ok: bool)

  /** The shared state, then what is remembered about the run: who claimed each index, how often each
      query was attempted, the response each got, all that was tried for each, and which worker opened
      each connection. */
  datatype State = State(
    jobs: seq<Job>, counter: nat, running: bool, warm: bool, workers: seq<Worker>, nextConn: Conn,
    returned: seq<Conn>, utun: seq<Written>,
    owner: seq<nat>, attempts: seq<nat>, answers: map<nat, seq<byte>>, log: seq<seq<Try>>, opener: map<Conn, nat>)

  ghost predicate Distinct(cs: seq<Conn>) {
    forall j, k :: 0 <= j < k < |cs| ==> cs[j] != cs[k]
  }

  function Init(jobs: seq<Job>, conns: seq<Conn>, nextConn: Conn, running: bool, warm: bool): State
    requires Distinct(conns)
  {
    State(jobs, 0, running, warm,
          seq(|conns|, w requires 0 <= w < |conns| => Worker(Claiming, conns[w], 0, [])), nextConn,
          [], [],
          [], seq(|jobs|, _ => 0), map[], seq(|jobs|, _ => []), map w: nat | w < |conns| :: conns[w] := w)
  }

  /** The worker's own program: where it goes next and what it then holds. */
  function Moved(s: State, x: Worker, o: Outcome): Worker {
    match x.pc
    case Claiming => x.(pc := Claimed, i := s.counter)
    case Claimed => x.(pc := if x.i >= |s.jobs| || !s.running then Returning else Asking)
    case Asking => if Fits(o) then x.(pc := Answered, resp := o.resp) else x.(pc := Reconnecting)
    case Reconnecting => if o.Yes? then x.(pc := Retrying, conn := s.nextConn) else x.(pc := Claiming)
    case Retrying => if Fits(o) then x.(pc := Answered, resp := o.resp) else x.(pc := Claiming)
    case Answered => x.(pc := if s.warm then Writing else Warming)
    case Warming => x.(pc := Writing)
    case Writing => x.(pc := Claiming)
    case Returning => x.(pc := Done)
    case Done => x
  }

  /** The next atomic step of worker `w`: it moves on, and the step's effect on what is shared. */
  function Step(s: State, w: nat, o: Outcome): State
    requires w < |s.workers|
  {
    var x := s.workers[w];
    var y := Moved(s, x, o);
    var claims, opens := x.pc == Claiming, x.pc == Reconnecting && o.Yes?;
    State(
      s.jobs,
      if claims then s.counter + 1 else s.counter,
      s.running,
      s.warm || x.pc == Warming,
      s.workers[w := y],
      if opens then s.nextConn + 1 else s.nextConn,
      if x.pc == Returning then s.returned + [x.conn] else s.returned,
      if x.pc == Writing then s.utun + Reply(s.jobs, x.i, x.resp) else s.utun,
      if claims then s.owner + [w] else s.owner,
      if x.pc == Claimed && y.pc == Asking then Bump(s.attempts, x.i) else s.attempts,
      if y.pc == Answered && x.pc != Answered then s.answers[x.i := y.resp] else s.answers,
      Noted(s.log, x.i, Tries(x.pc, o)),
      if opens then s.opener[s.nextConn := w] else s.opener)
  }

  /** What a step tries, by where the worker stands. */
  function Tries(pc: Pc, o: Outcome): seq<Try> {
    if pc == Asking || pc == Retrying then [Query(Fits(o))]
    else if pc == Reconnecting then [Connect(o.Yes?)]
    else []
  }

  function Noted(log: seq<seq<Try>>, i: nat, ts: seq<Try>): seq<seq<Try>> {
    if i < |log| then log[i := log[i] + ts] else log
  }

  /** A response the DoT client accepts. */
  predicate Fits(o: Outcome) {
    o.Yes? && |o.resp| <= MAX_RESPONSE
  }

  function Bump(ns: seq<nat>, i: nat): seq<nat> {
    if i < |ns| then ns[i := ns[i] + 1] else ns
  }

  function Reply(jobs: seq<Job>, i: nat, resp: seq<byte>): seq<Written> {
    if i < |jobs| then [Written(i, DnsProxy.Reply(jobs[i].pkt, resp))] else []
  }

  function Next(s: State, e: Event): State {
    match e
    case Stop => s.(running := false)
    case Work(w, o) => if w < |s.workers| then Step(s, w, o) else s
  }

  function Run(s: State, es: seq<Event>): State {
    if es == [] then s else Next(Run(s, es[..|es| - 1]), es[|es| - 1])
  }

  // ---- Counting over the workers ----

  datatype Weight = OverClaims(n: nat) | Finished | Rank

  function Weigh(k: Weight, x: Worker): nat {
    match k
    case OverClaims(n) => if x.pc != Claiming && x.i >= n then 1 else 0
    case Finished => if x.pc == Done then 1 else 0
    case Rank =>
      match x.pc
      case Done => 0
      case Returning => 1
      case Claiming => 2
      case Writing => 3
      case Warming => 4
      case Answered => 5
      case Retrying => 6
      case Reconnecting => 7
      case Asking => 8
      case Claimed => 9
  }

  function Sum(ws: seq<Worker>, k: Weight): nat {
    if ws == [] then 0 else Weigh(k, ws[0]) + Sum(ws[1..], k)
  }

  lemma {:induction false} SumUpdate(ws: seq<Worker>, w: nat, x: Worker, k: Weight)
    requires w < |ws|
    ensures Sum(ws[w := x], k) == Sum(ws, k) - Weigh(k, ws[w]) + Weigh(k, x)
  {
    hide Weigh;
    if w == 0 {
      assert ws[0 := x][1..] == ws[1..];
    } else {
      SumUpdate(ws[1..], w - 1, x, k);
      assert ws[w := x][1..] == ws[1..][w - 1 := x];
    }
  }

  lemma {:induction false} SumBound(ws: seq<Worker>, k: Weight)
    requires !k.Rank?
    ensures Sum(ws, k) <= |ws|
    ensures (forall x :: x in ws ==> Weigh(k, x) == 1) ==> Sum(ws, k) == |ws|
    ensures (forall x :: x in ws ==> Weigh(k, x) == 0) ==> Sum(ws, k) == 0
  {
    if ws != [] {
      SumBound(ws[1..], k);
    }
  }

  // ---- Invariants ----

  /** The query a worker is at work on. */
  predicate Busy(x: Worker) {
    x.pc in {Asking, Reconnecting, Retrying, Answered, Warming, Writing}
  }

  predicate HasAnswer(x: Worker) {
    x.pc in {Answered, Warming, Writing}
  }

  /** Claims: an index belongs to the one worker that drew it; overclaims are counted exactly; while
      `running` holds, nobody gives up early. */
  ghost predicate Claims(s: State) {
    && |s.owner| == s.counter
    && (forall w :: 0 <= w < |s.workers| && s.workers[w].pc != Claiming ==>
          s.workers[w].i < s.counter && s.owner[s.workers[w].i] == w)
    && (forall w :: 0 <= w < |s.workers| && Busy(s.workers[w]) ==> s.workers[w].i < |s.jobs|)
    && (forall i :: 0 <= i < s.counter ==> s.owner[i] < |s.workers|)
    && (s.counter <= |s.jobs| ==> Sum(s.workers, OverClaims(|s.jobs|)) == 0)
    && (s.counter > |s.jobs| ==> s.counter == |s.jobs| + Sum(s.workers, OverClaims(|s.jobs|)))
    && (s.running ==> forall w :: 0 <= w < |s.workers| && (s.workers[w].pc == Returning || s.workers[w].pc == Done)
                        ==> s.workers[w].i >= |s.jobs|)
  }

  /** Attempts: at most one per query, and while `running` holds exactly one per claimed query. */
  ghost predicate Attempts(s: State)
    requires Claims(s)
  {
    && |s.attempts| == |s.jobs|
    && (forall i :: 0 <= i < |s.jobs| ==> s.attempts[i] <= 1)
    && (forall i :: s.counter <= i < |s.jobs| ==> s.attempts[i] == 0)
    && (forall w :: 0 <= w < |s.workers| && s.workers[w].pc == Claimed && s.workers[w].i < |s.jobs| ==>
          s.attempts[s.workers[w].i] == 0)
    && (s.running ==> forall i :: 0 <= i < |s.jobs| && i < s.counter && s.attempts[i] == 0 ==>
                        s.workers[s.owner[i]].pc == Claimed && s.workers[s.owner[i]].i == i)
  }

  function Replied(us: seq<Written>): set<nat> {
    set u | u in us :: u.index
  }

  /** Replies: one per answered query, built from its own packet... */
  ghost predicate Logged(us: seq<Written>, jobs: seq<Job>, answers: map<nat, seq<byte>>) {
    && (forall u :: u in us ==>
          && u.index < |jobs| && u.index in answers
          && u.bytes == DnsProxy.Reply(jobs[u.index].pkt, answers[u.index]))
    && (forall j, k :: 0 <= j < k < |us| ==> us[j].index != us[k].index)
  }

  /** ...and an answer not yet written is held by the worker that got it. */
  ghost predicate Held(ws: seq<Worker>, owner: seq<nat>, answers: map<nat, seq<byte>>, replied: set<nat>)
    requires forall i :: i in answers ==> i < |owner| && owner[i] < |ws|
  {
    && (forall w :: 0 <= w < |ws| && HasAnswer(ws[w]) ==>
          ws[w].i in answers && answers[ws[w].i] == ws[w].resp && ws[w].i !in replied)
    && (forall w :: 0 <= w < |ws| && ws[w].pc != Claiming && !HasAnswer(ws[w]) ==> ws[w].i !in answers)
    && (forall i :: i in answers && i !in replied ==> HasAnswer(ws[owner[i]]) && ws[owner[i]].i == i)
  }

  ghost predicate Replies(s: State)
    requires Claims(s)
  {
    && (forall i :: i in s.answers ==> i < s.counter && |s.answers[i]| <= 4096)
    && Logged(s.utun, s.jobs, s.answers) && Held(s.workers, s.owner, s.answers, Replied(s.utun))
  }

  /** A query answered at once, or on a new connection. */
  predicate Succeeded(l: seq<Try>) {
    l == [Query(true)] || l == [Query(false), Connect(true), Query(true)]
  }

  /** A query given up: it failed, and then so did the connection attempt, or the query on the new one. */
  predicate GivenUp(l: seq<Try>) {
    l == [Query(false), Connect(false)] || l == [Query(false), Connect(true), Query(false)]
  }

  predicate Trying(x: Worker) {
    x.pc == Asking || x.pc == Reconnecting || x.pc == Retrying
  }

  /** What has been tried where a worker stands. */
  function SoFar(pc: Pc): seq<Try> {
    if pc == Reconnecting then [Query(false)] else if pc == Retrying then [Query(false), Connect(true)] else []
  }

  /** Tries: nothing for a query not attempted; what its worker has got to for one at work on; for any
      other it was answered or given up, in one of the ways there are. */
  ghost predicate Tried(ws: seq<Worker>, owner: seq<nat>, attempts: seq<nat>, answers: map<nat, seq<byte>>,
                        log: seq<seq<Try>>)
    requires forall i :: 0 <= i < |owner| ==> owner[i] < |ws|
  {
    && |log| == |attempts|
    && (forall w :: 0 <= w < |ws| && Trying(ws[w]) ==>
          && ws[w].i < |log| && log[ws[w].i] == SoFar(ws[w].pc)
          && attempts[ws[w].i] != 0 && ws[w].i !in answers)
    && (forall i :: 0 <= i < |log| && attempts[i] == 0 ==> log[i] == [] && i !in answers)
    && (forall i :: 0 <= i < |log| && i in answers ==> Succeeded(log[i]))
    && (forall i :: 0 <= i < |log| && attempts[i] != 0 && i !in answers ==>
          GivenUp(log[i]) || (i < |owner| && Trying(ws[owner[i]]) && ws[owner[i]].i == i))
  }

  ghost predicate Efforts(s: State)
    requires Claims(s)
  {
    Tried(s.workers, s.owner, s.attempts, s.answers, s.log)
  }

  /** Connections: each worker holds one it was given or opened itself, so no two share one; exactly
      the finished ones have been returned, once each. */
  ghost predicate Conns(s: State) {
    && (forall c :: c in s.opener ==> c < s.nextConn)
    && (forall w :: 0 <= w < |s.workers| ==>
          s.workers[w].conn in s.opener && s.opener[s.workers[w].conn] == w)
    && (forall c :: c in s.returned ==>
          c in s.opener && s.opener[c] < |s.workers|
          && s.workers[s.opener[c]].pc == Done && s.workers[s.opener[c]].conn == c)
    && (forall w :: 0 <= w < |s.workers| && s.workers[w].pc == Done ==> s.workers[w].conn in s.returned)
    && (forall j, k :: 0 <= j < k < |s.returned| ==> s.returned[j] != s.returned[k])
    && |s.returned| == Sum(s.workers, Finished)
  }

  /** The flag: set before anything is written. */
  ghost predicate WarmFirst(s: State) {
    && (s.utun != [] ==> s.warm)
    && (forall w :: 0 <= w < |s.workers| && s.workers[w].pc == Writing ==> s.warm)
  }

  ghost predicate Inv(s: State) {
    Claims(s) && Attempts(s) && Replies(s) && Efforts(s) && Conns(s) && WarmFirst(s)
  }

  // ---- What one step changes, seen from each invariant ----

  /** Worker `w` is all that moves. */
  ghost predicate Moves(s: State, t: State, w: nat) {
    && w < |s.workers| == |t.workers| && t.workers == s.workers[w := t.workers[w]]
    && t.jobs == s.jobs && t.running == s.running
  }

  lemma ClaimEffect(s: State, w: nat, o: Outcome)
    requires w < |s.workers|
    ensures var t, x := Step(s, w, o), s.workers[w];
            && Moves(s, t, w)
            && var y := t.workers[w];
            && (x.pc == Claiming ==> y.pc == Claimed && y.i == s.counter
                                     && t.counter == s.counter + 1 && t.owner == s.owner + [w])
            && (x.pc != Claiming ==> y.i == x.i && t.counter == s.counter && t.owner == s.owner)
            && (x.pc == Claimed ==> y.pc == if x.i >= |s.jobs| || !s.running then Returning else Asking)
            && (Busy(x) ==> Busy(y) || y.pc == Claiming)
            && (x.pc == Returning || x.pc == Done ==> y.pc == Done)
  {
    hide DnsProxy.Reply;
  }

  lemma AttemptEffect(s: State, w: nat, o: Outcome)
    requires w < |s.workers|
    ensures var t, x := Step(s, w, o), s.workers[w];
            t.attempts == if x.pc == Claimed && x.i < |s.jobs| && s.running then Bump(s.attempts, x.i)
                          else s.attempts
  {
    hide DnsProxy.Reply;
  }

  lemma AnswerEffect(s: State, w: nat, o: Outcome)
    requires w < |s.workers|
    ensures var t, x := Step(s, w, o), s.workers[w];
            && Moves(s, t, w)
            && var y := t.workers[w];
            if (x.pc == Asking || x.pc == Retrying) && Fits(o) then
              && y.pc == Answered && |y.resp| <= 4096
              && t.answers == s.answers[x.i := y.resp] && t.utun == s.utun
            else if x.pc == Writing then
              y.pc == Claiming && t.answers == s.answers && t.utun == s.utun + Reply(s.jobs, x.i, x.resp)
            else
              HasAnswer(y) == HasAnswer(x) && y.resp == x.resp && t.answers == s.answers && t.utun == s.utun
  {
    hide DnsProxy.Reply;
  }

  lemma ConnEffect(s: State, w: nat, o: Outcome)
    requires w < |s.workers|
    ensures var t, x := Step(s, w, o), s.workers[w];
            && Moves(s, t, w)
            && var y := t.workers[w];
            && (y.pc == Done <==> x.pc == Returning || x.pc == Done)
            && t.returned == (if x.pc == Returning then s.returned + [x.conn] else s.returned)
            && if x.pc == Reconnecting && o.Yes? then
                 y.conn == s.nextConn && t.nextConn == s.nextConn + 1 && t.opener == s.opener[s.nextConn := w]
               else
                 y.conn == x.conn && t.nextConn == s.nextConn && t.opener == s.opener
  {
    hide DnsProxy.Reply;
  }

  lemma TryEffect(s: State, w: nat, o: Outcome)
    requires w < |s.workers|
    ensures var t, x := Step(s, w, o), s.workers[w];
            && Moves(s, t, w) && t.log == Noted(s.log, x.i, Tries(x.pc, o))
            && var y := t.workers[w];
            && (x.pc == Asking && !Fits(o) ==> y.pc == Reconnecting)
            && (x.pc == Reconnecting ==> y.pc == if o.Yes? then Retrying else Claiming)
            && (x.pc == Retrying && !Fits(o) ==> y.pc == Claiming)
            && (Trying(y) ==> Trying(x) || x.pc == Claimed)
  {
    hide DnsProxy.Reply;
  }

  // ---- Every step keeps the invariants ----

  lemma KeepsClaims(s: State, w: nat, o: Outcome)
    requires w < |s.workers| && Claims(s)
    ensures Claims(Step(s, w, o))
  {
    hide Step, Sum;
    ClaimEffect(s, w, o);
    SumUpdate(s.workers, w, Step(s, w, o).workers[w], OverClaims(|s.jobs|));
  }

  lemma KeepsAttempts(s: State, w: nat, o: Outcome)
    requires w < |s.workers| && Claims(s) && Attempts(s)
    ensures Claims(Step(s, w, o)) && Attempts(Step(s, w, o))
  {
    hide Step, Sum;
    KeepsClaims(s, w, o);
    ClaimEffect(s, w, o);
    AttemptEffect(s, w, o);
  }

  lemma KeepsRepliesAnswering(s: State, w: nat, o: Outcome)
    requires w < |s.workers| && Claims(s) && Replies(s) && Claims(Step(s, w, o))
    requires (s.workers[w].pc == Asking || s.workers[w].pc == Retrying) && Fits(o)
    ensures Replies(Step(s, w, o))
  {
    ClaimEffect(s, w, o);
    AnswerEffect(s, w, o);
    Apart(s, w);
    hide Step, Sum, DnsProxy.Reply, Replied;
    var x, y := s.workers[w], Step(s, w, o).workers[w];
    LogSame(s.utun, s.jobs, s.answers, x.i, y.resp);
    hide Logged;
    HeldAnswer(s.workers, w, y, s.owner, s.answers, Replied(s.utun));
  }

  lemma RepliedAppend(us: seq<Written>, u: Written)
    ensures Replied(us + [u]) == Replied(us) + {u.index}
    ensures forall k :: 0 <= k < |us| ==> us[k].index in Replied(us)
  {
    assert forall v :: v in us + [u] <==> v in us || v == u;
  }

  lemma LogAppend(us: seq<Written>, u: Written, jobs: seq<Job>, answers: map<nat, seq<byte>>)
    requires Logged(us, jobs, answers) && u.index !in Replied(us)
    requires u.index < |jobs| && u.index in answers
    requires u.bytes == DnsProxy.Reply(jobs[u.index].pkt, answers[u.index])
    ensures Logged(us + [u], jobs, answers)
  {
    RepliedAppend(us, u);
    hide Replied, DnsProxy.Reply;
    assert forall v :: v in us + [u] <==> v in us || v == u;
  }

  /** An answer to a query not yet answered leaves the log as it is. */
  lemma LogSame(us: seq<Written>, jobs: seq<Job>, answers: map<nat, seq<byte>>, i: nat, resp: seq<byte>)
    requires Logged(us, jobs, answers) && i !in answers
    ensures Logged(us, jobs, answers[i := resp])
    ensures i !in Replied(us)
  {
    hide DnsProxy.Reply;
  }

  /** A worker that got a response holds it. */
  lemma HeldAnswer(ws: seq<Worker>, w: nat, y: Worker, owner: seq<nat>, answers: map<nat, seq<byte>>, replied: set<nat>)
    requires forall i :: i in answers ==> i < |owner| && owner[i] < |ws|
    requires Held(ws, owner, answers, replied) && w < |ws| && ws[w].pc != Claiming && !HasAnswer(ws[w])
    requires y.i == ws[w].i < |owner| && owner[y.i] == w && HasAnswer(y) && y.i !in replied
    requires forall v :: 0 <= v < |ws| && v != w && ws[v].pc != Claiming ==> ws[v].i != ws[w].i
    ensures forall i :: i in answers[y.i := y.resp] ==> i < |owner| && owner[i] < |ws|
    ensures Held(ws[w := y], owner, answers[y.i := y.resp], replied)
  {
  }

  /** A worker that wrote its reply is free again; the others hold what they held. */
  lemma HeldWrite(ws: seq<Worker>, w: nat, y: Worker, owner: seq<nat>, answers: map<nat, seq<byte>>, replied: set<nat>)
    requires forall i :: i in answers ==> i < |owner| && owner[i] < |ws|
    requires Held(ws, owner, answers, replied) && w < |ws| && HasAnswer(ws[w]) && y.pc == Claiming
    requires forall v :: 0 <= v < |ws| && v != w && ws[v].pc != Claiming ==> ws[v].i != ws[w].i
    ensures Held(ws[w := y], owner, answers, replied + {ws[w].i})
  {
  }

  /** No two workers are at work on the same index, and the owner of an answered one is a worker. */
  lemma Apart(s: State, w: nat)
    requires w < |s.workers| && Claims(s) && s.workers[w].pc != Claiming
    ensures forall v :: 0 <= v < |s.workers| && v != w && s.workers[v].pc != Claiming ==>
              s.workers[v].i != s.workers[w].i
  {
    hide Sum;
  }

  lemma KeepsRepliesWriting(s: State, w: nat, o: Outcome)
    requires w < |s.workers| && Claims(s) && Replies(s) && Claims(Step(s, w, o))
    requires s.workers[w].pc == Writing
    ensures Replies(Step(s, w, o))
  {
    ClaimEffect(s, w, o);
    AnswerEffect(s, w, o);
    Apart(s, w);
    hide Step, Sum, DnsProxy.Reply, Replied, Logged;
    var x, y := s.workers[w], Step(s, w, o).workers[w];
    var u := Reply(s.jobs, x.i, x.resp)[0];
    RepliedAppend(s.utun, u);
    HeldWrite(s.workers, w, y, s.owner, s.answers, Replied(s.utun));
    LogAppend(s.utun, u, s.jobs, s.answers);
  }

  lemma KeepsReplies(s: State, w: nat, o: Outcome)
    requires w < |s.workers| && Claims(s) && Replies(s)
    ensures Claims(Step(s, w, o)) && Replies(Step(s, w, o))
  {
    hide Step, Sum, DnsProxy.Reply;
    KeepsClaims(s, w, o);
    if (s.workers[w].pc == Asking || s.workers[w].pc == Retrying) && Fits(o) {
      KeepsRepliesAnswering(s, w, o);
    } else if s.workers[w].pc == Writing {
      KeepsRepliesWriting(s, w, o);
    } else {
      ClaimEffect(s, w, o);
      AnswerEffect(s, w, o);
    }
  }

  lemma NothingNoted(log: seq<seq<Try>>, i: nat)
    ensures Noted(log, i, []) == log
  {
    assert i < |log| ==> log[i] + [] == log[i];
  }

  /** A worker not at work on a query takes a step that tries nothing, drawing the next index perhaps. */
  lemma TriedIdle(ws: seq<Worker>, w: nat, y: Worker, owner: seq<nat>, more: seq<nat>, attempts: seq<nat>,
                  answers: map<nat, seq<byte>>, log: seq<seq<Try>>)
    requires forall i :: 0 <= i < |owner + more| ==> (owner + more)[i] < |ws|
    requires forall i :: 0 <= i < |owner| ==> owner[i] < |ws|
    requires w < |ws| && !Trying(ws[w]) && !Trying(y) && Tried(ws, owner, attempts, answers, log)
    ensures Tried(ws[w := y], owner + more, attempts, answers, log)
  {
  }

  /** A worker starts on the query it has drawn. */
  lemma TriedStart(ws: seq<Worker>, w: nat, y: Worker, owner: seq<nat>, attempts: seq<nat>,
                   answers: map<nat, seq<byte>>, log: seq<seq<Try>>)
    requires forall i :: 0 <= i < |owner| ==> owner[i] < |ws|
    requires w < |ws| && !Trying(ws[w]) && y.pc == Asking && Tried(ws, owner, attempts, answers, log)
    requires y.i < |attempts| && attempts[y.i] == 0 && y.i < |owner| && owner[y.i] == w
    ensures Tried(ws[w := y], owner, attempts[y.i := attempts[y.i] + 1], answers, log)
  {
  }

  /** A try: another one follows it, or the query is given up. */
  lemma TriedOn(ws: seq<Worker>, w: nat, y: Worker, owner: seq<nat>, attempts: seq<nat>,
                answers: map<nat, seq<byte>>, log: seq<seq<Try>>, t: Try)
    requires forall i :: 0 <= i < |owner| ==> owner[i] < |ws|
    requires w < |ws| && Trying(ws[w]) && y.i == ws[w].i && Tried(ws, owner, attempts, answers, log)
    requires y.i < |owner| && owner[y.i] == w
    requires forall v :: 0 <= v < |ws| && v != w && Trying(ws[v]) ==> ws[v].i != y.i
    requires var l := SoFar(ws[w].pc) + [t]; if Trying(y) then l == SoFar(y.pc) else GivenUp(l)
    ensures Tried(ws[w := y], owner, attempts, answers, log[y.i := log[y.i] + [t]])
  {
  }

  /** A try that brings the answer. */
  lemma TriedDone(ws: seq<Worker>, w: nat, y: Worker, owner: seq<nat>, attempts: seq<nat>,
                  answers: map<nat, seq<byte>>, log: seq<seq<Try>>)
    requires forall i :: 0 <= i < |owner| ==> owner[i] < |ws|
    requires w < |ws| && Trying(ws[w]) && y.i == ws[w].i && !Trying(y) && Tried(ws, owner, attempts, answers, log)
    requires forall v :: 0 <= v < |ws| && v != w && Trying(ws[v]) ==> ws[v].i != y.i
    requires ws[w].pc != Reconnecting
    ensures Tried(ws[w := y], owner, attempts, answers[y.i := y.resp], log[y.i := log[y.i] + [Query(true)]])
  {
  }

  /** What `Claims` and `Attempts` say where a worker stands. */
  lemma Standing(s: State, w: nat)
    requires Claims(s) && Attempts(s) && w < |s.workers|
    ensures forall i :: 0 <= i < |s.owner| ==> s.owner[i] < |s.workers|
    ensures var x := s.workers[w];
            && (x.pc != Claiming ==> x.i < |s.owner| && s.owner[x.i] == w)
            && (x.pc == Claimed && x.i < |s.jobs| ==> x.i < |s.attempts| && s.attempts[x.i] == 0)
            && (Trying(x) ==> x.i < |s.attempts|)
    ensures forall v :: 0 <= v < |s.workers| && v != w && s.workers[v].pc != Claiming && s.workers[w].pc != Claiming
              ==> s.workers[v].i != s.workers[w].i
  {
    hide Sum;
  }

  lemma KeepsTrying(s: State, w: nat, o: Outcome)
    requires w < |s.workers| && Claims(s) && Attempts(s) && Efforts(s) && Claims(Step(s, w, o))
    requires Trying(s.workers[w])
    ensures Efforts(Step(s, w, o))
  {
    ClaimEffect(s, w, o);
    AttemptEffect(s, w, o);
    AnswerEffect(s, w, o);
    TryEffect(s, w, o);
    Standing(s, w);
    TryingIn(s, w);
    hide Step, Sum, DnsProxy.Reply, Claims, Attempts, Tried;
    var x, y := s.workers[w], Step(s, w, o).workers[w];
    if y.pc == Answered {
      TriedDone(s.workers, w, y, s.owner, s.attempts, s.answers, s.log);
    } else {
      TriedOn(s.workers, w, y, s.owner, s.attempts, s.answers, s.log, Tries(x.pc, o)[0]);
    }
  }

  /** A step that neither tries anything nor starts a query. */
  lemma KeepsIdle(s: State, w: nat, o: Outcome)
    requires w < |s.workers| && Claims(s) && Attempts(s) && Efforts(s) && Claims(Step(s, w, o))
    requires !Trying(s.workers[w]) && !Trying(Step(s, w, o).workers[w])
    ensures Efforts(Step(s, w, o))
  {
    ClaimEffect(s, w, o);
    AttemptEffect(s, w, o);
    AnswerEffect(s, w, o);
    TryEffect(s, w, o);
    OwnersIn(s);
    OwnersIn(Step(s, w, o));
    NothingNoted(s.log, s.workers[w].i);
    hide Step, Sum, DnsProxy.Reply, Claims, Tried, Fits, Reply, Bump;
    var x, y := s.workers[w], Step(s, w, o).workers[w];
    var more := if x.pc == Claiming then [w] else [];
    assert Step(s, w, o).owner == s.owner + more;
    TriedIdle(s.workers, w, y, s.owner, more, s.attempts, s.answers, s.log);
  }

  lemma KeepsStart(s: State, w: nat, o: Outcome)
    requires w < |s.workers| && Claims(s) && Attempts(s) && Efforts(s) && Claims(Step(s, w, o))
    requires !Trying(s.workers[w]) && Trying(Step(s, w, o).workers[w])
    ensures Efforts(Step(s, w, o))
  {
    ClaimEffect(s, w, o);
    AttemptEffect(s, w, o);
    AnswerEffect(s, w, o);
    TryEffect(s, w, o);
    Standing(s, w);
    NothingNoted(s.log, s.workers[w].i);
    hide Step, Sum, DnsProxy.Reply, Claims, Attempts, Tried, Fits, Reply;
    var y := Step(s, w, o).workers[w];
    TriedStart(s.workers, w, y, s.owner, s.attempts, s.answers, s.log);
  }

  lemma OwnersIn(s: State)
    requires Claims(s)
    ensures forall i :: 0 <= i < |s.owner| ==> s.owner[i] < |s.workers|
  {
    hide Sum;
  }

  lemma KeepsEfforts(s: State, w: nat, o: Outcome)
    requires w < |s.workers| && Claims(s) && Attempts(s) && Efforts(s)
    ensures Claims(Step(s, w, o)) && Efforts(Step(s, w, o))
  {
    KeepsClaims(s, w, o);
    hide Step, Claims, Attempts, Efforts;
    if Trying(s.workers[w]) {
      KeepsTrying(s, w, o);
    } else {
      IdleOrStart(s, w, o);
    }
  }

  lemma IdleOrStart(s: State, w: nat, o: Outcome)
    requires w < |s.workers| && Claims(s) && Attempts(s) && Efforts(s) && Claims(Step(s, w, o))
    requires !Trying(s.workers[w])
    ensures Efforts(Step(s, w, o))
  {
    ClaimEffect(s, w, o);
    hide Step, Claims, Attempts, Efforts, Trying;
    if Trying(Step(s, w, o).workers[w]) {
      KeepsStart(s, w, o);
    } else {
      KeepsIdle(s, w, o);
    }
  }

  lemma TryingIn(s: State, w: nat)
    requires Claims(s) && Efforts(s) && w < |s.workers| && Trying(s.workers[w])
    ensures s.workers[w].i < |s.log|
  {
    hide Sum;
  }

  lemma KeepsConns(s: State, w: nat, o: Outcome)
    requires w < |s.workers| && Conns(s)
    ensures Conns(Step(s, w, o))
  {
    hide Step, Sum;
    ConnEffect(s, w, o);
    SumUpdate(s.workers, w, Step(s, w, o).workers[w], Finished);
  }

  lemma KeepsWarm(s: State, w: nat, o: Outcome)
    requires w < |s.workers| && WarmFirst(s)
    ensures WarmFirst(Step(s, w, o)) && (s.warm ==> Step(s, w, o).warm)
  {
    hide Sum, DnsProxy.Reply;
  }

  // ---- Whole runs ----

  /** What a batch starts from: distinct connections, all older than the next one. */
  ghost predicate Startable(conns: seq<Conn>, nextConn: Conn) {
    Distinct(conns) && forall k :: 0 <= k < |conns| ==> conns[k] < nextConn
  }

  lemma InitInv(jobs: seq<Job>, conns: seq<Conn>, nextConn: Conn, running: bool, warm: bool)
    requires Startable(conns, nextConn)
    ensures Inv(Init(jobs, conns, nextConn, running, warm))
  {
    hide Sum, Init;
    InitClaims(jobs, conns, nextConn, running, warm);
    InitConns(jobs, conns, nextConn, running, warm);
    InitEmpty(jobs, conns, nextConn, running, warm);
  }

  lemma InitClaims(jobs: seq<Job>, conns: seq<Conn>, nextConn: Conn, running: bool, warm: bool)
    requires Startable(conns, nextConn)
    ensures Claims(Init(jobs, conns, nextConn, running, warm))
  {
    hide Sum;
    SumBound(Init(jobs, conns, nextConn, running, warm).workers, OverClaims(|jobs|));
  }

  lemma InitConns(jobs: seq<Job>, conns: seq<Conn>, nextConn: Conn, running: bool, warm: bool)
    requires Startable(conns, nextConn)
    ensures Conns(Init(jobs, conns, nextConn, running, warm))
  {
    hide Sum;
    SumBound(Init(jobs, conns, nextConn, running, warm).workers, Finished);
  }

  lemma InitEmpty(jobs: seq<Job>, conns: seq<Conn>, nextConn: Conn, running: bool, warm: bool)
    requires Startable(conns, nextConn) && Claims(Init(jobs, conns, nextConn, running, warm))
    ensures var s := Init(jobs, conns, nextConn, running, warm);
            Attempts(s) && Replies(s) && Efforts(s) && WarmFirst(s)
  {
    hide Sum, Conns;
  }

  lemma StopInv(s: State)
    requires Inv(s)
    ensures Inv(s.(running := false))
  {
    hide Sum, DnsProxy.Reply;
  }

  lemma NextInv(s: State, e: Event)
    requires Inv(s)
    ensures Inv(Next(s, e)) && (s.warm ==> Next(s, e).warm)
  {
    hide Step, Claims, Attempts, Replies, Efforts, Conns, WarmFirst;
    match e {
      case Stop => StopInv(s);
      case Work(w, o) =>
        if w < |s.workers| {
          KeepsClaims(s, w, o);
          KeepsAttempts(s, w, o);
          KeepsReplies(s, w, o);
          KeepsEfforts(s, w, o);
          KeepsConns(s, w, o);
          KeepsWarm(s, w, o);
        }
    }
  }

  lemma NextKeeps(s: State, e: Event)
    ensures Next(s, e).jobs == s.jobs && |Next(s, e).workers| == |s.workers|
    ensures Next(s, e).running ==> s.running
  {
    hide DnsProxy.Reply;
  }

  /** Every reachable state of every interleaving satisfies the invariants. */
  lemma {:induction false} RunInv(s: State, es: seq<Event>)
    requires Inv(s)
    ensures Inv(Run(s, es)) && (s.warm ==> Run(s, es).warm)
    ensures Run(s, es).jobs == s.jobs && |Run(s, es).workers| == |s.workers|
  {
    hide Next, Inv;
    if es != [] {
      RunInv(s, es[..|es| - 1]);
      NextInv(Run(s, es[..|es| - 1]), es[|es| - 1]);
      NextKeeps(Run(s, es[..|es| - 1]), es[|es| - 1]);
    }
  }

  /** In every state of every run: no two workers hold the same index, no query is attempted twice,
      no query is answered twice on the interface, and each reply is built from the packet that asked
      and the response obtained for it, with exact lengths. */
  lemma ExactlyOnce(jobs: seq<Job>, conns: seq<Conn>, nextConn: Conn, running: bool, warm: bool, es: seq<Event>)
    requires Startable(conns, nextConn)
    ensures var s := Run(Init(jobs, conns, nextConn, running, warm), es);
            && |s.attempts| == |jobs|
            && (forall v, w :: 0 <= v < w < |s.workers| && s.workers[v].pc != Claiming && s.workers[w].pc != Claiming
                  ==> s.workers[v].i != s.workers[w].i)
            && (forall i :: 0 <= i < |jobs| ==> s.attempts[i] <= 1)
            && (forall j, k :: 0 <= j < k < |s.utun| ==> s.utun[j].index != s.utun[k].index)
            && (forall u :: u in s.utun ==>
                  && u.index < |jobs| && u.index in s.answers && |s.answers[u.index]| <= 4096
                  && u.bytes == DnsProxy.Reply(jobs[u.index].pkt, s.answers[u.index]))
            && (s.utun != [] ==> s.warm)
  {
    hide Next, Sum, Init;
    InitInv(jobs, conns, nextConn, running, warm);
    InitShape(jobs, conns, nextConn, running, warm);
    RunInv(Init(jobs, conns, nextConn, running, warm), es);
  }

  lemma InitShape(jobs: seq<Job>, conns: seq<Conn>, nextConn: Conn, running: bool, warm: bool)
    requires Distinct(conns)
    ensures Init(jobs, conns, nextConn, running, warm).jobs == jobs
    ensures |Init(jobs, conns, nextConn, running, warm).workers| == |conns|
    ensures Init(jobs, conns, nextConn, running, warm).warm == warm
    ensures Init(jobs, conns, nextConn, running, warm).nextConn == nextConn
  {
  }

  ghost predicate AllDone(s: State) {
    forall w :: 0 <= w < |s.workers| ==> s.workers[w].pc == Done
  }

  /** When all workers are done, every response obtained has been written as exactly one reply, and
      every worker has returned the one connection it ended with. */
  lemma FinalState(s: State)
    requires Inv(s) && AllDone(s)
    ensures Replied(s.utun) == s.answers.Keys
    ensures |s.returned| == |s.workers| && Distinct(s.returned)
    ensures forall w :: 0 <= w < |s.workers| ==> s.workers[w].conn in s.returned
    ensures forall c :: c in s.returned ==> c < s.nextConn
  {
    hide Next, DnsProxy.Reply;
    SumBound(s.workers, Finished);
  }

  lemma FinalCount(s: State)
    requires Inv(s) && AllDone(s) && s.running && |s.workers| > 0
    ensures forall i :: 0 <= i < |s.jobs| ==> s.attempts[i] == 1 && s.owner[i] < |s.workers|
    ensures s.counter == |s.jobs| + |s.workers|
  {
    hide Next, Sum, DnsProxy.Reply;
    SumBound(s.workers, OverClaims(|s.jobs|));
    assert s.workers[0].i < s.counter;
  }

  /** If `running` was never cleared and at least one worker started, then when all are done every query
      has been attempted by exactly one worker, every response obtained has been written as one reply,
      and the counter stands at queries plus workers. */
  lemma EveryQueryAttempted(jobs: seq<Job>, conns: seq<Conn>, nextConn: Conn, warm: bool, es: seq<Event>)
    requires Startable(conns, nextConn) && conns != []
    requires AllDone(Run(Init(jobs, conns, nextConn, true, warm), es))
    requires Run(Init(jobs, conns, nextConn, true, warm), es).running
    ensures var s := Run(Init(jobs, conns, nextConn, true, warm), es);
            && s.attempts == seq(|jobs|, _ => 1)
            && s.counter == |jobs| + |conns|
            && Replied(s.utun) == s.answers.Keys && |s.utun| == |s.answers|
  {
    hide Next, Sum, Init, DnsProxy.Reply;
    var s0 := Init(jobs, conns, nextConn, true, warm);
    InitInv(jobs, conns, nextConn, true, warm);
    InitShape(jobs, conns, nextConn, true, warm);
    RunInv(s0, es);
    FinalState(Run(s0, es));
    FinalCount(Run(s0, es));
    RepliedCount(Run(s0, es).utun);
  }

  lemma {:induction false} RepliedCount(us: seq<Written>)
    requires forall j, k :: 0 <= j < k < |us| ==> us[j].index != us[k].index
    ensures |Replied(us)| == |us|
  {
    if us != [] {
      var p, u := us[..|us| - 1], us[|us| - 1];
      RepliedCount(p);
      assert us == p + [u];
      assert Replied(us) == Replied(p) + {u.index};
    }
  }

  // ---- What a worker does for a query ----

  lemma RunSnoc(s: State, es: seq<Event>, e: Event)
    ensures Run(s, []) == s
    ensures Run(s, es + [e]) == Next(Run(s, es), e)
  {
    hide Next;
    assert (es + [e])[..|es|] == es;
  }

  lemma RunTwo(s: State, e: Event, f: Event)
    ensures Run(s, [e]) == Next(s, e) && Run(s, [e, f]) == Next(Next(s, e), f)
  {
    hide Next, Run;
    RunSnoc(s, [], e);
    RunSnoc(s, [e], f);
    assert [] + [e] == [e] && [e] + [f] == [e, f];
  }

  lemma RunThree(s: State, e: Event, f: Event, g: Event)
    ensures Run(s, [e, f, g]) == Next(Next(Next(s, e), f), g)
  {
    hide Next, Run;
    RunTwo(s, e, f);
    RunSnoc(s, [e, f], g);
    assert [e, f] + [g] == [e, f, g];
  }

  /** Its first query is answered, with at most 4096 bytes. */
  lemma AskedOnce(s: State, w: nat, r: seq<byte>)
    requires w < |s.workers| && s.workers[w].pc == Asking && |r| <= 4096
    ensures var x, t := s.workers[w], Run(s, [Work(w, Yes(r))]);
            t.workers == s.workers[w := x.(pc := Answered, resp := r)] && t.answers == s.answers[x.i := r] && t.utun == s.utun
  {
    RunTwo(s, Work(w, Yes(r)), Stop);
    hide DnsProxy.Reply, Run;
  }

  /** It fails, as it does with a response that is longer; connecting succeeds, and so does the query on
      the new connection, which the worker keeps. */
  lemma AskedAgain(s: State, w: nat, o: Outcome, r: seq<byte>)
    requires w < |s.workers| && s.workers[w].pc == Asking && |r| <= 4096 && (o.Yes? ==> |o.resp| > 4096)
    ensures var x, t := s.workers[w], Run(s, [Work(w, o), Work(w, Yes([])), Work(w, Yes(r))]);
            && t.workers == s.workers[w := x.(pc := Answered, conn := s.nextConn, resp := r)] && t.nextConn == s.nextConn + 1
            && t.answers == s.answers[x.i := r] && t.utun == s.utun
  {
    RunThree(s, Work(w, o), Work(w, Yes([])), Work(w, Yes(r)));
    hide DnsProxy.Reply, Run;
    var t := Next(Next(s, Work(w, o)), Work(w, Yes([])));
    assert t.workers == s.workers[w := s.workers[w].(pc := Retrying, conn := s.nextConn)];
    assert t.nextConn == s.nextConn + 1 && t.answers == s.answers && t.utun == s.utun;
  }

  /** Connecting fails: the worker goes on to the next query with the connection it has. */
  lemma NotConnected(s: State, w: nat)
    requires w < |s.workers| && s.workers[w].pc == Asking
    ensures var x, t := s.workers[w], Run(s, [Work(w, No), Work(w, No)]);
            && t.workers == s.workers[w := x.(pc := Claiming)] && t.nextConn == s.nextConn
            && t.answers == s.answers && t.utun == s.utun
  {
    RunTwo(s, Work(w, No), Work(w, No));
    hide DnsProxy.Reply, Run;
  }

  /** The query on the new connection fails as well: it goes on with that. */
  lemma FailedTwice(s: State, w: nat)
    requires w < |s.workers| && s.workers[w].pc == Asking
    ensures var x, t := s.workers[w], Run(s, [Work(w, No), Work(w, Yes([])), Work(w, No)]);
            && t.workers == s.workers[w := x.(pc := Claiming, conn := s.nextConn)] && t.nextConn == s.nextConn + 1
            && t.answers == s.answers && t.utun == s.utun
  {
    RunThree(s, Work(w, No), Work(w, Yes([])), Work(w, No));
    hide DnsProxy.Reply, Run;
  }

  /** An answer in hand is written in the next steps, built from the packet that asked... */
  lemma WrittenWarm(s: State, w: nat)
    requires Inv(s) && w < |s.workers| && s.workers[w].pc == Answered && s.warm
    ensures var x, t := s.workers[w], Run(s, [Work(w, No), Work(w, No)]);
            && x.i < |s.jobs| && t.utun == s.utun + [Written(x.i, DnsProxy.Reply(s.jobs[x.i].pkt, x.resp))]
            && t.workers == s.workers[w := x.(pc := Claiming)]
  {
    hide DnsProxy.Reply, Run, Inv, Next;
    InHand(s, w);
    var step := Work(w, No);
    RunTwo(s, step, step);
    WritingSteps(s, w);
    WritingSteps(Next(s, step), w);
    Overwritten(s.workers, w, s.workers[w].(pc := Writing), s.workers[w].(pc := Claiming));
  }

  /** ...and if the flag was clear it is set before. */
  lemma WrittenCold(s: State, w: nat)
    requires Inv(s) && w < |s.workers| && s.workers[w].pc == Answered && !s.warm
    ensures var x, t, u := s.workers[w], Run(s, [Work(w, No), Work(w, No)]), Run(s, [Work(w, No), Work(w, No), Work(w, No)]);
            && t.warm && t.utun == s.utun
            && x.i < |s.jobs| && u.utun == s.utun + [Written(x.i, DnsProxy.Reply(s.jobs[x.i].pkt, x.resp))]
            && u.workers == s.workers[w := x.(pc := Claiming)]
  {
    hide DnsProxy.Reply, Run, Inv, Next;
    InHand(s, w);
    var step := Work(w, No);
    RunTwo(s, step, step);
    RunThree(s, step, step, step);
    var t := Next(s, step);
    WritingSteps(s, w);
    WritingSteps(t, w);
    Overwritten(s.workers, w, s.workers[w].(pc := Warming), s.workers[w].(pc := Writing));
    WritingSteps(Next(t, step), w);
    Overwritten(s.workers, w, s.workers[w].(pc := Writing), s.workers[w].(pc := Claiming));
  }

  lemma Overwritten(ws: seq<Worker>, w: nat, x: Worker, y: Worker)
    requires w < |ws|
    ensures ws[w := x][w] == x && ws[w := x][w := y] == ws[w := y]
  {
  }

  lemma InHand(s: State, w: nat)
    requires Inv(s) && w < |s.workers| && HasAnswer(s.workers[w])
    ensures s.workers[w].i < |s.jobs|
  {
    hide Sum;
  }

  /** One step each of the three. */
  lemma WritingSteps(s: State, w: nat)
    requires w < |s.workers| && HasAnswer(s.workers[w])
    ensures var x, t := s.workers[w], Next(s, Work(w, No));
            && t.jobs == s.jobs && |t.workers| == |s.workers|
            && t.warm == (s.warm || x.pc == Warming)
            && t.utun == (if x.pc == Writing then s.utun + Reply(s.jobs, x.i, x.resp) else s.utun)
            && t.workers[w] == x.(pc := if x.pc == Writing then Claiming
                                        else if x.pc == Answered && !s.warm then Warming else Writing)
            && t.workers == s.workers[w := t.workers[w]]
  {
    hide DnsProxy.Reply;
  }

  /** Once `running` has been cleared no more queries are started. */
  lemma {:induction false} NoneStartedAfterStop(s: State, es: seq<Event>)
    requires !s.running
    ensures !Run(s, es).running && Run(s, es).attempts == s.attempts
  {
    if es != [] {
      NoneStartedAfterStop(s, es[..|es| - 1]);
      var t, e := Run(s, es[..|es| - 1]), es[|es| - 1];
      if e.Work? && e.w < |t.workers| {
        AttemptEffect(t, e.w, e.o);
        ClaimEffect(t, e.w, e.o);
      }
      hide Step;
    }
  }

  /** Over whole runs, by all that was tried for a query: when all workers are done, one that was
      attempted has no answer exactly if it failed and then the connection attempt did, or the query on
      the new connection; it has one exactly if it was answered at once or on a new connection. For one
      not attempted nothing was tried. */
  lemma AnsweredIff(jobs: seq<Job>, conns: seq<Conn>, nextConn: Conn, running: bool, warm: bool, es: seq<Event>, i: nat)
    requires Startable(conns, nextConn) && i < |jobs|
    requires AllDone(Run(Init(jobs, conns, nextConn, running, warm), es))
    ensures var s := Run(Init(jobs, conns, nextConn, running, warm), es);
            && |s.attempts| == |s.log| == |jobs|
            && (s.attempts[i] == 0 ==> s.log[i] == [] && i !in s.answers)
            && (s.attempts[i] == 1 ==>
                  && (i !in s.answers <==>
                      s.log[i] == [Query(false), Connect(false)] || s.log[i] == [Query(false), Connect(true), Query(false)])
                  && (i in s.answers <==>
                      s.log[i] == [Query(true)] || s.log[i] == [Query(false), Connect(true), Query(true)]))
  {
    hide Next, Sum, Init;
    var s0 := Init(jobs, conns, nextConn, running, warm);
    InitInv(jobs, conns, nextConn, running, warm);
    InitShape(jobs, conns, nextConn, running, warm);
    RunInv(s0, es);
    hide Replies, Conns, WarmFirst;
  }

  /** Each connection of a worker is the one it was given or one opened during the run. */
  ghost predicate Lineage(s: State, conns: seq<Conn>, nextConn: Conn) {
    && nextConn <= s.nextConn
    && forall c :: c in s.opener ==> c >= nextConn || (s.opener[c] < |conns| && conns[s.opener[c]] == c)
  }

  lemma {:induction false} RunLineage(jobs: seq<Job>, conns: seq<Conn>, nextConn: Conn, running: bool, warm: bool,
                                      es: seq<Event>)
    requires Startable(conns, nextConn)
    ensures Lineage(Run(Init(jobs, conns, nextConn, running, warm), es), conns, nextConn)
  {
    if es != [] {
      hide Init;
      RunLineage(jobs, conns, nextConn, running, warm, es[..|es| - 1]);
      var s := Run(Init(jobs, conns, nextConn, running, warm), es[..|es| - 1]);
      var e := es[|es| - 1];
      if e.Work? && e.w < |s.workers| {
        hide Step;
        ConnEffect(s, e.w, e.o);
      }
    }
  }

  /** Conservation: when all workers are done, each has handed back exactly one connection, the one it
      was given or the replacement it opened; no connection comes back twice. */
  lemma ConnectionsReturn(jobs: seq<Job>, conns: seq<Conn>, nextConn: Conn, running: bool, warm: bool,
                          es: seq<Event>)
    requires Startable(conns, nextConn)
    requires AllDone(Run(Init(jobs, conns, nextConn, running, warm), es))
    ensures var s := Run(Init(jobs, conns, nextConn, running, warm), es);
            && |s.workers| == |s.returned| == |conns| && Startable(s.returned, s.nextConn) && nextConn <= s.nextConn
            && (forall w :: 0 <= w < |conns| ==>
                  && s.workers[w].conn in s.returned
                  && (s.workers[w].conn == conns[w] || s.workers[w].conn >= nextConn))
            && forall c :: c in s.returned ==> c in conns || c >= nextConn
  {
    hide Next, Sum, Init;
    var s0 := Init(jobs, conns, nextConn, running, warm);
    InitInv(jobs, conns, nextConn, running, warm);
    InitShape(jobs, conns, nextConn, running, warm);
    RunInv(s0, es);
    FinalState(Run(s0, es));
    var returned := Run(s0, es).returned;
    assert forall k :: 0 <= k < |returned| ==> returned[k] in returned;
    RunLineage(jobs, conns, nextConn, running, warm, es);
  }

  // ---- Every run ends ----

  /** What is left to do: claims still possible, each worth ten steps, and where the workers stand. */
  ghost function Measure(s: State): nat
    requires Claims(s)
  {
    ClaimBound(s);
    10 * (|s.jobs| + |s.workers| - s.counter) + Sum(s.workers, Rank) + if s.running then 1 else 0
  }

  lemma ClaimBound(s: State)
    requires Claims(s)
    ensures s.counter <= |s.jobs| + |s.workers|
  {
    SumBound(s.workers, OverClaims(|s.jobs|));
  }

  /** No step of a live worker waits for another: each one uses up some of the measure. So any run in
      which live workers keep being scheduled ends with all of them done. */
  lemma StepDecreases(s: State, w: nat, o: Outcome)
    requires w < |s.workers| && Claims(s) && s.workers[w].pc != Done
    ensures Claims(Step(s, w, o))
    ensures Measure(Step(s, w, o)) < Measure(s)
  {
    hide Sum, DnsProxy.Reply;
    KeepsClaims(s, w, o);
    SumUpdate(s.workers, w, Step(s, w, o).workers[w], Rank);
  }

  /** How many events of a run moved a live worker. */
  function LiveSteps(s: State, es: seq<Event>): nat {
    if es == [] then 0
    else
      var t, e := Run(s, es[..|es| - 1]), es[|es| - 1];
      LiveSteps(s, es[..|es| - 1])
      + if e.Work? && e.w < |t.workers| && t.workers[e.w].pc != Done then 1 else 0
  }

  /** Every run of every schedule is over after that many steps at most. */
  lemma {:induction false} BoundedRun(s: State, es: seq<Event>)
    requires Inv(s)
    ensures Inv(Run(s, es)) && LiveSteps(s, es) + Measure(Run(s, es)) <= Measure(s)
  {
    hide Step, Sum, DnsProxy.Reply, Attempts, Replies, Conns, WarmFirst;
    if es != [] {
      BoundedRun(s, es[..|es| - 1]);
      var t, e := Run(s, es[..|es| - 1]), es[|es| - 1];
      NextInv(t, e);
      if e.Work? && e.w < |t.workers| {
        if t.workers[e.w].pc != Done {
          StepDecreases(t, e.w, e.o);
        } else {
          DoneStays(t, e.w, e.o);
        }
      }
    }
  }

  lemma DoneStays(s: State, w: nat, o: Outcome)
    requires w < |s.workers| && s.workers[w].pc == Done
    ensures Step(s, w, o) == s
  {
    NothingNoted(s.log, s.workers[w].i);
  }

  // ---- The resolver thread ----

  function Reversed(s: seq<Conn>): (r: seq<Conn>)
    ensures |r| == |s| && forall k :: 0 <= k < |s| ==> r[k] == s[|s| - 1 - k]
  {
    seq(|s|, k requires 0 <= k < |s| => s[|s| - 1 - k])
  }

  /** Whether the next attempt to connect succeeds. */
  predicate Connects(script: seq<bool>) {
    script != [] && script[0]
  }

  /** Attempts that all succeed. */
  function AllMade(n: nat): (bs: seq<bool>)
    ensures |bs| == n
  {
    seq(n, _ => true)
  }

  lemma OneMoreMade(n: nat)
    ensures AllMade(n + 1) == AllMade(n) + [true]
  {
  }

  lemma StartableNext(pool: seq<Conn>, conn: Conn)
    requires Startable(pool, conn)
    ensures Startable(pool + [conn], conn + 1)
  {
  }

  /** Popping once more. */
  lemma ReversedPop(s: seq<Conn>, k: nat)
    requires k <= |s|
    ensures k == 0 ==> Reversed(s[|s| - k..]) == []
    ensures k < |s| ==> Reversed(s[|s| - k - 1..]) == Reversed(s[|s| - k..]) + [s[|s| - k - 1]]
  {
  }

  lemma SpawnStartable(was: seq<Conn>, conns: seq<Conn>, next: Conn, next': Conn)
    requires Startable(was, next)
    requires if was == [] then |conns| <= 1 && next' == next + |conns| && forall c :: c in conns ==> c == next
             else next' == next && conns == Reversed(was)
    ensures Startable(conns, next')
  {
    if was == [] && conns != [] {
      assert conns[0] in conns;
    }
  }

  /** Every connection a worker starts with was in the pool or is new. */
  lemma SpawnOrigin(was: seq<Conn>, conns: seq<Conn>, next: Conn)
    requires if was == [] then forall c :: c in conns ==> c == next else conns == Reversed(was)
    ensures forall c :: c in conns ==> c in was || c >= next
  {
  }

  /** The DoT half of the resolver thread: its connection pool, kept from batch to batch. */
  class Resolver {
    var pool: seq<Conn>
    var nextConn: Conn
    var receiver: seq<Job>
    var running: bool
    var warm: bool
    var utun: seq<Written>
    // how the next attempts to connect will go, and how those so far have gone
    var connects: seq<bool>
    ghost var tried: seq<bool>

    constructor (running: bool, connects: seq<bool>)
      ensures Valid() && pool == [] && utun == [] && !warm && this.running == running && this.connects == connects
    {
      this.running, this.connects := running, connects;
      pool, nextConn, receiver, warm, utun, tried := [], 0, [], false, [], [];
    }

    ghost predicate Valid()
      reads `pool, `nextConn
    {
      |pool| <= 4 && Startable(pool, nextConn)
    }

    /** `create_dot_conn`: a new connection, or a failure. */
    method Create() returns (c: Option<Conn>)
      modifies `nextConn, `connects, `tried
      ensures c == if Connects(old(connects)) then Some(old(nextConn)) else None
      ensures nextConn == old(nextConn) + if c.Some? then 1 else 0
      ensures tried == old(tried) + [c.Some?]
    {
      c := None;
      if connects != [] {
        if connects[0] {
          c := Some(nextConn);
          nextConn := nextConn + 1;
        }
        connects := connects[1..];
      }
      tried := tried + [c.Some?];
    }

    /** Grows the pool up to one connection per query, four at most. Only a failure, the last thing
        tried, makes it stop short. */
    method Expand(queries: nat)
      requires Valid()
      modifies `pool, `nextConn, `connects, `tried
      ensures Valid() && old(pool) <= pool && |pool| <= Max(|old(pool)|, Min(4, queries))
      ensures nextConn == old(nextConn) + |pool| - |old(pool)|
      ensures forall c :: c in pool[|old(pool)|..] ==> c >= old(nextConn)
      ensures var made := old(tried) + AllMade(|pool| - |old(pool)|);
              tried == if |pool| >= Min(4, queries) then made else made + [false]
    {
      ghost var was, t0 := pool, tried;
      assert t0 + AllMade(0) == t0 && pool[|was|..] == [];
      hide AllMade, Startable;
      while |pool| < Min(MAX_POOL, queries)
        invariant Valid() && was <= pool && |pool| <= Max(|was|, Min(MAX_POOL, queries))
        invariant nextConn == old(nextConn) + |pool| - |was|
        invariant forall c :: c in pool[|was|..] ==> c >= old(nextConn)
        invariant tried == t0 + AllMade(|pool| - |was|)
        decreases MAX_POOL - |pool|
      {
        OneMoreMade(|pool| - |was|);
        ghost var made := tried;
        var c := Create();
        match c {
          case Some(conn) =>
            assert (pool + [conn])[|was|..] == pool[|was|..] + [conn];
            StartableNext(pool, conn);
            pool := pool + [conn];
            assert made + [true] == t0 + (AllMade(|pool| - |was| - 1) + [true]);
          case None => break;
        }
      }
    }

    /** Gives each worker a connection: one popped from the pool, or a new one. */
    method Spawn() returns (conns: seq<Conn>)
      requires Valid()
      modifies `pool, `nextConn, `connects, `tried
      ensures pool == [] && Startable(conns, nextConn) && nextConn >= old(nextConn) && old(tried) <= tried
      ensures if old(pool) == [] then conns == if Connects(old(connects)) then [old(nextConn)] else []
              else conns == Reversed(old(pool)) && nextConn == old(nextConn)
    {
      hide Reversed, Distinct;
      ghost var was, t0 := pool, tried;
      ReversedPop(was, 0);
      var numWorkers := Max(|pool|, 1);
      conns := [];
      for k := 0 to numWorkers
        invariant t0 <= tried
        invariant if was == [] then pool == [] && nextConn == old(nextConn) + |conns|
                                    && (k == 0 ==> conns == [] && connects == old(connects))
                                    && (k == 1 ==> conns == if Connects(old(connects)) then [old(nextConn)] else [])
                  else k <= |was| && pool == was[..|was| - k] && nextConn == old(nextConn)
                       && conns == Reversed(was[|was| - k..])
      {
        if |pool| > 0 {
          ReversedPop(was, k);
          conns := conns + [pool[|pool| - 1]];
          pool := pool[..|pool| - 1];
        } else {
          var c := Create();
          if c.Some? {
            conns := conns + [c.value];
          }
        }
      }
      SpawnStartable(was, conns, old(nextConn), nextConn);
    }

    /** Runs the workers in any order, with any outcomes and any moment of being stopped, until all of
        them are done: the threads, then `join`. `es` is the run taken. */
    method Join(s0: State) returns (s: State, ghost es: seq<Event>)
      requires Inv(s0)
      ensures s == Run(s0, es) && Inv(s) && AllDone(s) && (s.running ==> s0.running)
    {
      hide Step, Sum, DnsProxy.Reply, Attempts, Replies, Conns, WarmFirst;
      s, es := s0, [];
      while exists w :: 0 <= w < |s.workers| && s.workers[w].pc != Done
        invariant Inv(s) && s == Run(s0, es) && (s.running ==> s0.running)
        decreases Measure(s)
      {
        var e: Event;
        var stop: bool := *;
        if stop && s.running {
          e := Stop;
        } else {
          var w :| 0 <= w < |s.workers| && s.workers[w].pc != Done;
          var o: Outcome := *;
          e := Work(w, o);
          StepDecreases(s, w, o);
        }
        NextInv(s, e);
        NextKeeps(s, e);
        assert (es + [e])[..|es|] == es;
        s, es := Next(s, e), es + [e];
      }
    }

    /** Takes everything that waits in the channel behind the first query. */
    method DrainReceiver(first: Job) returns (queries: seq<Job>)
      modifies `receiver
      ensures queries == [first] + old(receiver) && receiver == []
    {
      queries := [first];
      while receiver != []
        invariant queries + receiver == [first] + old(receiver)
        decreases |receiver|
      {
        queries := queries + [receiver[0]];
        receiver := receiver[1..];
      }
    }

    /** Puts the returned connections back and trims the pool, which is never needed. */
    method Reclaim(returned0: seq<Conn>)
      requires pool == [] && |returned0| <= 4
      modifies `pool
      ensures pool == returned0
    {
      var returned := returned0;
      while returned != []
        invariant pool + returned == returned0
        decreases |returned|
      {
        pool := pool + [returned[0]];
        returned := returned[1..];
      }
      pool := Truncate(pool, MAX_POOL);
    }

    /** The threads of one batch, from spawning to joining: what they start from, and what is shared
        with them. */
    method RunWorkers(queries: seq<Job>, conns: seq<Conn>) returns (s: State, ghost es: seq<Event>)
      requires Startable(conns, nextConn)
      modifies `nextConn, `running, `warm, `utun
      ensures s.jobs == queries && Inv(s) && AllDone(s) && running == s.running && warm == s.warm
      ensures s == Run(Init(queries, conns, old(nextConn), old(running), old(warm)), es)
      ensures |s.returned| == |s.workers| == |conns| && Startable(s.returned, nextConn)
      ensures forall c :: c in s.returned ==> c in conns || c >= old(nextConn)
      ensures utun == old(utun) + s.utun && (old(warm) ==> warm) && (s.utun != [] ==> warm)
      ensures s.running && |s.workers| > 0 ==>
                s.counter == |s.jobs| + |s.workers| && forall i :: 0 <= i < |s.jobs| ==> s.attempts[i] == 1
    {
      hide Sum, Step, DnsProxy.Reply, Claims, Attempts, Replies, Conns, Init;
      InitInv(queries, conns, nextConn, running, warm);
      InitShape(queries, conns, nextConn, running, warm);
      s, es := Join(Init(queries, conns, nextConn, running, warm));
      RunInv(Init(queries, conns, nextConn, running, warm), es);
      ConnectionsReturn(queries, conns, nextConn, running, warm, es);
      if s.running && |s.workers| > 0 {
        FinalCount(s);
      }
      hide Inv, Startable, AllDone;
      nextConn, running, warm, utun := s.nextConn, s.running, s.warm, utun + s.utun;
    }

    /** `process_dot_serial`: one batch. The pool that comes out holds one connection per worker, is
        never smaller than the one that went in, and holds nothing but connections it had or opened
        since. */
    method ProcessBatch(first: Job) returns (s: State)
      requires Valid()
      modifies this
      ensures Valid() && receiver == []
      ensures s.jobs == [first] + old(receiver) && Inv(s) && AllDone(s)
      ensures |old(pool)| <= |pool| == |s.workers| <= Max(|old(pool)|, Min(4, |s.jobs|)) && pool == s.returned
      ensures |s.workers| >= Min(4, |s.jobs|) || exists k :: |old(tried)| <= k < |tried| && !tried[k]
      ensures running == s.running && warm == s.warm
      ensures forall c :: c in pool ==> c in old(pool) || c >= old(nextConn)
      ensures utun == old(utun) + s.utun && (old(warm) ==> warm) && (s.utun != [] ==> warm)
      ensures s.running && |s.workers| > 0 ==>
                s.counter == |s.jobs| + |s.workers| && forall i :: 0 <= i < |s.jobs| ==> s.attempts[i] == 1
    {
      hide Inv, AllDone, Distinct;
      var queries := DrainReceiver(first);
      Expand(|queries|);
      ghost var ready, next, t0 := pool, nextConn, tried;
      assert |ready| < Min(4, |queries|) ==> !t0[|t0| - 1] && |t0| > |old(tried)|;
      assert ready == old(pool) + ready[|old(pool)|..];
      var conns := Spawn();
      SpawnOrigin(ready, conns, next);
      ghost var es;
      s, es := RunWorkers(queries, conns);
      Reclaim(s.returned);
      assert |ready| < Min(4, |queries|) ==> |old(tried)| <= |t0| - 1 < |tried| && tried[|t0| - 1] == t0[|t0| - 1];
    }
  }

  function Truncate(s: seq<Conn>, n: nat): seq<Conn> {
    if |s| > n then s[..n] else s
  }

  function Max(a: nat, b: nat): nat { if a > b then a else b }
  function Min(a: nat, b: nat): nat { if a < b then a else b }
}
