/** The traffic meter of the main loop (src/main.rs): differences of running totals. */
module Stats {
  import opened Bytes
  import opened UsbIo

  /** The two byte counters. */
  datatype Totals = Totals(tx: nat, rx: nat)

  function Last(looks: seq<Totals>): Totals {
    if looks == [] then Totals(0, 0) else looks[|looks| - 1]
  }

  /** No look sees less than the one before, and each report is the difference between the two. */
  ghost predicate Consistent(looks: seq<Totals>, reports: seq<Totals>) {
    |looks| == |reports|
    && (looks == []
        || var n := |looks| - 1;
           var before, now := Last(looks[..n]), looks[n];
           && Consistent(looks[..n], reports[..n])
           && before.tx <= now.tx && before.rx <= now.rx
           && reports[n] == Totals(now.tx - before.tx, now.rx - before.rx))
  }

  lemma OneMoreLook(looks: seq<Totals>, reports: seq<Totals>, t: Totals)
    requires Consistent(looks, reports) && Last(looks).tx <= t.tx && Last(looks).rx <= t.rx
    ensures Consistent(looks + [t], reports + [Totals(t.tx - Last(looks).tx, t.rx - Last(looks).rx)])
  {
    var r := Totals(t.tx - Last(looks).tx, t.rx - Last(looks).rx);
    assert (looks + [t])[..|looks|] == looks && (reports + [r])[..|reports|] == reports;
  }

  /** The totals seen last; and all looks so far, with what was reported. */
  class Meter {
    var prevTx: nat
    var prevRx: nat
    var reports: seq<Totals>
    ghost var looks: seq<Totals>

    constructor ()
      ensures Valid() && looks == []
    {
      prevTx, prevRx, reports, looks := 0, 0, [], [];
    }

    ghost predicate Valid()
      reads this
    {
      Consistent(looks, reports) && Totals(prevTx, prevRx) == Last(looks)
    }

    /** What the unsigned subtractions of `Sample` need. */
    ghost predicate Behind(io: UsbIo)
      reads this, io`txBytes, io`rxBytes
    {
      Valid() && prevTx <= io.txBytes && prevRx <= io.rxBytes
    }

    method Sample(io: UsbIo)
      requires Behind(io)
      modifies this
      ensures Behind(io) && looks == old(looks) + [Totals(io.txBytes, io.rxBytes)] && old(reports) <= reports
    {
      var curTx, curRx := io.txBytes, io.rxBytes;
      OneMoreLook(looks, reports, Totals(curTx, curRx));
      hide Consistent;
      reports := reports + [Totals(curTx - prevTx, curRx - prevRx)];
      prevTx, prevRx := curTx, curRx;
      looks := looks + [Totals(curTx, curRx)];
    }
  }

  lemma {:induction false} ChannelledConcat(a: seq<Urb>, b: seq<Urb>)
    ensures Channelled(a + b) == Channelled(a) + Channelled(b)
  {
    if b == [] {
      assert a + b == a;
    } else {
      ChannelledConcat(a, b[..|b| - 1]);
      assert (a + b)[..|a + b| - 1] == a + b[..|b| - 1];
    }
  }

  /** Totals over a log that only grows never fall. */
  lemma TotalsGrow(a: seq<Urb>, b: seq<Urb>, u: seq<seq<byte>>, v: seq<seq<byte>>)
    requires a <= b && u <= v
    ensures Total(Channelled(a)) <= Total(Channelled(b)) && Total(u) + 10 * |u| <= Total(v) + 10 * |v|
  {
    hide Channelled, Total;
    assert b == a + b[|a|..] && v == u + v[|u|..];
    ChannelledConcat(a, b[|a|..]);
    TotalGrows(Channelled(a), Channelled(b[|a|..]));
    TotalGrows(u, v[|u|..]);
  }

  /** What has been reported adds up to the totals seen last. */
  function Sum(reports: seq<Totals>): Totals {
    if reports == [] then Totals(0, 0)
    else
      var s, r := Sum(reports[..|reports| - 1]), reports[|reports| - 1];
      Totals(s.tx + r.tx, s.rx + r.rx)
  }

  lemma {:induction false} ReportsAddUp(looks: seq<Totals>, reports: seq<Totals>)
    requires Consistent(looks, reports)
    ensures Sum(reports) == Last(looks)
  {
    if looks != [] {
      var n := |looks| - 1;
      ReportsAddUp(looks[..n], reports[..n]);
    }
  }

  /** The main loop looks at a point where its script says so. */
  method Look(m: Meter, io: UsbIo, now: bool)
    requires m.Behind(io)
    modifies m
    ensures m.Behind(io)
    ensures m.looks == if now then old(m.looks) + [Totals(io.txBytes, io.rxBytes)] else old(m.looks)
  {
    if now {
      m.Sample(io);
    }
  }

  /** The loop of the engine, in a run of its own, and the meter, with a look before each turn where the
      script `when` says so. The run ends as any run of the engine does. No subtraction underflows: the
      looks never see less than before, the reports are their differences and add up to the last of
      them, which is within the totals at the end. */
  method Watch(io: UsbIo, when: seq<bool>) returns (m: Meter, n: nat)
    requires io.Fresh()
    modifies io
    ensures fresh(m) && io.Finished() && m.Behind(io)
    ensures Sum(m.reports) == Last(m.looks)
    ensures n <= |when| && |m.looks| == Trues(when[..n]) && (n == |when| || n >= Trues(io.seen))
  {
    hide Trues, io.Fresh, io.AtHead, io.Looping, io.Finished, Sum, Consistent;
    m := new Meter();
    n := 0;
    io.StartedFrom();
    io.Start();
    var activeRx: nat := NUM_RX_BUFS;
    io.Refill(activeRx);
    io.Look(activeRx);
    assert when[..0] == [];
    while io.running
      invariant io.Looping(activeRx) && m.Behind(io) && n <= |when|
      invariant |m.looks| == Trues(when[..n])
      invariant n == |when| || n + (if io.running then 1 else 0) >= Trues(io.seen)
      decreases |io.flags| + if io.running then 1 else 0
    {
      if n < |when| {
        TruesAppend(when[..n], when[n]);
        assert when[..n + 1] == when[..n] + [when[n]];
        Look(m, io, when[n]);
        n := n + 1;
      }
      activeRx := io.Cycle(activeRx);
    }
    io.LoopEnds(activeRx);
    ReportsAddUp(m.looks, m.reports);
  }
}
