/** What the DHCP exchange does, said about the messages that arrive: which OFFER and which ACK count, for
    every stream of received transfers. */
module DhcpMeaning {
  import opened Bytes
  import opened Wrappers
  import opened Frame
  import opened NetTypes
  import opened Rndis
  import opened DhcpExchange
  import M = DhcpMessage
  import O = DhcpOptions

  /** What a frame makes of the client, besides being read: nothing, a panic, or what is left open. */
  function Trouble(v: Sight): Option<Outcome> {
    match Gate(v)
    case Panics => Some(Crash)
    case Outside => Some(Undefined)
    case _ => None
  }

  /** In the OFFER handler a cut option can do so, too. */
  function OfferTrouble(v: Sight): Option<Outcome> {
    if Gate(v).Message? && O.Panics(O.Rest(Gate(v).opts)) then Some(Crash) else Trouble(v)
  }

  /** The first trouble in a transfer. */
  function FirstTrouble(vs: seq<Sight>): Option<Outcome> {
    if vs == [] then None else if OfferTrouble(vs[0]).Some? then OfferTrouble(vs[0]) else FirstTrouble(vs[1..])
  }

  /** What the OFFER handler takes for an OFFER, by the options it visits. */
  predicate IsOffer(v: Sight) {
    Gate(v).Message? && O.MsgType(O.Visited(Gate(v).opts)) == 2
  }

  predicate IsAck(v: Sight) {
    Gate(v).Message? && O.MsgType(O.Options(Gate(v).opts)) == 5
  }

  /** The addresses offered, in order. */
  function Offered(vs: seq<Sight>): seq<Quad> {
    if vs == [] then []
    else (if IsOffer(vs[0]) then [Gate(vs[0]).yiaddr] else []) + Offered(vs[1..])
  }

  /** The server identifier in a DHCP message for us, of whatever type. */
  function ServerIn(v: Sight): Option<Quad> {
    if Gate(v).Message? then O.Last(O.Visited(Gate(v).opts), O.SERVER_ID, 0, 4) else None
  }

  /** Those of a list of frames, in order. */
  function Servers(vs: seq<Sight>): seq<Quad> {
    if vs == [] then []
    else (if ServerIn(vs[0]).Some? then [ServerIn(vs[0]).value] else []) + Servers(vs[1..])
  }

  /** The leases acknowledged, in order. */
  function Acked(vs: seq<Sight>): seq<Lease> {
    if vs == [] then []
    else (if IsAck(vs[0]) then [LeaseOf(Gate(vs[0]).yiaddr, Gate(vs[0]).opts)] else []) + Acked(vs[1..])
  }

  /** The frames before the first that is trouble for the ACK handler. */
  function Readable(vs: seq<Sight>): (rs: seq<Sight>)
    ensures |rs| <= |vs|
  {
    if vs == [] || Trouble(vs[0]).Some? then [] else [vs[0]] + Readable(vs[1..])
  }

  function LastOr(qs: seq<Quad>, v: Option<Quad>): Option<Quad> {
    if qs == [] then v else Some(qs[|qs| - 1])
  }

  /** One frame, by the options visited. */
  lemma OfferFrameMeaning(c: Captured, v: Sight)
    ensures OfferFrame(c, v) ==
            match OfferTrouble(v)
            case Some(why) => Stops(why)
            case None => Goes(Captured(if IsOffer(v) then Some(Gate(v).yiaddr) else c.offered,
                                       if ServerIn(v).Some? then ServerIn(v) else c.server))
  {
    hide Gate, O.Options, O.Rest, O.Last, O.OfferMeaning;
    if Gate(v).Message? {
      O.OfferVisits(Gate(v).opts, c.server);
    }
  }

  /** The OFFER handler over a transfer: the first trouble, if there is any, otherwise the last address
      offered and the last server named. */
  lemma {:induction false} OfferFramesMeaning(c: Captured, vs: seq<Sight>)
    ensures OfferFrames(c, vs) ==
            match FirstTrouble(vs)
            case Some(why) => Stops(why)
            case None => Goes(Captured(LastOr(Offered(vs), c.offered), LastOr(Servers(vs), c.server)))
    decreases vs
  {
    hide OfferFrame, OfferTrouble, IsOffer, ServerIn, Gate;
    if vs != [] {
      OfferFrameMeaning(c, vs[0]);
      if OfferTrouble(vs[0]).None? {
        OfferFramesMeaning(OfferFrame(c, vs[0]).value, vs[1..]);
      }
    }
  }

  lemma AckedCons(v: Sight, vs: seq<Sight>)
    ensures Acked([v] + vs) == (if IsAck(v) then [LeaseOf(Gate(v).yiaddr, Gate(v).opts)] else []) + Acked(vs)
  {
    hide Gate, IsAck, LeaseOf;
    assert ([v] + vs)[1..] == vs;
  }

  /** The first trouble for the ACK handler. */
  function AckTrouble(vs: seq<Sight>): Option<Outcome> {
    if vs == [] then None else if Trouble(vs[0]).Some? then Trouble(vs[0]) else AckTrouble(vs[1..])
  }

  /** The ACK handler over a transfer, cut options and all: the first lease acknowledged before any
      trouble, or else the trouble, or nothing. */
  lemma {:induction false} AckFramesMeaning(vs: seq<Sight>)
    ensures AckFrames(vs) ==
            if Acked(Readable(vs)) != [] then Goes(Some(Acked(Readable(vs))[0]))
            else match AckTrouble(vs)
              case Some(why) => Stops(why)
              case None => Goes(None)
    ensures AckTrouble(vs).None? ==> Readable(vs) == vs
  {
    NothingAcked();
    if vs != [] {
      AckFramesMeaning(vs[1..]);
      AckedCons(vs[0], Readable(vs[1..]));
      hide Gate, O.Options, O.MsgType, LeaseOf, Acked;
    }
  }

  lemma NothingAcked()
    ensures Acked([]) == [] && Readable([]) == []
  {
  }

  /** The server identifiers of all transfers so far. */
  function ServersIn(ts: seq<Transfer>): seq<Quad> {
    if ts == [] then [] else (if ts[0].Found? then Servers(ts[0].sights) else []) + ServersIn(ts[1..])
  }

  /** Receives that keep the client waiting for an OFFER, or for an ACK. */
  predicate OfferPending(t: Transfer) {
    t.Found? && FirstTrouble(t.sights).None? && Offered(t.sights) == []
  }

  predicate AckPending(t: Transfer) {
    t.Found? && AckTrouble(t.sights).None? && Acked(t.sights) == []
  }

  /** One receive of the OFFER phase. */
  lemma OfferPhaseStep(ts: seq<Transfer>, n: nat, s: Option<Quad>)
    requires ts != [] && n > 0 && ts[0].Found?
    ensures var vs := ts[0].sights;
            var named := LastOr(Servers(vs), s);
            OfferPhase(ts, n, Captured(None, s)) ==
            if FirstTrouble(vs).Some? then Broken(FirstTrouble(vs).value)
            else if Offered(vs) != [] then Done(Captured(LastOr(Offered(vs), None), named), ts[1..])
            else OfferPhase(ts[1..], n - 1, Captured(None, named))
  {
    hide Offered, Servers, OfferFrames, FirstTrouble;
    OfferFramesMeaning(Captured(None, s), ts[0].sights);
  }

  lemma ServersSoFar(ts: seq<Transfer>, j: nat, s: Option<Quad>)
    requires 0 < j <= |ts| && ts[0].Found?
    ensures LastOr(ServersIn(ts[..j]), s) == LastOr(ServersIn(ts[1..][..j - 1]), LastOr(Servers(ts[0].sights), s))
  {
    hide Servers;
    assert ts[..j][1..] == ts[1..][..j - 1];
  }

  /** How the OFFER phase ends when receive `j` decides it: by a failed receive, by trouble, or by an
      OFFER; or unanswered, if there is no such receive in time. */
  ghost function OfferEnd(ts: seq<Transfer>, n: nat, j: nat, s: Option<Quad>): Phase<Captured>
    requires j <= |ts| && j <= n
  {
    if j == |ts| || j == n then Done(Captured(None, LastOr(ServersIn(ts[..j]), s)), ts[j..])
    else match ts[j]
      case Lost => Broken(Refused(Usb))
      case Found(vs) =>
        if FirstTrouble(vs).Some? then Broken(FirstTrouble(vs).value)
        else Done(Captured(LastOr(Offered(vs), None), LastOr(ServersIn(ts[..j + 1]), s)), ts[j + 1..])
  }

  lemma OfferEndTail(ts: seq<Transfer>, n: nat, j: nat, s: Option<Quad>)
    requires 0 < j <= |ts| && j <= n && ts[0].Found?
    ensures OfferEnd(ts, n, j, s) == OfferEnd(ts[1..], n - 1, j - 1, LastOr(Servers(ts[0].sights), s))
  {
    hide Offered, Servers, FirstTrouble, ServersIn, LastOr;
    assert ts[1..][j - 1..] == ts[j..];
    ServersSoFar(ts, j, s);
    if j < |ts| {
      assert ts[1..][j - 1] == ts[j] && ts[1..][j..] == ts[j + 1..];
      ServersSoFar(ts, j + 1, s);
    }
  }

  lemma OfferEndNow(ts: seq<Transfer>, n: nat, s: Option<Quad>)
    requires ts != [] && n > 0 ==> !OfferPending(ts[0])
    ensures OfferPhase(ts, n, Captured(None, s)) == OfferEnd(ts, n, 0, s)
  {
    if ts == [] || n == 0 {
      assert ts[..0] == [] && ts[0..] == ts;
    } else if ts[0].Found? {
      OfferPhaseStep(ts, n, s);
      hide Offered, Servers, FirstTrouble, OfferPhase;
      assert ts[..1] == [ts[0]];
      assert ServersIn(ts[..1]) == Servers(ts[0].sights) + [] == Servers(ts[0].sights);
    }
  }

  /** The first receive that does not keep it waiting, if there is one in time, decides the phase. */
  lemma {:induction false} OfferPhaseMeaning(ts: seq<Transfer>, n: nat, j: nat, s: Option<Quad>)
    requires j <= |ts| && j <= n
    requires forall i :: 0 <= i < j ==> OfferPending(ts[i])
    requires j < |ts| && j < n ==> !OfferPending(ts[j])
    ensures OfferPhase(ts, n, Captured(None, s)) == OfferEnd(ts, n, j, s)
    decreases j
  {
    hide Offered, Servers, FirstTrouble, OfferPhase, OfferEnd;
    if j == 0 {
      OfferEndNow(ts, n, s);
    } else {
      assert OfferPending(ts[0]);
      OfferPhaseStep(ts, n, s);
      assert forall i :: 0 <= i < |ts| - 1 ==> ts[1..][i] == ts[i + 1];
      OfferPhaseMeaning(ts[1..], n - 1, j - 1, LastOr(Servers(ts[0].sights), s));
      OfferEndTail(ts, n, j, s);
    }
  }

  /** A receive in the ACK phase: it keeps the client waiting, or decides. */
  lemma AckStepMeaning(t: Transfer)
    ensures if AckPending(t) then AckStep(t) == Goes(None)
            else if t.Lost? then AckStep(t) == Stops(Refused(Usb))
            else if Acked(Readable(t.sights)) != [] then AckStep(t) == Goes(Some(Acked(Readable(t.sights))[0]))
            else AckTrouble(t.sights).Some? && AckStep(t) == Stops(AckTrouble(t.sights).value)
  {
    hide Acked, AckFrames, Readable, AckTrouble;
    if t.Found? {
      AckFramesMeaning(t.sights);
    }
  }

  lemma {:induction false} AckPhaseMeaning(ts: seq<Transfer>, n: nat, k: nat)
    requires k <= |ts| && k <= n
    requires forall i :: 0 <= i < k ==> AckPending(ts[i])
    requires k < |ts| && k < n ==> !AckPending(ts[k])
    ensures AckPhase(ts, n) ==
            if k == |ts| || k == n then Done(None, ts[k..])
            else match AckStep(ts[k])
              case Goes(l) => Done(l, ts[k + 1..])
              case Stops(why) => Broken(why)
    decreases k
  {
    hide AckStep, AckPending;
    if ts != [] && n > 0 {
      AckStepMeaning(ts[0]);
    }
    if k > 0 {
      assert AckPending(ts[0]);
      assert forall i :: 0 <= i < |ts| - 1 ==> ts[1..][i] == ts[i + 1];
      AckPhaseMeaning(ts[1..], n - 1, k - 1);
      assert ts[1..][k - 1..] == ts[k..];
      if k < |ts| {
        assert ts[1..][k..] == ts[k + 1..];
      }
    }
  }

  /** Every stream has such a first receive, or none in time. */
  lemma {:induction false} FirstDecisive(ts: seq<Transfer>, n: nat) returns (j: nat, k: nat)
    ensures j <= |ts| && j <= n && (forall i :: 0 <= i < j ==> OfferPending(ts[i]))
    ensures j < |ts| && j < n ==> !OfferPending(ts[j])
    ensures k <= |ts| && k <= n && (forall i :: 0 <= i < k ==> AckPending(ts[i]))
    ensures k < |ts| && k < n ==> !AckPending(ts[k])
    decreases n
  {
    hide OfferPending, AckPending;
    j, k := 0, 0;
    if n > 0 && ts != [] {
      var j', k' := FirstDecisive(ts[1..], n - 1);
      assert forall i :: 0 <= i < |ts| - 1 ==> ts[1..][i] == ts[i + 1];
      j := if OfferPending(ts[0]) then j' + 1 else 0;
      k := if AckPending(ts[0]) then k' + 1 else 0;
    }
  }

  /** Both bulk sends go through. */
  predicate SendsWork(sends: seq<bool>) {
    (sends == [] || sends[0]) && (|sends| < 2 || sends[1])
  }

  /** `ts[j]` is the first receive that decides, within 50, and it brings an OFFER. */
  ghost predicate OfferAt(ts: seq<Transfer>, j: nat) {
    && j < |ts| && j < 50
    && (forall i :: 0 <= i < j ==> OfferPending(ts[i]))
    && ts[j].Found? && FirstTrouble(ts[j].sights).None? && Offered(ts[j].sights) != []
  }

  /** `ts[k]` is the first receive that decides the ACK phase, within 50. */
  ghost predicate DecidesAck(ts: seq<Transfer>, k: nat) {
    k < |ts| && k < 50 && (forall i :: 0 <= i < k ==> AckPending(ts[i])) && !AckPending(ts[k])
  }

  /** The REQUEST for the last address offered in `ts[j]`, to the last server seen so far. */
  function RequestAfter(mac: Mac, ts: seq<Transfer>, j: nat): (q: seq<byte>)
    requires j < |ts| && ts[j].Found? && Offered(ts[j].sights) != []
    ensures |q| <= RNDIS_BUF
  {
    var os := Offered(ts[j].sights);
    RequestUrb(mac, os[|os| - 1], Or(LastOr(ServersIn(ts[..j + 1]), None), [0, 0, 0, 0]))
  }

  /** When a send fails that is the outcome, and nothing more is sent. */
  lemma SendFails(mac: Mac, rs: seq<Recv>, sends: seq<bool>, j: nat)
    ensures sends != [] && !sends[0] ==> Exchange(mac, rs, sends) == (Refused(Usb), [])
    ensures |sends| >= 2 && sends[0] && !sends[1] && OfferAt(OfferTransfers(mac, rs), j) ==>
              Exchange(mac, rs, sends) == (Refused(Usb), [DiscoverUrb(mac)])
  {
    hide OfferPending, OfferPhase, FirstTrouble, Offered, ServersIn, DiscoverUrb, RequestUrb, OfferTransfers, AckOutcome;
    if OfferAt(OfferTransfers(mac, rs), j) {
      OfferAtDecides(OfferTransfers(mac, rs), j);
      OfferPhaseMeaning(OfferTransfers(mac, rs), ATTEMPTS, j, None);
    }
  }

  /** Without an OFFER in 50 receives the exchange fails, having sent only the DISCOVER. */
  lemma ErrorWithoutOffer(mac: Mac, rs: seq<Recv>, sends: seq<bool>)
    requires SendsWork(sends)
    requires forall i :: 0 <= i < |rs| && i < 50 ==> OfferPending(OfferTransfers(mac, rs)[i])
    ensures Exchange(mac, rs, sends) == (Refused(NoOffer), [DiscoverUrb(mac)])
  {
    hide OfferPending, OfferPhase, OfferTransfers;
    OfferPhaseMeaning(OfferTransfers(mac, rs), ATTEMPTS, if |rs| < ATTEMPTS then |rs| else ATTEMPTS, None);
  }

  /** So it does when a receive before any OFFER fails, or brings trouble. */
  lemma BrokenBeforeOffer(mac: Mac, rs: seq<Recv>, sends: seq<bool>, j: nat)
    requires SendsWork(sends) && j < |rs| && j < 50
    requires forall i :: 0 <= i < j ==> OfferPending(OfferTransfers(mac, rs)[i])
    requires var t := OfferTransfers(mac, rs)[j]; t.Found? ==> FirstTrouble(t.sights).Some?
    ensures var t := OfferTransfers(mac, rs)[j];
            Exchange(mac, rs, sends) ==
            (if t.Found? then FirstTrouble(t.sights).value else Refused(Usb), [DiscoverUrb(mac)])
  {
    hide OfferPhase, FirstTrouble, Offered, OfferTransfers;
    OfferPhaseMeaning(OfferTransfers(mac, rs), ATTEMPTS, j, None);
  }

  /** The phases one after the other, from an OFFER on. */
  lemma AfterOffer(mac: Mac, rs: seq<Recv>, sends: seq<bool>, j: nat)
    requires SendsWork(sends) && OfferAt(OfferTransfers(mac, rs), j)
    ensures var q := RequestAfter(mac, OfferTransfers(mac, rs), j);
            && Exchange(mac, rs, sends).1 == [DiscoverUrb(mac), q]
            && Exchange(mac, rs, sends).0 == AckOutcome(AckTransfers(mac, rs, j + 1, q))
  {
    hide OfferPending, OfferPhase, AckPhase, FirstTrouble, Offered, ServersIn, DiscoverUrb, RequestUrb, OfferTransfers,
         AckTransfers;
    OfferAtDecides(OfferTransfers(mac, rs), j);
    OfferPhaseMeaning(OfferTransfers(mac, rs), ATTEMPTS, j, None);
  }

  lemma OfferAtDecides(ts: seq<Transfer>, j: nat)
    requires OfferAt(ts, j)
    ensures j < |ts| && !OfferPending(ts[j])
  {
    hide FirstTrouble, Offered;
  }

  /** The REQUEST asks for the last address offered in the first transfer with an OFFER, and names
      the last server seen so far, whatever comes after. */
  lemma RequestFollowsOffer(mac: Mac, rs: seq<Recv>, sends: seq<bool>, j: nat)
    requires SendsWork(sends) && OfferAt(OfferTransfers(mac, rs), j)
    ensures Exchange(mac, rs, sends).1 == [DiscoverUrb(mac), RequestAfter(mac, OfferTransfers(mac, rs), j)]
  {
    hide RequestAfter, Exchange, OfferTransfers;
    AfterOffer(mac, rs, sends, j);
  }

  /** What the receive that decides after the OFFER brings decides the outcome: the first lease
      acknowledged in it; or it failed, or brought trouble. */
  lemma LeaseFromFirstAck(mac: Mac, rs: seq<Recv>, sends: seq<bool>, j: nat, k: nat)
    requires SendsWork(sends) && OfferAt(OfferTransfers(mac, rs), j)
    requires DecidesAck(AckTransfers(mac, rs, j + 1, RequestAfter(mac, OfferTransfers(mac, rs), j)), k)
    ensures var t, o := AckTransfers(mac, rs, j + 1, RequestAfter(mac, OfferTransfers(mac, rs), j))[k],
                        Exchange(mac, rs, sends).0;
            if t.Lost? then o == Refused(Usb)
            else if Acked(Readable(t.sights)) != [] then o == Leased(Acked(Readable(t.sights))[0])
            else Some(o) == AckTrouble(t.sights)
  {
    hide AckPending, AckStep, AckPhase, Exchange, RequestAfter, OfferTransfers, AckTransfers, Readable, Acked, AckTrouble;
    AfterOffer(mac, rs, sends, j);
    var ts := AckTransfers(mac, rs, j + 1, RequestAfter(mac, OfferTransfers(mac, rs), j));
    AckPhaseMeaning(ts, ATTEMPTS, k);
    AckStepMeaning(ts[k]);
  }

  /** With nothing to decide it in 50 receives, the fixed defaults. */
  lemma DefaultsWithoutAck(mac: Mac, rs: seq<Recv>, sends: seq<bool>, j: nat)
    requires SendsWork(sends) && OfferAt(OfferTransfers(mac, rs), j)
    requires var ts := AckTransfers(mac, rs, j + 1, RequestAfter(mac, OfferTransfers(mac, rs), j));
             forall i :: 0 <= i < |ts| && i < 50 ==> AckPending(ts[i])
    ensures Exchange(mac, rs, sends).0 == Leased(Defaults())
  {
    hide AckPending, AckPhase, Exchange, RequestAfter, OfferTransfers, AckTransfers;
    AfterOffer(mac, rs, sends, j);
    var ts := AckTransfers(mac, rs, j + 1, RequestAfter(mac, OfferTransfers(mac, rs), j));
    AckPhaseMeaning(ts, ATTEMPTS, if |ts| < ATTEMPTS then |ts| else ATTEMPTS);
  }

  // ---- A whole handshake with a well-behaved server ----

  /** A server's message as it fills it in: addressing, the address it gives, and its options, closed
      by END and anything behind it. */
  datatype ServerMessage = ServerMessage(
    to: Mac, from: Mac, ihl: byte, ip: seq<byte>, udpTail: seq<byte>, fixed: seq<byte>, yiaddr: Quad,
    rest: seq<byte>, items: seq<O.Item>, behind: seq<byte>)

  ghost predicate Sendable(m: ServerMessage) {
    && 5 <= m.ihl < 16 && |m.ip| == 4 * m.ihl - 10 && |m.udpTail| == 4 && |m.fixed| == 8 && |m.rest| == 216
    && forall i :: i in m.items ==> O.ValidItem(i)
  }

  ghost function OnWire(m: ServerMessage): seq<byte>
    requires Sendable(m)
  {
    ServerFrame(m.to, m.from, m.ihl, m.ip, m.udpTail, m.fixed, m.yiaddr, m.rest,
                O.Encode(m.items) + ([O.END] + m.behind))
  }

  ghost predicate Transferable(m: ServerMessage) {
    Sendable(m) && Rndis.HEADER + |OnWire(m)| <= RNDIS_BUF
  }

  lemma ServerFrameNotEmpty(m: ServerMessage)
    requires Sendable(m)
    ensures OnWire(m) != []
  {
    hide Gate, Xid, M.Cookie, O.Encode;
  }

  /** In a transfer of its own a server's message is one frame, whatever was in the buffer before. */
  lemma OneSight(buf: Buffer, m: ServerMessage) returns (v: Sight)
    requires Transferable(m)
    ensures TransferOf(buf, Arrived(Rndis.DataPacket(OnWire(m)))) == Found([v]) && v.frame == OnWire(m)
  {
    hide Frames, Sights, OnWire, Rndis.DataPacket;
    var d := Rndis.DataPacket(OnWire(m));
    ServerFrameNotEmpty(m);
    Rndis.ItemFrames(Rndis.Data(OnWire(m)));
    var b := Filled(buf, Arrived(d));
    assert Clip(d) == d && b[..|d|] == d;
    SightsFrames(d);
    var vs := SightsIn(b, |d|);
    assert Seen(Sights(d))[0] == OnWire(m) && |vs| == 1;
    v := vs[0];
    assert vs == [v];
  }

  /** And it is read as it was filled in, by both handlers. */
  lemma MessageReadsBack(m: ServerMessage, v: Sight)
    requires Transferable(m) && v.frame == OnWire(m)
    ensures Gate(v).Message? && Gate(v).yiaddr == m.yiaddr
    ensures O.Options(Gate(v).opts) == O.Visited(Gate(v).opts) == O.Entries(m.items)
    ensures OfferTrouble(v).None? && Trouble(v).None?
  {
    hide Gate, ServerFrame, O.Options, O.Rest;
    var tail := [O.END] + m.behind;
    GateReads(m.to, m.from, m.ihl, m.ip, m.udpTail, m.fixed, m.yiaddr, m.rest, O.Encode(m.items) + tail, v.behind);
    assert v == Sight(OnWire(m), v.behind);
    O.ReadsBack(m.items, tail);
    O.OfferAgrees(O.Encode(m.items) + tail, None);
  }

  /** One frame without trouble. */
  lemma OneFrame(v: Sight)
    requires OfferTrouble(v).None? && Trouble(v).None?
    ensures Offered([v]) == if IsOffer(v) then [Gate(v).yiaddr] else []
    ensures Acked([v]) == if IsAck(v) then [LeaseOf(Gate(v).yiaddr, Gate(v).opts)] else []
    ensures ServersIn([Found([v])]) == if ServerIn(v).Some? then [ServerIn(v).value] else []
    ensures FirstTrouble([v]).None? && Readable([v]) == [v]
  {
    hide Gate, O.Options, O.Last, LeaseOf, IsOffer, IsAck, ServerIn, OfferTrouble, Trouble;
    assert [v][1..] == [] && [Found([v])][1..] == [];
    assert Servers([v]) == (if ServerIn(v).Some? then [ServerIn(v).value] else []) + [];
  }

  /** An OFFER in a transfer of its own. */
  lemma OfferArrives(buf: Buffer, m: ServerMessage) returns (v: Sight)
    requires Transferable(m) && O.MsgType(O.Entries(m.items)) == 2
    ensures TransferOf(buf, Arrived(Rndis.DataPacket(OnWire(m)))) == Found([v])
    ensures FirstTrouble([v]).None? && Offered([v]) == [m.yiaddr]
    ensures LastOr(ServersIn([Found([v])]), None) == O.Last(O.Entries(m.items), O.SERVER_ID, 0, 4)
  {
    hide TransferOf, OfferTrouble, Trouble, OnWire, Rndis.DataPacket, Gate, O.Options, O.Visited, O.MsgType, O.Last,
         Transferable, FirstTrouble, Offered;
    v := OneSight(buf, m);
    MessageReadsBack(m, v);
    OneFrame(v);
  }

  /** An ACK in a transfer of its own. */
  lemma AckArrives(buf: Buffer, m: ServerMessage) returns (v: Sight)
    requires Transferable(m) && O.MsgType(O.Entries(m.items)) == 5
    ensures TransferOf(buf, Arrived(Rndis.DataPacket(OnWire(m)))) == Found([v])
    ensures Readable([v]) == [v] && Acked([v]) == [LeaseFrom(m.yiaddr, O.Entries(m.items))]
  {
    hide TransferOf, OfferTrouble, Trouble, OnWire, Rndis.DataPacket, Gate, O.Options, O.Visited, O.MsgType, O.Last,
         Transferable, Readable, Acked, LeaseFrom, FirstTrouble;
    v := OneSight(buf, m);
    MessageReadsBack(m, v);
    OneFrame(v);
  }

  ghost predicate TwoSights(mac: Mac, rs: seq<Recv>, offer: Sight, ack: Sight, q: seq<byte>) {
    && |rs| == 2 && |q| <= RNDIS_BUF
    && OfferTransfers(mac, rs)[0] == Found([offer]) && AckTransfers(mac, rs, 1, q)[0] == Found([ack])
  }

  /** Two receives: one brings an OFFER, the other, into the buffer as it is then, an ACK. */
  lemma TwoReceives(mac: Mac, rs: seq<Recv>, offer: Sight, ack: Sight, ip: Quad, server: Option<Quad>, lease: Lease)
    requires TwoSights(mac, rs, offer, ack, RequestUrb(mac, ip, Or(server, [0, 0, 0, 0])))
    requires FirstTrouble([offer]).None? && Offered([offer]) == [ip]
    requires LastOr(ServersIn([Found([offer])]), None) == server
    requires Readable([ack]) == [ack] && Acked([ack]) == [lease]
    ensures Exchange(mac, rs, []) == (Leased(lease), [DiscoverUrb(mac), RequestUrb(mac, ip, Or(server, [0, 0, 0, 0]))])
  {
    hide DiscoverUrb, RequestUrb, Exchange, Readable, FirstTrouble, Offered, Acked, AckTrouble, ServersIn,
         OfferTransfers, AckTransfers, LastOr;
    var ts := OfferTransfers(mac, rs);
    assert ts[..1] == [Found([offer])];
    assert OfferAt(ts, 0) && RequestAfter(mac, ts, 0) == RequestUrb(mac, ip, Or(server, [0, 0, 0, 0]));
    assert DecidesAck(AckTransfers(mac, rs, 1, RequestAfter(mac, ts, 0)), 0);
    RequestFollowsOffer(mac, rs, [], 0);
    LeaseFromFirstAck(mac, rs, [], 0, 0);
  }

  lemma FirstTransfers(mac: Mac, rs: seq<Recv>, q: seq<byte>)
    requires |rs| == 2 && |q| <= RNDIS_BUF
    ensures var b := Built(Zeros(RNDIS_BUF), DiscoverUrb(mac));
            && OfferTransfers(mac, rs)[0] == TransferOf(b, rs[0])
            && AckTransfers(mac, rs, 1, q)[0] == TransferOf(Built(Filled(b, rs[0]), q), rs[1])
  {
    hide TransferOf, Filled, Built, DiscoverUrb;
    var b := Built(Zeros(RNDIS_BUF), DiscoverUrb(mac));
    assert rs[..1] == [rs[0]] && rs[1..][0] == rs[1] && [rs[0]][1..] == [];
    assert After(b, rs[..1]) == After(Filled(b, rs[0]), []) == Filled(b, rs[0]);
  }

  /** Against the server's side: for every OFFER and every ACK that fit, whatever their other fields and
      options, the client asks the offering server for the address offered and ends up with the lease
      as the ACK states it. */
  lemma Handshake(mac: Mac, offer: ServerMessage, ack: ServerMessage)
    requires Transferable(offer) && O.MsgType(O.Entries(offer.items)) == 2
    requires Transferable(ack) && O.MsgType(O.Entries(ack.items)) == 5
    ensures var rs := [Arrived(Rndis.DataPacket(OnWire(offer))), Arrived(Rndis.DataPacket(OnWire(ack)))];
            var server := O.Last(O.Entries(offer.items), O.SERVER_ID, 0, 4);
            Exchange(mac, rs, []) ==
            (Leased(LeaseFrom(ack.yiaddr, O.Entries(ack.items))),
             [DiscoverUrb(mac), RequestUrb(mac, offer.yiaddr, Or(server, [0, 0, 0, 0]))])
  {
    hide OnWire, Rndis.DataPacket, O.Entries, O.Last, O.MsgType, DiscoverUrb, RequestUrb, Built, Filled, TransferOf,
         OfferTransfers, AckTransfers, Exchange, FirstTrouble, Offered, ServersIn, LastOr, Readable, Acked, LeaseFrom;
    var rs := [Arrived(Rndis.DataPacket(OnWire(offer))), Arrived(Rndis.DataPacket(OnWire(ack)))];
    var server := O.Last(O.Entries(offer.items), O.SERVER_ID, 0, 4);
    var q := RequestUrb(mac, offer.yiaddr, Or(server, [0, 0, 0, 0]));
    var b := Built(Zeros(RNDIS_BUF), DiscoverUrb(mac));
    FirstTransfers(mac, rs, q);
    var v := OfferArrives(b, offer);
    var w := AckArrives(Built(Filled(b, rs[0]), q), ack);
    TwoReceives(mac, rs, v, w, offer.yiaddr, server, LeaseFrom(ack.yiaddr, O.Entries(ack.items)));
  }

  /** A message of type `t`, by its last option 53. */
  ghost predicate HasType(os: seq<O.Opt>, t: byte) {
    exists j: nat :: O.IsLast(os, 53, 1, j) && os[j].data[0] == t
  }

  lemma TypeOf(os: seq<O.Opt>, t: byte)
    requires HasType(os, t)
    ensures O.MsgType(os) == t
  {
    var j: nat :| O.IsLast(os, 53, 1, j) && os[j].data[0] == t;
    O.TypeAndServer(os, None, j);
  }

  /** Any message of type 2, then any of type 5. */
  ghost predicate OfferThenAck(offer: ServerMessage, ack: ServerMessage) {
    && Transferable(offer) && HasType(O.Entries(offer.items), 2)
    && Transferable(ack) && HasType(O.Entries(ack.items), 5)
  }

  ghost function Outcomes(mac: Mac, offer: ServerMessage, ack: ServerMessage): (Outcome, seq<seq<byte>>)
    requires OfferThenAck(offer, ack)
  {
    Exchange(mac, [Arrived(Rndis.DataPacket(OnWire(offer))), Arrived(Rndis.DataPacket(OnWire(ack)))], [])
  }

  lemma HandshakeOutcomes(mac: Mac, offer: ServerMessage, ack: ServerMessage)
    requires OfferThenAck(offer, ack)
    ensures Outcomes(mac, offer, ack).0 == Leased(LeaseFrom(ack.yiaddr, O.Entries(ack.items)))
    ensures Outcomes(mac, offer, ack).1 ==
            [DiscoverUrb(mac),
             RequestUrb(mac, offer.yiaddr, Or(O.Last(O.Entries(offer.items), 54, 0, 4), [0, 0, 0, 0]))]
  {
    hide O.Entries, O.Last, O.MsgType, Exchange, Transferable, OnWire, Rndis.DataPacket, DiscoverUrb, RequestUrb, LeaseFrom,
         HasType;
    TypeOf(O.Entries(offer.items), 2);
    TypeOf(O.Entries(ack.items), 5);
    Handshake(mac, offer, ack);
  }

  /** The handshake in numbers: the REQUEST asks for the address offered, of the server of the last option
      54... */
  lemma HandshakeRequest(mac: Mac, offer: ServerMessage, ack: ServerMessage, j: nat)
    requires OfferThenAck(offer, ack)
    ensures var os, sent := O.Entries(offer.items), Outcomes(mac, offer, ack).1;
            && (O.IsLast(os, 54, 4, j) ==> sent == [DiscoverUrb(mac), RequestUrb(mac, offer.yiaddr, os[j].data[0..4])])
            && (O.NoneOf(os, 54, 4) ==> sent == [DiscoverUrb(mac), RequestUrb(mac, offer.yiaddr, [0, 0, 0, 0])])
  {
    hide O.Entries, O.Last, Outcomes, OfferThenAck, DiscoverUrb, RequestUrb, LeaseFrom;
    HandshakeOutcomes(mac, offer, ack);
    var os := O.Entries(offer.items);
    if O.IsLast(os, 54, 4, j) { O.LastIs(os, 54, 0, 4, j); }
    if O.NoneOf(os, 54, 4) { O.LastNone(os, 54, 0, 4); }
  }

  /** ...and the lease has the address in the ACK, the gateway of its last option 3, the mask of its last
      option 1 and the DNS servers of its last options 6, or the defaults for those it does not carry. */
  lemma HandshakeLease(mac: Mac, offer: ServerMessage, ack: ServerMessage, j: nat)
    requires OfferThenAck(offer, ack)
    ensures var os, o := O.Entries(ack.items), Outcomes(mac, offer, ack).0;
            && o.Leased? && o.lease.ip == ack.yiaddr
            && (O.IsLast(os, 3, 4, j) ==> o.lease.gateway == os[j].data[0..4])
            && (O.NoneOf(os, 3, 4) ==> o.lease.gateway == [192, 168, 42, 129])
            && (O.IsLast(os, 1, 4, j) ==> o.lease.netmask == os[j].data[0..4])
            && (O.NoneOf(os, 1, 4) ==> o.lease.netmask == [255, 255, 255, 0])
            && (O.IsLast(os, 6, 4, j) ==> o.lease.dns1 == os[j].data[0..4])
            && (O.NoneOf(os, 6, 4) ==> o.lease.dns1 == [8, 8, 8, 8])
            && (O.IsLast(os, 6, 8, j) ==> o.lease.dns2 == os[j].data[4..8])
            && (O.NoneOf(os, 6, 8) ==> o.lease.dns2 == [8, 8, 4, 4])
  {
    hide O.Entries, Outcomes, OfferThenAck, DiscoverUrb, RequestUrb, LeaseFrom;
    HandshakeOutcomes(mac, offer, ack);
    LeaseFields(ack.yiaddr, O.Entries(ack.items), j);
  }
}
