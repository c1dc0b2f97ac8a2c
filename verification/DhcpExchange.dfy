/** The DISCOVER/OFFER/REQUEST/ACK exchange (src/dhcp.rs) over any stream of received transfers.
    The exchange is RFC 2131 section 3.1, without its retransmissions. */
module DhcpExchange {
  import opened Bytes
  import opened Wrappers
  import opened Frame
  import opened NetTypes
  import opened Rndis
  import M = DhcpMessage
  import O = DhcpOptions

  const ATTEMPTS := 50
  const MIN_FRAME := 282
  const OFFER := 2
  const ACK := 5

  function Xid(): Quad {
    [0x12, 0x34, 0x56, 0x78]
  }

  datatype Lease = Lease(ip: Quad, gateway: Quad, netmask: Quad, dns1: Quad, dns2: Quad)

  function Defaults(): Lease {
    Lease([192, 168, 42, 100], [192, 168, 42, 129], [255, 255, 255, 0], [8, 8, 8, 8], [8, 8, 4, 4])
  }

  /** Which frames are looked into. The IP header length can push the fixed message part past the end of
      the frame; the code then reads on in the receive buffer. If a cookie and our transaction happen to
      stand there it panics as it takes the options, otherwise the frame is ignored like any other.
      `Outside`: even the buffer ends before that; what the code reads then is left open. */
  datatype Verdict = Ignored | Panics | Outside | Message(yiaddr: Quad, opts: seq<byte>)

  /** Where the message starts, for a frame that passes the checks before it. */
  function MessageAt(frame: seq<byte>): Option<nat> {
    if |frame| < MIN_FRAME then None
    else if ReadBe16(frame, 12) != IPV4 || frame[23] != 0x11 then None
    else
      var udp := ETH_HDR + frame[14] % 16 * 4;
      if udp + 10 > |frame| || ReadBe16(frame, udp + 2) != 68 then None else Some(udp + 8)
  }

  function QuadAt(s: seq<byte>, at: nat): Quad
    requires at + 4 <= |s|
  {
    s[at..at + 4]
  }

  /** A DHCP message for us, by its cookie and its transaction. */
  predicate Ours(mem: seq<byte>, dhcp: nat)
    requires dhcp + 240 <= |mem|
  {
    mem[dhcp + 236..dhcp + 240] == M.Cookie() && mem[dhcp + 4..dhcp + 8] == Xid()
  }

  lemma OursAnyway(frame: seq<byte>, behind: seq<byte>, dhcp: nat)
    requires dhcp + 240 <= |frame|
    ensures Ours(frame + behind, dhcp) == Ours(frame, dhcp)
  {
    var m := frame + behind;
    assert m[dhcp + 236..dhcp + 240] == frame[dhcp + 236..dhcp + 240] && m[dhcp + 4..dhcp + 8] == frame[dhcp + 4..dhcp + 8];
  }

  function Gate(v: Sight): Verdict {
    match MessageAt(v.frame)
    case None => Ignored
    case Some(dhcp) =>
      if dhcp + 240 > |v.frame| + |v.behind| then Outside
      else if !Ours(v.frame + v.behind, dhcp) then Ignored
      else if dhcp + 240 > |v.frame| then Panics
      else Message(QuadAt(v.frame, dhcp + 16), v.frame[dhcp + 240..])
  }

  /** A frame the code reads past the end of. */
  predicate Overrun(frame: seq<byte>) {
    MessageAt(frame).Some? && MessageAt(frame).value + 240 > |frame|
  }

  /** How far the length check can be trusted: of the frames with a given IP header length (in words),
      those of some length can be read past their end if and only if they are shorter than the message
      pushed back by the IP options. Without options that is never. */
  lemma OverrunIff(length: nat, ihl: nat)
    requires ihl < 16
    ensures (exists frame: seq<byte> :: 282 <= |frame| == length && frame[14] % 16 == ihl && Overrun(frame)) <==>
            282 <= length < 282 + 4 * (ihl - 5)
  {
    if MIN_FRAME <= length < MIN_FRAME + 4 * (ihl - 5) {
      var frame := LongHeader(length, ihl);
    }
  }

  /** A frame with nothing in it but what the checks look for. */
  lemma LongHeader(length: nat, ihl: nat) returns (frame: seq<byte>)
    requires ihl < 16 && MIN_FRAME <= length < MIN_FRAME + 4 * (ihl - 5)
    ensures |frame| == length && frame[14] % 16 == ihl && Overrun(frame)
  {
    frame := seq(length, k => if k == 12 then 8 else if k == 14 then 0x40 + ihl else if k == 23 then 0x11
                              else if k == 17 + 4 * ihl then 68 else 0);
  }

  /** Some such frame does panic, by what an earlier transfer left in the buffer; with zeros there it is
      ignored. */
  lemma StaleBytesMatter() returns (frame: seq<byte>, stale: seq<byte>)
    ensures Gate(Sight(frame, stale)) == Panics
    ensures Gate(Sight(frame, Zeros(|stale|))) == Ignored
  {
    frame := seq(MIN_FRAME, k => if k == 12 then 8 else if k == 14 then 0x4F else if k == 23 then 0x11
                                 else if k == 77 then 68 else if 86 <= k < 90 then Xid()[k - 86] else 0);
    stale := Zeros(36) + M.Cookie();
    var m, z := frame + stale, frame + Zeros(40);
    assert stale[36..40] == M.Cookie() && m[318..322] == stale[36..40];
    assert m[86..90] == [m[86], m[87], m[88], m[89]] == Xid();
    assert z[318] == z[318..322][0] == 0;
  }

  lemma MessageAtOnWire(f: seq<byte>)
    ensures MessageAt(f) ==
            if |f| >= 282 && f[12..14] == [8, 0] && f[23] == 17
               && f[16 + 4 * (f[14] % 16)..18 + 4 * (f[14] % 16)] == [0, 68]
            then Some(22 + 4 * (f[14] % 16))
            else None
  {
    if |f| >= 282 {
      assert f[12..14] == [f[12], f[13]];
      var u := 14 + 4 * (f[14] % 16);
      assert f[u + 2..u + 4] == [f[u + 2], f[u + 3]];
    }
  }

  /** Which frames are messages for us, byte by byte: at least 282 bytes, IPv4, UDP, to port 68, with cookie
      and transaction where the IP header length puts them; and what is then read. */
  lemma GateOnWire(v: Sight)
    ensures var f := v.frame;
            Gate(v).Message? <==>
            && |f| >= 282 && f[12..14] == [8, 0] && f[23] == 17
            && var u := 14 + 4 * (f[14] % 16);
               && u + 248 <= |f| && f[u + 2..u + 4] == [0, 68]
               && f[u + 244..u + 248] == [0x63, 0x82, 0x53, 0x63] && f[u + 12..u + 16] == [0x12, 0x34, 0x56, 0x78]
    ensures Gate(v).Message? ==>
              var f := v.frame;
              var u := 14 + 4 * (f[14] % 16);
              Gate(v) == Message(f[u + 24..u + 28], f[u + 248..])
  {
    hide MessageAt;
    var f := v.frame;
    MessageAtOnWire(f);
    if |f| >= 282 {
      var u := 14 + 4 * (f[14] % 16);
      if u + 248 <= |f| {
        OursAnyway(f, v.behind, u + 8);
      }
    }
  }

  /** A server's frame: IP options of any length, its message, its options. */
  function ServerFrame(mac: Mac, server: Mac, ihl: byte, ip: seq<byte>, udpTail: seq<byte>, fixed: seq<byte>,
                       yiaddr: Quad, rest: seq<byte>, opts: seq<byte>): seq<byte>
    requires 5 <= ihl < 16 && |ip| == 4 * ihl - 10 && |udpTail| == 4 && |fixed| == 8 && |rest| == 216
  {
    mac + server + [8, 0] + ([0x40 + ihl, 0, 0, 0, 0, 0, 0, 0, 64, 0x11] + ip)
    + ([0, 67, 0, 68] + udpTail)
    + ([2, 1, 6, 0] + [0x12, 0x34, 0x56, 0x78] + fixed + yiaddr + rest + [0x63, 0x82, 0x53, 0x63] + opts)
  }

  /** Against the server's side: a server's frame for our transaction is read as its address and its
      options, whatever its IP options, and whatever lies behind it. */
  lemma GateReads(mac: Mac, server: Mac, ihl: byte, ip: seq<byte>, udpTail: seq<byte>, fixed: seq<byte>,
                  yiaddr: Quad, rest: seq<byte>, opts: seq<byte>, behind: seq<byte>)
    requires 5 <= ihl < 16 && |ip| == 4 * ihl - 10 && |udpTail| == 4 && |fixed| == 8 && |rest| == 216
    ensures Gate(Sight(ServerFrame(mac, server, ihl, ip, udpTail, fixed, yiaddr, rest, opts), behind)) ==
            Message(yiaddr, opts)
  {
    hide Gate, Xid, M.Cookie, ServerFrame;
    var eth := mac + server + [8, 0];
    var ipHdr := [0x40 + ihl, 0, 0, 0, 0, 0, 0, 0, 64, 0x11] + ip;
    var udpHdr := [0, 67, 0, 68] + udpTail;
    var msg := [2, 1, 6, 0] + Xid() + fixed + yiaddr + rest + M.Cookie() + opts;
    ServerLayers(mac, server, ihl, ip, udpTail, fixed, yiaddr, rest, opts);
    MessageFields(fixed, yiaddr, rest, opts);
    GateOfLayers(eth, ipHdr, udpHdr, msg, behind);
  }

  lemma GateOfLayers(eth: seq<byte>, ipHdr: seq<byte>, udpHdr: seq<byte>, msg: seq<byte>, behind: seq<byte>)
    requires |eth| == ETH_HDR && eth[12] == 8 && eth[13] == 0
    requires 20 <= |ipHdr| < 64 && |ipHdr| == 4 * (ipHdr[0] % 16) && ipHdr[9] == 0x11
    requires |udpHdr| == 8 && udpHdr[2] == 0 && udpHdr[3] == 68
    requires |msg| >= 240 && msg[4..8] == Xid() && msg[236..240] == M.Cookie()
    ensures Gate(Sight(eth + ipHdr + udpHdr + msg, behind)) == Message(msg[16..20], msg[240..])
  {
    hide Gate;
    FourParts(eth, ipHdr, udpHdr, msg);
    var f := eth + ipHdr + udpHdr + msg;
    var u := 14 + |ipHdr|;
    var d := u + 8;
    assert f[14] == f[14..u][0] && f[23] == f[14..u][9];
    assert f[12..14] == f[..14][12..14] == [eth[12], eth[13]];
    SubSlice(f, u, d, 2, 4);
    assert f[u..d][2..4] == [udpHdr[2], udpHdr[3]];
    SubSlice(f, d, |f|, 4, 8);
    SubSlice(f, d, |f|, 16, 20);
    SubSlice(f, d, |f|, 236, 240);
    assert f[d..|f|] == msg && msg[240..] == f[d..][240..] == f[d + 240..];
    GateOnWire(Sight(f, behind));
  }

  lemma ServerLayers(mac: Mac, server: Mac, ihl: byte, ip: seq<byte>, udpTail: seq<byte>, fixed: seq<byte>,
                     yiaddr: Quad, rest: seq<byte>, opts: seq<byte>)
    requires 5 <= ihl < 16 && |ip| == 4 * ihl - 10 && |udpTail| == 4 && |fixed| == 8 && |rest| == 216
    ensures ServerFrame(mac, server, ihl, ip, udpTail, fixed, yiaddr, rest, opts) ==
            (mac + server + [8, 0]) + ([0x40 + ihl, 0, 0, 0, 0, 0, 0, 0, 64, 0x11] + ip) + ([0, 67, 0, 68] + udpTail)
            + ([2, 1, 6, 0] + Xid() + fixed + yiaddr + rest + M.Cookie() + opts)
  {
  }

  lemma MessageFields(fixed: seq<byte>, yiaddr: Quad, rest: seq<byte>, opts: seq<byte>)
    requires |fixed| == 8 && |rest| == 216
    ensures var msg := [2, 1, 6, 0] + Xid() + fixed + yiaddr + rest + M.Cookie() + opts;
            && |msg| == 240 + |opts| && msg[4..8] == Xid() && msg[16..20] == yiaddr
            && msg[236..240] == M.Cookie() && msg[240..] == opts
  {
  }

  // ---- What the frames of one transfer say ----

  datatype Outcome = Leased(lease: Lease) | Refused(error: Error) | Crash | Undefined

  /** A handler, or a phase, that goes on, or stops everything. */
  datatype Handled<+T> = Goes(value: T) | Stops(why: Outcome)

  /** What the OFFER handler has captured. */
  datatype Captured = Captured(offered: Option<Quad>, server: Option<Quad>)

  /** One frame through the OFFER handler. */
  function OfferFrame(c: Captured, v: Sight): Handled<Captured> {
    match Gate(v)
    case Ignored => Goes(c)
    case Panics => Stops(Crash)
    case Outside => Stops(Undefined)
    case Message(y, opts) =>
      match O.OfferMeaning(opts, c.server)
      case Panic => Stops(Crash)
      case Scanned(t, s) => Goes(Captured(if t == OFFER then Some(y) else c.offered, s))
  }

  function OfferFrames(c: Captured, vs: seq<Sight>): Handled<Captured>
    decreases vs
  {
    if vs == [] then Goes(c)
    else match OfferFrame(c, vs[0])
      case Stops(why) => Stops(why)
      case Goes(d) => OfferFrames(d, vs[1..])
  }

  /** The lease a list of options stands for: each missing one defaulted. */
  function LeaseFrom(y: Quad, os: seq<O.Opt>): Lease {
    var d := Defaults();
    Lease(y, Or(O.Last(os, O.ROUTER, 0, 4), d.gateway), Or(O.Last(os, O.NETMASK, 0, 4), d.netmask),
          Or(O.Last(os, O.DNS, 0, 4), d.dns1), Or(O.Last(os, O.DNS, 4, 8), d.dns2))
  }

  function LeaseOf(y: Quad, opts: seq<byte>): Lease {
    LeaseFrom(y, O.Options(opts))
  }

  function Or(v: Option<Quad>, default': Quad): Quad {
    match v
    case None => default'
    case Some(x) => x
  }

  /** The first ACK among the frames. */
  function AckFrames(vs: seq<Sight>): Handled<Option<Lease>> {
    if vs == [] then Goes(None)
    else match Gate(vs[0])
      case Panics => Stops(Crash)
      case Outside => Stops(Undefined)
      case Message(y, opts) =>
        if O.MsgType(O.Options(opts)) == ACK then Goes(Some(LeaseOf(y, opts))) else AckFrames(vs[1..])
      case Ignored => AckFrames(vs[1..])
  }

  // ---- The receive buffer, and the two phases ----

  /** One bulk receive: an error, or the bytes that arrived, none on a timeout. */
  datatype Recv = Failed | Arrived(data: seq<byte>)

  /** A receive as the handlers see it: the frames in the buffer, with all that lies behind each. */
  datatype Transfer = Lost | Found(sights: seq<Sight>)

  type Buffer = b: seq<byte> | |b| == RNDIS_BUF witness Zeros(RNDIS_BUF)

  /** What fits the receive buffer. */
  function Clip(d: seq<byte>): (c: seq<byte>)
    ensures c == if |d| <= 32768 then d else d[..32768]
  {
    if |d| <= RNDIS_BUF then d else d[..RNDIS_BUF]
  }

  /** The buffer after a receive: the rest of it stays as it was. */
  function Filled(buf: Buffer, r: Recv): Buffer {
    match r
    case Failed => buf
    case Arrived(d) => Splice(buf, 0, Clip(d))
  }

  /** A receive overwrites the front of the buffer and nothing else. */
  lemma StaleStays(buf: Buffer, d: seq<byte>, k: nat)
    requires k < 32768
    ensures Filled(buf, Arrived(d))[k] == if k < |d| then d[k] else buf[k]
    ensures Filled(buf, Failed) == buf
  {
  }

  function After(buf: Buffer, rs: seq<Recv>): Buffer
    decreases |rs|
  {
    if rs == [] then buf else After(Filled(buf, rs[0]), rs[1..])
  }

  /** The frames of the first `n` bytes of the buffer, each with what lies behind it there. */
  function SightsIn(buf: Buffer, n: nat): (vs: seq<Sight>)
    requires n <= RNDIS_BUF
  {
    var ss := Sights(buf[..n]);
    seq(|ss|, k requires 0 <= k < |ss| => Sight(ss[k].frame, ss[k].behind + buf[n..]))
  }

  function TransferOf(buf: Buffer, r: Recv): Transfer {
    match r
    case Failed => Lost
    case Arrived(d) => Found(SightsIn(Filled(buf, r), |Clip(d)|))
  }

  function Transfers(buf: Buffer, rs: seq<Recv>): (ts: seq<Transfer>)
    ensures |ts| == |rs|
    decreases |rs|
  {
    if rs == [] then [] else [TransferOf(buf, rs[0])] + Transfers(Filled(buf, rs[0]), rs[1..])
  }

  datatype Phase<+T> = Done(value: T, rest: seq<Transfer>) | Broken(outcome: Outcome)

  /** One receive through either handler. */
  function OfferStep(c: Captured, t: Transfer): Handled<Captured> {
    match t
    case Lost => Stops(Refused(Usb))
    case Found(vs) => OfferFrames(c, vs)
  }

  function AckStep(t: Transfer): Handled<Option<Lease>> {
    match t
    case Lost => Stops(Refused(Usb))
    case Found(vs) => AckFrames(vs)
  }

  function OfferPhase(ts: seq<Transfer>, n: nat, c: Captured): (p: Phase<Captured>)
    ensures p.Done? ==> |p.rest| <= |ts|
  {
    if n == 0 || ts == [] then Done(c, ts)
    else match OfferStep(c, ts[0])
      case Stops(why) => Broken(why)
      case Goes(d) => if d.offered.Some? then Done(d, ts[1..]) else OfferPhase(ts[1..], n - 1, d)
  }

  function AckPhase(ts: seq<Transfer>, n: nat): (p: Phase<Option<Lease>>)
    ensures p.Done? ==> |p.rest| <= |ts|
  {
    if n == 0 || ts == [] then Done(None, ts)
    else match AckStep(ts[0])
      case Stops(why) => Broken(why)
      case Goes(l) => if l.Some? then Done(l, ts[1..]) else AckPhase(ts[1..], n - 1)
  }

  // ---- The device and the client ----

  /** The bulk endpoints: what will arrive, how sends will go, and what was sent. */
  class UsbDevice {
    var incoming: seq<Recv>
    var sends: seq<bool>
    var sent: seq<seq<byte>>

    constructor (incoming: seq<Recv>, sends: seq<bool>)
      ensures this.incoming == incoming && this.sends == sends && sent == []
    {
      this.incoming, this.sends, this.sent := incoming, sends, [];
    }

    method SendBulk(data: seq<byte>) returns (ok: bool)
      modifies this
      ensures incoming == old(incoming)
      ensures ok == (old(sends) == [] || old(sends)[0])
      ensures sends == if old(sends) == [] then [] else old(sends)[1..]
      ensures sent == if ok then old(sent) + [data] else old(sent)
    {
      ok := sends == [] || sends[0];
      if sends != [] {
        sends := sends[1..];
      }
      if ok {
        sent := sent + [data];
      }
    }

    /** Receives into the front of `buf`: how many bytes, if it does not fail. With nothing left to arrive it
        times out. */
    method RecvBulk(buf: array<byte>) returns (n: Option<nat>)
      requires buf.Length == RNDIS_BUF
      modifies `incoming, buf
      ensures old(incoming) == [] ==> n == Some(0) && incoming == [] && buf[..] == old(buf[..])
      ensures old(incoming) != [] ==>
                && incoming == old(incoming)[1..] && buf[..] == Filled(old(buf[..]), old(incoming)[0])
                && n == match old(incoming)[0] case Failed => None case Arrived(d) => Some(|Clip(d)|)
    {
      if incoming == [] {
        return Some(0);
      }
      match incoming[0] {
        case Failed => n := None;
        case Arrived(d) =>
          Write(buf, 0, Clip(d));
          n := Some(|Clip(d)|);
      }
      incoming := incoming[1..];
    }
  }

  /** The checks both handlers make on the frame `buf[lo..hi]` before they look at the options. */
  method CheckFrame(buf: seq<byte>, lo: nat, hi: nat) returns (v: Verdict)
    requires lo <= hi <= |buf|
    ensures v == Gate(Sight(buf[lo..hi], buf[hi..]))
  {
    hide M.Cookie, Xid;
    var frame: seq<byte> := buf[lo..hi];
    assert frame + buf[hi..] == buf[lo..];
    if |frame| < MIN_FRAME {
      return Ignored;
    }
    if ReadBe16(frame, 12) != IPV4 {
      return Ignored;
    }
    if frame[ETH_HDR + 9] != 0x11 {
      return Ignored;
    }
    var udp := ETH_HDR + frame[ETH_HDR] % 16 * 4;
    if udp + 10 > |frame| {
      return Ignored;
    }
    if ReadBe16(frame, udp + 2) != 68 {
      return Ignored;
    }
    var dhcp := udp + 8;
    if lo + dhcp + 240 > |buf| {
      return Outside;
    }
    var magic, xid := buf[lo + dhcp + 236..lo + dhcp + 240], buf[lo + dhcp + 4..lo + dhcp + 8];
    SubSlice(buf, lo, |buf|, dhcp + 236, dhcp + 240);
    SubSlice(buf, lo, |buf|, dhcp + 4, dhcp + 8);
    assert buf[lo..|buf|] == buf[lo..];
    if magic != M.Cookie() || xid != Xid() {
      return Ignored;
    }
    if dhcp + 240 > |frame| {
      return Panics;
    }
    return Message(QuadAt(frame, dhcp + 16), frame[dhcp + 240..]);
  }

  /** The frames of a transfer, where the handlers find them in the buffer. */
  method FramesAt(buf: Buffer, n: nat) returns (slices: seq<Slice>)
    requires n <= RNDIS_BUF
    ensures |slices| == |SightsIn(buf, n)|
    ensures forall k :: 0 <= k < |slices| ==> slices[k].lo <= slices[k].hi <= |buf|
    ensures forall k :: 0 <= k < |slices| ==> SightsIn(buf, n)[k] == SightIn(buf, slices[k])
  {
    hide Sights, Frames, Inside, Ordered, Cut, Seen;
    var data := buf[..n];
    slices := Collect(data);
    forall k | 0 <= k < |slices|
      ensures slices[k].lo <= slices[k].hi <= |buf| && SightsIn(buf, n)[k] == SightIn(buf, slices[k])
    {
      CutAt(data, slices, k);
      InBuffer(buf, n, slices[k]);
    }
  }

  lemma InBuffer(buf: Buffer, n: nat, s: Slice)
    requires s.lo <= s.hi <= n <= RNDIS_BUF
    ensures buf[..n][s.lo..s.hi] == buf[s.lo..s.hi] && buf[..n][s.hi..] + buf[n..] == buf[s.hi..]
  {
  }

  method HandleOffers(buf: Buffer, n: nat, c0: Captured) returns (r: Handled<Captured>)
    requires n <= RNDIS_BUF
    ensures r == OfferFrames(c0, SightsIn(buf, n))
  {
    hide Frames, Sights, SightsIn, Gate, O.OfferMeaning;
    var slices := FramesAt(buf, n);
    ghost var vs := SightsIn(buf, n);
    assert vs[0..] == vs;
    var c := c0;
    for k := 0 to |slices|
      invariant OfferFrames(c0, vs) == OfferFrames(c, vs[k..])
    {
      assert vs[k..][0] == SightIn(buf, slices[k]) && vs[k..][1..] == vs[k + 1..];
      var v := CheckFrame(buf, slices[k].lo, slices[k].hi);
      match v {
        case Ignored =>
        case Panics => return Stops(Crash);
        case Outside => return Stops(Undefined);
        case Message(y, opts) =>
          var scan := O.OfferScan(opts, c.server);
          match scan {
            case Panic => return Stops(Crash);
            case Scanned(t, s) => c := Captured(if t == OFFER then Some(y) else c.offered, s);
          }
      }
    }
    assert vs[|slices|..] == [];
    return Goes(c);
  }

  method HandleAcks(buf: Buffer, n: nat) returns (r: Handled<Option<Lease>>)
    requires n <= RNDIS_BUF
    ensures r == AckFrames(SightsIn(buf, n))
  {
    hide Frames, Sights, SightsIn, Gate, O.Options, O.Last, O.MsgType;
    var slices := FramesAt(buf, n);
    ghost var vs := SightsIn(buf, n);
    assert vs[0..] == vs;
    var found: Option<Lease> := None;
    for k := 0 to |slices|
      invariant found.None? ==> AckFrames(vs) == AckFrames(vs[k..])
      invariant found.Some? ==> AckFrames(vs) == Goes(found)
    {
      if found.None? {
        assert vs[k..][0] == SightIn(buf, slices[k]) && vs[k..][1..] == vs[k + 1..];
        var v := CheckFrame(buf, slices[k].lo, slices[k].hi);
        match v {
          case Ignored =>
          case Panics => return Stops(Crash);
          case Outside => return Stops(Undefined);
          case Message(y, opts) =>
            var msgType := O.AckType(opts);
            if msgType == ACK {
              var gw, mask, d1, d2 := O.ParseOptions(opts);
              var d := Defaults();
              found := Some(Lease(y, Or(gw, d.gateway), Or(mask, d.netmask), Or(d1, d.dns1), Or(d2, d.dns2)));
            }
        }
      }
    }
    assert vs[|slices|..] == [];
    return Goes(found);
  }

  /** A receive of nothing changes nothing. */
  lemma EmptyTransfer(buf: Buffer)
    ensures SightsIn(buf, 0) == [] && Splice(buf, 0, []) == buf
  {
    assert buf[..0] == [];
  }

  lemma AfterOne(buf: Buffer, rs: seq<Recv>, k: nat)
    requires k < |rs|
    ensures After(buf, rs[..k + 1]) == Filled(After(buf, rs[..k]), rs[k])
    decreases k
  {
    hide Filled;
    if k == 0 {
      assert rs[..1] == [rs[0]] && [rs[0]][1..] == [] && rs[..0] == [];
    } else {
      assert rs[..k + 1][1..] == rs[1..][..k] && rs[..k][1..] == rs[1..][..k - 1];
      AfterOne(Filled(buf, rs[0]), rs[1..], k - 1);
    }
  }

  /** What is left to receive, and the buffer, after one receive. */
  ghost predicate OneReceived(rs0: seq<Recv>, buf0: seq<byte>, rs: seq<Recv>, buf: seq<byte>)
    requires |buf0| == RNDIS_BUF
  {
    if rs0 == [] then rs == [] && buf == buf0 else rs == rs0[1..] && buf == Filled(buf0, rs0[0])
  }

  /** One attempt to receive an OFFER, or an ACK. */
  method TryOffer(usb: UsbDevice, buf: array<byte>, c: Captured) returns (h: Handled<Captured>)
    requires buf.Length == RNDIS_BUF
    modifies usb`incoming, buf
    ensures OneReceived(old(usb.incoming), old(buf[..]), usb.incoming, buf[..])
    ensures h == if old(usb.incoming) == [] then Goes(c)
                 else OfferStep(c, TransferOf(old(buf[..]), old(usb.incoming)[0]))
  {
    hide SightsIn;
    var n := usb.RecvBulk(buf);
    match n {
      case None => h := Stops(Refused(Usb));
      case Some(len) =>
        EmptyTransfer(buf[..]);
        if len == 0 {
          return Goes(c);
        }
        h := HandleOffers(buf[..], len, c);
    }
  }

  method TryAck(usb: UsbDevice, buf: array<byte>) returns (h: Handled<Option<Lease>>)
    requires buf.Length == RNDIS_BUF
    modifies usb`incoming, buf
    ensures OneReceived(old(usb.incoming), old(buf[..]), usb.incoming, buf[..])
    ensures h == if old(usb.incoming) == [] then Goes(None)
                 else AckStep(TransferOf(old(buf[..]), old(usb.incoming)[0]))
  {
    hide SightsIn;
    var n := usb.RecvBulk(buf);
    match n {
      case None => h := Stops(Refused(Usb));
      case Some(len) =>
        EmptyTransfer(buf[..]);
        if len == 0 {
          return Goes(None);
        }
        h := HandleAcks(buf[..], len);
    }
  }

  lemma NextTransfer(buf: Buffer, rs: seq<Recv>)
    requires rs != []
    ensures Transfers(buf, rs)[0] == TransferOf(buf, rs[0])
    ensures Transfers(buf, rs)[1..] == Transfers(Filled(buf, rs[0]), rs[1..])
  {
  }

  /** The first receives of a stream, one longer. */
  lemma OneMore(buf: Buffer, rs: seq<Recv>, k: nat, rest: seq<Recv>, now: seq<byte>)
    requires k <= |rs| && OneReceived(rs[k..], After(buf, rs[..k]), rest, now)
    ensures var j := if k < |rs| then k + 1 else k;
            rest == rs[j..] && now == After(buf, rs[..j])
  {
    hide Filled;
    if k < |rs| {
      AfterOne(buf, rs, k);
      assert rs[k..][1..] == rs[k + 1..];
    }
  }

  method AwaitOffer(usb: UsbDevice, buf: array<byte>) returns (p: Phase<Captured>)
    requires buf.Length == RNDIS_BUF
    modifies usb`incoming, buf
    ensures p == OfferPhase(Transfers(old(buf[..]), old(usb.incoming)), ATTEMPTS, Captured(None, None))
    ensures p.Done? ==>
              var used := |old(usb.incoming)| - |p.rest|;
              usb.incoming == old(usb.incoming)[used..] && buf[..] == After(old(buf[..]), old(usb.incoming)[..used])
  {
    hide TransferOf, OfferStep, Filled, After, Transfers;
    ghost var rs, buf0: Buffer, k := usb.incoming, buf[..], 0;
    AfterNone(buf0, rs);
    var c, n := Captured(None, None), 0;
    while n < ATTEMPTS
      invariant n <= ATTEMPTS && c.offered.None? && k <= |rs|
      invariant usb.incoming == rs[k..] && buf[..] == After(buf0, rs[..k])
      invariant OfferPhase(Transfers(buf0, rs), ATTEMPTS, Captured(None, None))
             == OfferPhase(Transfers(buf[..], usb.incoming), ATTEMPTS - n, c)
    {
      n := n + 1;
      if k < |rs| {
        NextTransfer(buf[..], usb.incoming);
      }
      var h := TryOffer(usb, buf, c);
      OneMore(buf0, rs, k, usb.incoming, buf[..]);
      k := if k < |rs| then k + 1 else k;
      match h {
        case Stops(why) => return Broken(why);
        case Goes(d) => c := d;
      }
      if c.offered.Some? {
        break;
      }
    }
    return Done(c, Transfers(buf[..], usb.incoming));
  }

  method AwaitAck(usb: UsbDevice, buf: array<byte>) returns (p: Phase<Option<Lease>>)
    requires buf.Length == RNDIS_BUF
    modifies usb`incoming, buf
    ensures p == AckPhase(Transfers(old(buf[..]), old(usb.incoming)), ATTEMPTS)
  {
    hide TransferOf, AckStep, Filled, Transfers;
    var n := 0;
    while n < ATTEMPTS
      invariant n <= ATTEMPTS
      invariant AckPhase(Transfers(old(buf[..]), old(usb.incoming)), ATTEMPTS)
             == AckPhase(Transfers(buf[..], usb.incoming), ATTEMPTS - n)
    {
      n := n + 1;
      if usb.incoming != [] {
        NextTransfer(buf[..], usb.incoming);
      }
      var h := TryAck(usb, buf);
      match h {
        case Stops(why) => return Broken(why);
        case Goes(l) =>
          if l.Some? {
            return Done(l, Transfers(buf[..], usb.incoming));
          }
      }
    }
    return Done(None, Transfers(buf[..], usb.incoming));
  }

  lemma AfterNone(buf: Buffer, rs: seq<Recv>)
    ensures rs[..0] == [] && rs[0..] == rs && After(buf, []) == buf
  {
  }

  function DiscoverUrb(mac: Mac): (u: seq<byte>)
    ensures |u| <= RNDIS_BUF
  {
    Rndis.DataPacket(M.Discover(mac, Xid()))
  }

  function RequestUrb(mac: Mac, ip: Quad, server: Quad): (u: seq<byte>)
    ensures |u| <= RNDIS_BUF
  {
    Rndis.DataPacket(M.Request(mac, Xid(), ip, server))
  }

  /** The receive buffer is the one the client's own packets are built in. */
  function Built(buf: Buffer, urb: seq<byte>): Buffer
    requires |urb| <= RNDIS_BUF
  {
    Splice(buf, 0, urb)
  }

  /** The transfers of the OFFER phase. */
  function OfferTransfers(mac: Mac, rs: seq<Recv>): (ts: seq<Transfer>)
    ensures |ts| == |rs|
  {
    Transfers(Built(Zeros(RNDIS_BUF), DiscoverUrb(mac)), rs)
  }

  /** Those of the ACK phase, after `used` receives and with the REQUEST `q` sent. */
  function AckTransfers(mac: Mac, rs: seq<Recv>, used: nat, q: seq<byte>): (ts: seq<Transfer>)
    requires used <= |rs| && |q| <= RNDIS_BUF
    ensures |ts| == |rs| - used
  {
    Transfers(Built(After(Built(Zeros(RNDIS_BUF), DiscoverUrb(mac)), rs[..used]), q), rs[used..])
  }

  /** The whole exchange: its outcome, and what it sent. */
  function Exchange(mac: Mac, rs: seq<Recv>, sends: seq<bool>): (Outcome, seq<seq<byte>>) {
    if sends != [] && !sends[0] then (Refused(Usb), [])
    else
      var d := DiscoverUrb(mac);
      match OfferPhase(OfferTransfers(mac, rs), ATTEMPTS, Captured(None, None))
      case Broken(o) => (o, [d])
      case Done(c, rest) =>
        if c.offered.None? then (Refused(NoOffer), [d])
        else if |sends| >= 2 && !sends[1] then (Refused(Usb), [d])
        else
          var q := RequestUrb(mac, c.offered.value, Or(c.server, [0, 0, 0, 0]));
          (AckOutcome(AckTransfers(mac, rs, |rs| - |rest|, q)), [d, q])
  }

  /** How the exchange ends, by what is received after the REQUEST. */
  function AckOutcome(ts: seq<Transfer>): Outcome {
    match AckPhase(ts, ATTEMPTS)
    case Broken(o) => o
    case Done(None, _) => Leased(Defaults())
    case Done(Some(l), _) => Leased(l)
  }

  /** Builds the DISCOVER, or the REQUEST, and its packet at the front of the receive buffer. */
  method PackDiscover(ethBuf: array<byte>, rndisBuf: array<byte>, mac: Mac) returns (urb: seq<byte>)
    requires ethBuf != rndisBuf && ethBuf.Length == ETH_BUF && rndisBuf.Length == RNDIS_BUF
    modifies ethBuf, rndisBuf
    ensures urb == DiscoverUrb(mac) && rndisBuf[..] == Built(old(rndisBuf[..]), urb)
  {
    hide Rndis.DataPacket, M.Discover;
    var len := M.BuildDiscover(ethBuf, mac, Xid());
    assert ethBuf[..len.value] == M.Discover(mac, Xid());
    var rlen := Rndis.BuildDataPacket(rndisBuf, ethBuf[..len.value]);
    urb := rndisBuf[..rlen.value];
    assert urb == DiscoverUrb(mac);
  }

  method PackRequest(ethBuf: array<byte>, rndisBuf: array<byte>, mac: Mac, ip: Quad, server: Quad)
    returns (urb: seq<byte>)
    requires ethBuf != rndisBuf && ethBuf.Length == ETH_BUF && rndisBuf.Length == RNDIS_BUF
    modifies ethBuf, rndisBuf
    ensures urb == RequestUrb(mac, ip, server) && rndisBuf[..] == Built(old(rndisBuf[..]), urb)
  {
    hide Rndis.DataPacket, M.Request;
    var len := M.BuildRequest(ethBuf, mac, Xid(), ip, server);
    assert ethBuf[..len.value] == M.Request(mac, Xid(), ip, server);
    var rlen := Rndis.BuildDataPacket(rndisBuf, ethBuf[..len.value]);
    urb := rndisBuf[..rlen.value];
    assert urb == RequestUrb(mac, ip, server);
  }

  /** `discover`. */
  method Discover(usb: UsbDevice, mac: Mac) returns (r: Outcome)
    modifies usb
    ensures r == Exchange(mac, old(usb.incoming), old(usb.sends)).0
    ensures usb.sent == old(usb.sent) + Exchange(mac, old(usb.incoming), old(usb.sends)).1
  {
    hide OfferPhase, AckPhase, DiscoverUrb, RequestUrb, Built, Transfers, After;
    var rndisBuf, ethBuf := new byte[RNDIS_BUF](_ => 0), new byte[ETH_BUF](_ => 0);
    assert rndisBuf[..] == Zeros(RNDIS_BUF);
    var urb := PackDiscover(ethBuf, rndisBuf, mac);
    var ok := usb.SendBulk(urb);
    if !ok {
      return Refused(Usb);
    }
    var offers := AwaitOffer(usb, rndisBuf);
    if offers.Broken? {
      return offers.outcome;
    }
    if offers.value.offered.None? {
      return Refused(NoOffer);
    }
    var ip, server := offers.value.offered.value, Or(offers.value.server, [0, 0, 0, 0]);
    urb := PackRequest(ethBuf, rndisBuf, mac, ip, server);
    ok := usb.SendBulk(urb);
    if !ok {
      return Refused(Usb);
    }
    var acks := AwaitAck(usb, rndisBuf);
    if acks.Broken? {
      return acks.outcome;
    }
    if acks.value.Some? {
      return Leased(acks.value.value);
    }
    return Leased(Defaults());
  }

  // ---- On the wire ----

  /** What is sent: each in one data packet, for transaction 0x12345678. */
  lemma SentOnWire(mac: Mac, ip: Quad, server: Quad)
    ensures DiscoverUrb(mac) == PacketBytes(M.Discover(mac, [0x12, 0x34, 0x56, 0x78]))
    ensures RequestUrb(mac, ip, server) == PacketBytes(M.Request(mac, [0x12, 0x34, 0x56, 0x78], ip, server))
  {
    hide Rndis.DataPacket, PacketBytes, M.Discover, M.Request;
    BuiltOnWire(M.Discover(mac, Xid()));
    BuiltOnWire(M.Request(mac, Xid(), ip, server));
  }

  /** The lease, field by field: from the last option of its code that is long enough, or a default. */
  lemma LeaseFields(y: Quad, os: seq<O.Opt>, j: nat)
    ensures var l := LeaseFrom(y, os);
            && l.ip == y
            && (O.IsLast(os, 3, 4, j) ==> l.gateway == os[j].data[0..4])
            && (O.NoneOf(os, 3, 4) ==> l.gateway == [192, 168, 42, 129])
            && (O.IsLast(os, 1, 4, j) ==> l.netmask == os[j].data[0..4])
            && (O.NoneOf(os, 1, 4) ==> l.netmask == [255, 255, 255, 0])
            && (O.IsLast(os, 6, 4, j) ==> l.dns1 == os[j].data[0..4])
            && (O.NoneOf(os, 6, 4) ==> l.dns1 == [8, 8, 8, 8])
            && (O.IsLast(os, 6, 8, j) ==> l.dns2 == os[j].data[4..8])
            && (O.NoneOf(os, 6, 8) ==> l.dns2 == [8, 8, 4, 4])
  {
    hide O.Last;
    if O.IsLast(os, 3, 4, j) { O.LastIs(os, 3, 0, 4, j); }
    if O.NoneOf(os, 3, 4) { O.LastNone(os, 3, 0, 4); }
    if O.IsLast(os, 1, 4, j) { O.LastIs(os, 1, 0, 4, j); }
    if O.NoneOf(os, 1, 4) { O.LastNone(os, 1, 0, 4); }
    if O.IsLast(os, 6, 4, j) { O.LastIs(os, 6, 0, 4, j); }
    if O.NoneOf(os, 6, 4) { O.LastNone(os, 6, 0, 4); }
    if O.IsLast(os, 6, 8, j) { O.LastIs(os, 6, 4, 8, j); }
    if O.NoneOf(os, 6, 8) { O.LastNone(os, 6, 4, 8); }
  }

  /** The defaults taken without an ACK. */
  lemma DefaultFields()
    ensures Defaults() ==
            Lease([192, 168, 42, 100], [192, 168, 42, 129], [255, 255, 255, 0], [8, 8, 8, 8], [8, 8, 4, 4])
  {
  }
}
