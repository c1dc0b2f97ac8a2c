/** Building the client's DISCOVER and REQUEST frames in place (src/dhcp.rs). The message layout is
    RFC 2131 section 2, the IP header RFC 791 section 3.1. */
module DhcpMessage {
  import opened Bytes
  import opened Wrappers
  import opened Frame
  import opened Checksum
  import Arp
  import O = DhcpOptions

  const SIZE := 314
  const STRUCT_END := 594
  const OPTS := 282

  /** The 20-byte IP header before its checksum is stored: 300 bytes, UDP, to broadcast. */
  function BareIp(): (h: seq<byte>)
    ensures |h| == 20 && Word(h, 5) == 0
  {
    [0x45, 0, 1, 44, 0, 0, 0, 0, 64, 0x11, 0, 0, 0, 0, 0, 0, 255, 255, 255, 255]
  }

  function IpHeader(): (h: seq<byte>)
    ensures |h| == 20
  {
    SetWord(BareIp(), 5, Rfc1071(BareIp()))
  }

  /** Port 68 to port 67, 280 bytes, no checksum. */
  function UdpHeader(): seq<byte> {
    [0, 68, 0, 67, 1, 24, 0, 0]
  }

  function Cookie(): Quad {
    [0x63, 0x82, 0x53, 0x63]
  }

  /** The fixed part of a client message, broadcast flag set. */
  function Bootp(mac: Mac, xid: Quad): (b: seq<byte>)
    ensures |b| == 240
  {
    [1, 1, 6, 0] + xid + [0, 0, 0x80, 0] + Zeros(16) + mac + Zeros(10) + Zeros(192) + Cookie()
  }

  /** A client frame around its option bytes. */
  function ClientFrame(mac: Mac, xid: Quad, opts: seq<byte>): (f: seq<byte>)
    ensures |f| == OPTS + |opts|
  {
    Arp.EthHeader([255, 255, 255, 255, 255, 255], mac, IPV4) + IpHeader() + UdpHeader() + Bootp(mac, xid) + opts
  }

  function DiscoverOpts(): (o: seq<byte>)
    ensures |o| == 9
  {
    [53, 1, 1, 55, 3, 1, 3, 6, 0xFF]
  }

  function RequestOpts(ip: Quad, server: Quad): (o: seq<byte>)
    ensures |o| == 21
  {
    [53, 1, 3, 50, 4] + ip + [54, 4] + server + [55, 3, 1, 3, 6, 0xFF]
  }

  function Discover(mac: Mac, xid: Quad): (f: seq<byte>)
    ensures |f| == SIZE
  {
    ClientFrame(mac, xid, DiscoverOpts() + Zeros(23))
  }

  function Request(mac: Mac, xid: Quad, ip: Quad, server: Quad): (f: seq<byte>)
    ensures |f| == SIZE
  {
    ClientFrame(mac, xid, RequestOpts(ip, server) + Zeros(11))
  }

  lemma SpliceInside(pre: seq<byte>, mid: seq<byte>, post: seq<byte>, at: nat, t: seq<byte>)
    requires at + |t| <= |mid|
    ensures Splice(pre + mid + post, |pre| + at, t) == pre + Splice(mid, at, t) + post
  {
    assert (pre + mid + post)[..|pre| + at] == pre + mid[..at];
    assert (pre + mid + post)[|pre| + at + |t|..] == mid[at + |t|..] + post;
  }

  /** Writes into the part `mid` of a buffer laid out as `pre + mid + post`. */
  method WriteInside(buf: array<byte>, ghost pre: seq<byte>, ghost mid: seq<byte>, ghost post: seq<byte>,
                     at: nat, t: seq<byte>)
    requires buf[..] == pre + mid + post
    requires |pre| <= at && at + |t| <= |pre| + |mid|
    modifies buf
    ensures buf[..] == pre + Splice(mid, at - |pre|, t) + post
  {
    SpliceInside(pre, mid, post, at - |pre|, t);
    Write(buf, at, t);
  }

  /** The IP header fields, into 20 zero bytes. */
  method WriteIp(buf: array<byte>, ghost pre: seq<byte>, ghost post: seq<byte>)
    requires buf[..] == pre + Zeros(20) + post && |pre| == ETH_HDR
    modifies buf
    ensures buf[..] == pre + BareIp() + post
  {
    ghost var m1: seq<byte> := [0x45] + Zeros(19);
    ghost var m2: seq<byte> := [0x45] + Zeros(7) + [64, 0x11] + Zeros(10);
    ghost var m3: seq<byte> := [0x45, 0, 1, 44, 0, 0, 0, 0, 64, 0x11] + Zeros(10);
    WriteInside(buf, pre, Zeros(20), post, ETH_HDR, [0x45]);
    assert Splice(Zeros(20), 0, [0x45]) == m1;
    WriteInside(buf, pre, m1, post, ETH_HDR + 8, [64, 0x11]);
    assert Splice(m1, 8, [64, 0x11]) == m2;
    WriteInside(buf, pre, m2, post, ETH_HDR + 2, [300 / 256, 300 % 256]);
    assert Splice(m2, 2, [1, 44]) == m3;
    WriteInside(buf, pre, m3, post, ETH_HDR + 16, [0xFF, 0xFF, 0xFF, 0xFF]);
    assert Splice(m3, 16, [0xFF, 0xFF, 0xFF, 0xFF]) == BareIp();
  }

  /** The UDP header fields, into 8 zero bytes. */
  method WriteUdp(buf: array<byte>, ghost pre: seq<byte>, ghost post: seq<byte>)
    requires buf[..] == pre + Zeros(8) + post && |pre| == ETH_HDR + 20
    modifies buf
    ensures buf[..] == pre + UdpHeader() + post
  {
    WriteInside(buf, pre, Zeros(8), post, ETH_HDR + 20, [0, 68, 0, 67]);
    ghost var m := Splice(Zeros(8), 0, [0, 68, 0, 67]);
    WriteInside(buf, pre, m, post, ETH_HDR + 24, [280 / 256, 280 % 256]);
    assert Splice(m, 4, [280 / 256, 280 % 256]) == UdpHeader();
  }

  /** The checksum loop's result, stored at bytes 10 and 11 of the IP header. */
  method StoreChecksum(buf: array<byte>, ghost pre: seq<byte>, ghost post: seq<byte>)
    requires buf[..] == pre + BareIp() + post && |pre| == ETH_HDR
    modifies buf
    ensures buf[..] == pre + IpHeader() + post
  {
    assert buf[ETH_HDR..ETH_HDR + 20] == buf[..][ETH_HDR..ETH_HDR + 20] == BareIp();
    var sum := DhcpChecksum(buf[ETH_HDR..ETH_HDR + 20]);
    assert Whole(BareIp()) == BareIp();
    WriteInside(buf, pre, BareIp(), post, ETH_HDR + 10, [sum / 256, sum % 256]);
    assert Splice(BareIp(), 10, [sum / 256, sum % 256]) == IpHeader();
  }

  method Fill(buf: array<byte>)
    modifies buf
    ensures buf[..] == Zeros(buf.Length)
  {
    forall k | 0 <= k < buf.Length {
      buf[k] := 0;
    }
  }

  /** Everything before the message, into a zeroed buffer. */
  method WriteHeaders(buf: array<byte>, mac: Mac)
    requires STRUCT_END <= buf.Length && buf[..] == Zeros(buf.Length)
    modifies buf
    ensures buf[..] == Arp.EthHeader([255, 255, 255, 255, 255, 255], mac, IPV4) + BareIp() + UdpHeader()
                       + Zeros(552) + Zeros(buf.Length - STRUCT_END)
  {
    hide Arp.EthHeader, BareIp, UdpHeader, Splice, Zeros;
    ghost var n := buf.Length;
    var eth := Arp.EthHeader([255, 255, 255, 255, 255, 255], mac, IPV4);
    Layout(n);
    ghost var rest2 := Zeros(552) + Zeros(n - STRUCT_END);
    ghost var rest1 := Zeros(8) + rest2;
    WriteInside(buf, [], Zeros(ETH_HDR), Zeros(20) + rest1, 0, eth);
    WholeSplice(Zeros(ETH_HDR), eth);
    Regroup([], eth, Zeros(20), rest1);
    WriteIp(buf, [] + eth, rest1);
    Regroup([] + eth, BareIp(), Zeros(8), rest2);
    WriteUdp(buf, [] + eth + BareIp(), rest2);
    Regroup([] + eth + BareIp(), UdpHeader(), Zeros(552), Zeros(n - STRUCT_END));
    assert [] + eth == eth;
  }

  /** The packed message, then its options over the start of its zeroed option area. */
  method WriteMessage(buf: array<byte>, ghost pre: seq<byte>, mac: Mac, xid: Quad)
    requires STRUCT_END <= buf.Length && |pre| == 42
    requires buf[..] == pre + Zeros(552) + Zeros(buf.Length - STRUCT_END)
    modifies buf
    ensures buf[..] == (pre + Bootp(mac, xid)) + DiscoverOpts() + Zeros(buf.Length - OPTS - 9)
  {
    hide Bootp, Splice, Zeros;
    ghost var n := buf.Length;
    var dhcp := Bootp(mac, xid) + Zeros(312);
    WriteInside(buf, pre, Zeros(552), Zeros(n - STRUCT_END), 42, dhcp);
    WholeSplice(Zeros(552), dhcp);
    Options(pre, Bootp(mac, xid), n);
    WriteInside(buf, pre + Bootp(mac, xid), Zeros(9), Zeros(n - OPTS - 9), OPTS, DiscoverOpts());
    WholeSplice(Zeros(9), DiscoverOpts());
  }

  /** `build_discover`. It checks for 314 bytes, but writes a packed 552-byte message at offset 42; what
      that does to a buffer that ends in between is left open. */
  method BuildDiscover(buf: array<byte>, mac: Mac, xid: Quad) returns (r: Result<nat>)
    modifies buf
    ensures buf.Length < 314 ==> r == Err(BufferTooSmall(314, buf.Length)) && buf[..] == old(buf[..])
    ensures 314 <= buf.Length < 594 ==> r == Err(PastEnd(594, buf.Length))
    ensures 594 <= buf.Length ==> r == Ok(314) && buf[..] == Discover(mac, xid) + Zeros(buf.Length - SIZE)
  {
    hide Arp.EthHeader, Bootp, BareIp, IpHeader, UdpHeader, Splice, Zeros, Discover, DiscoverOpts;
    if buf.Length < SIZE {
      return Err(BufferTooSmall(SIZE, buf.Length));
    }
    Fill(buf);
    if buf.Length < STRUCT_END {
      return Err(PastEnd(STRUCT_END, buf.Length));
    }
    WriteHeaders(buf, mac);
    ghost var eth := Arp.EthHeader([255, 255, 255, 255, 255, 255], mac, IPV4);
    WriteMessage(buf, eth + BareIp() + UdpHeader(), mac, xid);
    ghost var rest := DiscoverOpts() + Zeros(buf.Length - OPTS - 9);
    Flatten(eth, BareIp(), UdpHeader(), Bootp(mac, xid), DiscoverOpts(), Zeros(buf.Length - OPTS - 9));
    StoreChecksum(buf, eth, UdpHeader() + Bootp(mac, xid) + rest);
    DiscoverLayout(mac, xid, buf.Length);
    return Ok(SIZE);
  }

  lemma Flatten(a: seq<byte>, b: seq<byte>, c: seq<byte>, d: seq<byte>, e: seq<byte>, f: seq<byte>)
    ensures (a + b + c + d) + e + f == a + b + (c + d + (e + f))
  {
    assert (a + b + c + d) + e + f == (a + b) + (c + d) + (e + f);
  }

  lemma DiscoverLayout(mac: Mac, xid: Quad, n: nat)
    requires n >= SIZE
    ensures Arp.EthHeader([255, 255, 255, 255, 255, 255], mac, IPV4) + IpHeader()
            + (UdpHeader() + Bootp(mac, xid) + (DiscoverOpts() + Zeros(n - OPTS - 9)))
         == Discover(mac, xid) + Zeros(n - SIZE)
  {
    hide Arp.EthHeader, Bootp, IpHeader, UdpHeader, DiscoverOpts;
    var a := Arp.EthHeader([255, 255, 255, 255, 255, 255], mac, IPV4) + IpHeader();
    var b := UdpHeader() + Bootp(mac, xid);
    assert Zeros(n - OPTS - 9) == Zeros(23) + Zeros(n - SIZE);
    assert DiscoverOpts() + (Zeros(23) + Zeros(n - SIZE)) == (DiscoverOpts() + Zeros(23)) + Zeros(n - SIZE);
    Regroup(a, b, DiscoverOpts() + Zeros(23), Zeros(n - SIZE));
    assert a + (b + (DiscoverOpts() + Zeros(23) + Zeros(n - SIZE)))
        == a + b + (DiscoverOpts() + Zeros(23)) + Zeros(n - SIZE);
    assert a + b == a + UdpHeader() + Bootp(mac, xid);
  }

  lemma Layout(n: nat)
    requires n >= STRUCT_END
    ensures Zeros(n) == [] + Zeros(ETH_HDR) + (Zeros(20) + (Zeros(8) + (Zeros(552) + Zeros(n - STRUCT_END))))
  {
  }

  lemma WholeSplice(old': seq<byte>, t: seq<byte>)
    requires |old'| == |t|
    ensures Splice(old', 0, t) == t
  {
  }

  lemma Regroup(a: seq<byte>, b: seq<byte>, c: seq<byte>, d: seq<byte>)
    ensures a + b + (c + d) == (a + b) + c + d
  {
  }

  lemma Options(pre: seq<byte>, bootp: seq<byte>, n: nat)
    requires n >= STRUCT_END
    ensures pre + (bootp + Zeros(312)) + Zeros(n - STRUCT_END) == (pre + bootp) + Zeros(9) + Zeros(n - OPTS - 9)
  {
    assert Zeros(312) + Zeros(n - STRUCT_END) == Zeros(9) + Zeros(n - OPTS - 9);
    assert pre + (bootp + Zeros(312)) + Zeros(n - STRUCT_END)
        == (pre + bootp) + (Zeros(312) + Zeros(n - STRUCT_END));
  }

  /** `build_request`: a DISCOVER with its options overwritten. */
  method BuildRequest(buf: array<byte>, mac: Mac, xid: Quad, ip: Quad, server: Quad) returns (r: Result<nat>)
    modifies buf
    ensures buf.Length < 314 ==> r == Err(BufferTooSmall(314, buf.Length)) && buf[..] == old(buf[..])
    ensures 314 <= buf.Length < 594 ==> r == Err(PastEnd(594, buf.Length))
    ensures 594 <= buf.Length ==>
              r == Ok(314) && buf[..] == Request(mac, xid, ip, server) + Zeros(buf.Length - SIZE)
  {
    hide ClientFrame, RequestOpts, DiscoverOpts, Splice, Zeros;
    r := BuildDiscover(buf, mac, xid);
    if r.Err? {
      return;
    }
    ghost var head := ClientFrame(mac, xid, []);
    ghost var n := buf.Length;
    ClientLayout(mac, xid, DiscoverOpts() + Zeros(23), Zeros(n - SIZE));
    SplitOpts(head, n);
    WriteInside(buf, head, DiscoverOpts() + Zeros(12), Zeros(11) + Zeros(n - SIZE), OPTS, RequestOpts(ip, server));
    WholeSplice(DiscoverOpts() + Zeros(12), RequestOpts(ip, server));
    Regroup(head, RequestOpts(ip, server), Zeros(11), Zeros(n - SIZE));
    ClientLayout(mac, xid, RequestOpts(ip, server) + Zeros(11), Zeros(n - SIZE));
    assert head + RequestOpts(ip, server) + Zeros(11) == head + (RequestOpts(ip, server) + Zeros(11));
  }

  lemma ClientLayout(mac: Mac, xid: Quad, opts: seq<byte>, pad: seq<byte>)
    ensures ClientFrame(mac, xid, opts) + pad == ClientFrame(mac, xid, []) + opts + pad
  {
    hide Arp.EthHeader, Bootp, IpHeader, UdpHeader;
  }

  lemma SplitOpts(head: seq<byte>, n: nat)
    requires n >= SIZE
    ensures head + (DiscoverOpts() + Zeros(23)) + Zeros(n - SIZE)
         == head + (DiscoverOpts() + Zeros(12)) + (Zeros(11) + Zeros(n - SIZE))
  {
    hide DiscoverOpts;
    assert Zeros(23) == Zeros(12) + Zeros(11);
  }

  /** Both frames carry a verifying IP header. */
  lemma HeaderVerifies(mac: Mac, xid: Quad, opts: seq<byte>)
    ensures Rfc1071(ClientFrame(mac, xid, opts)[ETH_HDR..ETH_HDR + 20]) == 0
  {
    hide Rfc1071, Bootp;
    assert ClientFrame(mac, xid, opts)[ETH_HDR..ETH_HDR + 20] == IpHeader();
    StoreVerifies(BareIp(), 5);
  }

  /** The other fixed fields: exact IP and UDP lengths, client port to server port, to broadcast, our
      hardware address and transaction. */
  lemma FrameFields(mac: Mac, xid: Quad, opts: seq<byte>)
    requires |opts| == 32
    ensures var f := ClientFrame(mac, xid, opts);
            && ReadBe16(f, 16) == |f| - ETH_HDR && ReadBe16(f, 38) == |f| - ETH_HDR - 20
            && ReadBe16(f, 34) == 68 && ReadBe16(f, 36) == 67
            && f[0..6] == f[30..34] + [255, 255] && f[6..12] == f[70..76] == mac && f[46..50] == xid
            && f[278..282] == Cookie()
  {
    var f := ClientFrame(mac, xid, opts);
    var eth := Arp.EthHeader([255, 255, 255, 255, 255, 255], mac, IPV4);
    assert eth[0..6] == [255, 255, 255, 255, 255, 255] && eth[6..12] == mac;
    IpFields();
    var ip := IpHeader();
    hide Rfc1071, Arp.EthHeader, IpHeader;
    FourParts(eth, ip, UdpHeader(), Bootp(mac, xid) + opts);
    assert f == eth + ip + UdpHeader() + (Bootp(mac, xid) + opts);
    assert f[0..6] == f[..14][0..6] && f[6..12] == f[..14][6..12];
    assert f[16] == f[14..34][2] && f[17] == f[14..34][3];
    SubSlice(f, 14, 34, 16, 20);
    assert f[34] == f[34..42][0] && f[35] == f[34..42][1] && f[36] == f[34..42][2] && f[37] == f[34..42][3];
    assert f[38] == f[34..42][4] && f[39] == f[34..42][5];
    BootpFields(mac, xid, opts);
    hide Bootp;
    SubSlice(f, 42, |f|, 4, 8);
    SubSlice(f, 42, |f|, 28, 34);
    SubSlice(f, 42, |f|, 236, 240);
    assert f[42..|f|] == Bootp(mac, xid) + opts;
  }

  lemma IpFields()
    ensures IpHeader()[2] == 1 && IpHeader()[3] == 44 && IpHeader()[16..20] == [255, 255, 255, 255]
  {
    hide Rfc1071;
  }

  lemma BootpFields(mac: Mac, xid: Quad, opts: seq<byte>)
    ensures var b := Bootp(mac, xid) + opts;
            b[4..8] == xid && b[28..34] == mac && b[236..240] == Cookie()
  {
  }

  /** A server scanning the REQUEST reads message type 3, the requested address, the server's address
      and the parameter list, and nothing else. */
  lemma RequestReadsBack(mac: Mac, xid: Quad, ip: Quad, server: Quad)
    ensures var os := O.Options(Request(mac, xid, ip, server)[OPTS..]);
            && os == [O.Opt(53, [3]), O.Opt(50, ip), O.Opt(54, server), O.Opt(55, [1, 3, 6])]
            && O.MsgType(os) == 3 && O.Last(os, O.SERVER_ID, 0, 4) == Some(server)
  {
    hide Rfc1071, RequestOpts, O.Encode, O.Entries, O.Items, O.Rest, O.Last;
    var os := [O.Opt(53, [3]), O.Opt(50, ip), O.Opt(54, server), O.Opt(55, [1, 3, 6])];
    O.EncodeNil();
    var xs := AddEntry(os[3], []);
    xs := AddEntry(os[2], xs);
    xs := AddEntry(os[1], xs);
    xs := AddEntry(os[0], xs);
    assert O.Entries(xs) == os;
    var tail := [0xFF as byte] + Zeros(11);
    assert Request(mac, xid, ip, server)[OPTS..] == RequestOpts(ip, server) + Zeros(11);
    RequestBytes(ip, server);
    assert RequestOpts(ip, server) + Zeros(11) == O.Encode(xs) + tail;
    O.ReadsBack(xs, tail);
    O.LastIs(os, O.MSG_TYPE, 0, 1, 0);
    O.LastIs(os, O.SERVER_ID, 0, 4, 2);
    assert server[0..4] == server;
  }

  lemma RequestBytes(ip: Quad, server: Quad)
    ensures RequestOpts(ip, server) ==
            ([53, 1] + [3] + ([50, 4] + ip + ([54, 4] + server + ([55, 3] + [1, 3, 6] + [])))) + [0xFF]
  {
  }

  lemma AddEntry(o: O.Opt, xs: seq<O.Item>) returns (ys: seq<O.Item>)
    requires O.ValidItem(O.Entry(o)) && forall x :: x in xs ==> O.ValidItem(x)
    ensures (forall y :: y in ys ==> O.ValidItem(y)) && O.Entries(ys) == [o] + O.Entries(xs)
    ensures O.Encode(ys) == [o.code, |o.data|] + o.data + O.Encode(xs)
  {
    ys := [O.Entry(o)] + xs;
    O.EncodeCons(O.Entry(o), xs);
    assert ys[1..] == xs;
  }

  // ---- On the wire ----

  /** The checksum of the one IP header both frames have. */
  lemma HeaderSum()
    ensures Rfc1071(BareIp()) == 0x79C2
  {
    hide WordSum, OnesSum, Residue;
    WordSumEmpty();
    var s2, n2 := AddWord([], 0, 0x45, 0);
    var s4, n4 := AddWord(s2, n2, 1, 44);
    var s6, n6 := AddWord(s4, n4, 0, 0);
    var s8, n8 := AddWord(s6, n6, 0, 0);
    var s10, n10 := AddWord(s8, n8, 64, 0x11);
    var s12, n12 := AddWord(s10, n10, 0, 0);
    var s14, n14 := AddWord(s12, n12, 0, 0);
    var s16, n16 := AddWord(s14, n14, 0, 0);
    var s18, n18 := AddWord(s16, n16, 255, 255);
    var s, n := AddWord(s18, n18, 255, 255);
    assert s == BareIp();
    OnesSumIsResidue(s);
    ResidueShift(0x863D, 2);
    FoldedResidue(0x863D);
  }

  /** A client frame, byte by byte. */
  lemma ClientOnWire(mac: Mac, xid: Quad, opts: seq<byte>)
    ensures ClientFrame(mac, xid, opts) ==
            [255, 255, 255, 255, 255, 255] + mac + [8, 0]
            + [0x45, 0, 1, 44, 0, 0, 0, 0, 64, 17, 0x79, 0xC2, 0, 0, 0, 0, 255, 255, 255, 255]
            + [0, 68, 0, 67, 1, 24, 0, 0]
            + ([1, 1, 6, 0] + xid + [0, 0, 128, 0] + Zeros(16) + mac + Zeros(10) + Zeros(192) + [0x63, 0x82, 0x53, 0x63])
            + opts
  {
    HeaderSum();
    hide Rfc1071;
    assert IpHeader() == [0x45, 0, 1, 44, 0, 0, 0, 0, 64, 17, 0x79, 0xC2, 0, 0, 0, 0, 255, 255, 255, 255];
    hide IpHeader, Zeros;
  }

  /** The options of the DISCOVER: type 1 and the parameter list; and of the REQUEST: type 3, the address,
      the server and the parameter list; each closed by END and filled up with zeros. */
  lemma OptionsSent(mac: Mac, xid: Quad, ip: Quad, server: Quad)
    ensures Discover(mac, xid) == ClientFrame(mac, xid, [53, 1, 1, 55, 3, 1, 3, 6, 255] + Zeros(23))
    ensures Request(mac, xid, ip, server) ==
            ClientFrame(mac, xid, [53, 1, 3, 50, 4] + ip + [54, 4] + server + [55, 3, 1, 3, 6, 255] + Zeros(11))
  {
    hide ClientFrame, Zeros;
  }

  /** A server scanning the DISCOVER reads message type 1 and the parameter list, and nothing else. */
  lemma DiscoverReadsBack(mac: Mac, xid: Quad)
    ensures var os := O.Options(Discover(mac, xid)[282..]);
            os == [O.Opt(53, [1]), O.Opt(55, [1, 3, 6])] && O.MsgType(os) == 1
  {
    hide Rfc1071, DiscoverOpts, O.Encode, O.Entries, O.Items, O.Rest, O.Last;
    var os := [O.Opt(53, [1]), O.Opt(55, [1, 3, 6])];
    O.EncodeNil();
    var xs := AddEntry(os[1], []);
    xs := AddEntry(os[0], xs);
    assert O.Entries(xs) == os;
    var tail := [0xFF as byte] + Zeros(23);
    assert Discover(mac, xid)[282..] == DiscoverOpts() + Zeros(23);
    DiscoverBytes();
    assert DiscoverOpts() + Zeros(23) == O.Encode(xs) + tail;
    O.ReadsBack(xs, tail);
    O.LastIs(os, O.MSG_TYPE, 0, 1, 0);
  }

  lemma DiscoverBytes()
    ensures DiscoverOpts() == ([53, 1] + [1] + ([55, 3] + [1, 3, 6] + [])) + [0xFF]
  {
  }
}
