/** The three option scanners of the DHCP client (src/dhcp.rs), against the meaning of the option
    format of RFC 2132 section 2. */
module DhcpOptions {
  import opened Bytes
  import opened Wrappers

  const PAD := 0
  const END := 255
  const NETMASK := 1
  const ROUTER := 3
  const DNS := 6
  const MSG_TYPE := 53
  const SERVER_ID := 54

  // ---- The format ----

  datatype Opt = Opt(code: byte, data: seq<byte>)

  datatype Item = Pad | Entry(opt: Opt)

  predicate ValidItem(i: Item) {
    i.Entry? ==> i.opt.code != PAD && i.opt.code != END && |i.opt.data| < 256
  }

  function ItemBytes(i: Item): seq<byte>
    requires ValidItem(i)
  {
    match i
    case Pad => [PAD]
    case Entry(o) => [o.code, |o.data|] + o.data
  }

  function Encode(xs: seq<Item>): seq<byte>
    requires forall i :: i in xs ==> ValidItem(i)
  {
    if xs == [] then [] else ItemBytes(xs[0]) + Encode(xs[1..])
  }

  function Entries(xs: seq<Item>): seq<Opt> {
    if xs == [] then []
    else (if xs[0].Entry? then [xs[0].opt] else []) + Entries(xs[1..])
  }

  // ---- The meaning of a byte string ----

  /** Nothing more can be read: the end, an END option, or an entry cut short. */
  predicate Stuck(s: seq<byte>) {
    s == [] || s[0] == END || (s[0] != PAD && (|s| < 2 || |s| < 2 + U8(s, 1)))
  }

  /** How many bytes the first item takes. */
  function Width(s: seq<byte>): (n: nat)
    requires !Stuck(s)
    ensures 0 < n <= |s|
  {
    if s[0] == PAD then 1 else 2 + U8(s, 1)
  }

  function First(s: seq<byte>): (i: Item)
    requires !Stuck(s)
    ensures ValidItem(i)
  {
    if s[0] == PAD then Pad else Entry(Opt(s[0], s[2..Width(s)]))
  }

  /** The items of the longest well-formed prefix. */
  function Items(s: seq<byte>): (xs: seq<Item>)
    ensures forall i :: i in xs ==> ValidItem(i)
  {
    if Stuck(s) then [] else [First(s)] + Items(s[Width(s)..])
  }

  /** What is left behind it. */
  function Rest(s: seq<byte>): (r: seq<byte>)
    ensures Stuck(r)
  {
    if Stuck(s) then s else Rest(s[Width(s)..])
  }

  function Options(s: seq<byte>): seq<Opt> {
    Entries(Items(s))
  }

  lemma EncodeCons(x: Item, xs: seq<Item>)
    requires ValidItem(x) && forall i :: i in xs ==> ValidItem(i)
    ensures Encode([x] + xs) == ItemBytes(x) + Encode(xs)
  {
    assert ([x] + xs)[1..] == xs;
  }

  lemma FirstBytes(s: seq<byte>)
    requires !Stuck(s)
    ensures s == ItemBytes(First(s)) + s[Width(s)..]
  {
    assert s == s[..Width(s)] + s[Width(s)..];
    assert s[0] != PAD ==> s[..Width(s)] == [s[0], s[1]] + s[2..Width(s)];
  }

  /** Every byte string is its items, encoded, then the rest. */
  lemma {:induction false} Decomposition(s: seq<byte>)
    ensures s == Encode(Items(s)) + Rest(s)
  {
    hide Encode, ItemBytes, First, Width;
    if !Stuck(s) {
      hide Stuck;
      var t := s[Width(s)..];
      Decomposition(t);
      FirstBytes(s);
      EncodeCons(First(s), Items(t));
    } else {
      EncodeNil();
    }
  }

  lemma EncodeNil()
    ensures Encode([]) == [] && Entries([]) == []
  {
  }

  lemma FirstBack(x: Item, more: seq<byte>)
    requires ValidItem(x)
    ensures Items(ItemBytes(x) + more) == [x] + Items(more)
    ensures Rest(ItemBytes(x) + more) == Rest(more)
  {
    var b := ItemBytes(x);
    var s := b + more;
    assert s[0] == b[0];
    if x.Entry? {
      assert s[1] == b[1];
      assert s[2..|b|] == x.opt.data;
    }
    assert !Stuck(s) && Width(s) == |b| && First(s) == x && s[|b|..] == more;
  }

  /** Any list of pads and options is read back, whatever follows it. */
  lemma {:induction false} Recomposition(xs: seq<Item>, tail: seq<byte>)
    requires forall i :: i in xs ==> ValidItem(i)
    ensures Items(Encode(xs) + tail) == xs + Items(tail)
    ensures Rest(Encode(xs) + tail) == Rest(tail)
  {
    hide ItemBytes, Items, Rest;
    if xs == [] {
      assert Encode(xs) + tail == tail;
    } else {
      var more := Encode(xs[1..]) + tail;
      Recomposition(xs[1..], tail);
      FirstBack(xs[0], more);
      assert Encode(xs) + tail == ItemBytes(xs[0]) + more;
      assert xs == [xs[0]] + xs[1..];
    }
  }

  /** So the options read are the options written, up to an END or an entry cut short. */
  lemma ReadsBack(xs: seq<Item>, tail: seq<byte>)
    requires (forall i :: i in xs ==> ValidItem(i)) && Stuck(tail)
    ensures Options(Encode(xs) + tail) == Entries(xs) && Rest(Encode(xs) + tail) == tail
  {
    Recomposition(xs, tail);
    assert xs + [] == xs;
  }

  /** The bytes `lo..hi` of the last option of a code that is at least `hi` long. */
  function Last(os: seq<Opt>, code: byte, lo: nat, hi: nat): (v: Option<seq<byte>>)
    requires lo <= hi
    ensures v.Some? ==> |v.value| == hi - lo
  {
    if os == [] then None
    else
      var o := os[|os| - 1];
      if o.code == code && |o.data| >= hi then Some(o.data[lo..hi]) else Last(os[..|os| - 1], code, lo, hi)
  }

  /** `Last` names the last option that qualifies... */
  lemma {:induction false} LastIs(os: seq<Opt>, code: byte, lo: nat, hi: nat, j: nat)
    requires lo <= hi && j < |os| && os[j].code == code && |os[j].data| >= hi
    requires forall k :: j < k < |os| ==> os[k].code != code || |os[k].data| < hi
    ensures Last(os, code, lo, hi) == Some(os[j].data[lo..hi])
  {
    if j < |os| - 1 {
      LastIs(os[..|os| - 1], code, lo, hi, j);
    }
  }

  /** ...and nothing when none does. */
  lemma {:induction false} LastNone(os: seq<Opt>, code: byte, lo: nat, hi: nat)
    requires lo <= hi
    requires forall k :: 0 <= k < |os| ==> os[k].code != code || |os[k].data| < hi
    ensures Last(os, code, lo, hi) == None
  {
    if os != [] {
      LastNone(os[..|os| - 1], code, lo, hi);
    }
  }

  lemma LastAppend(os: seq<Opt>, o: Opt, code: byte, lo: nat, hi: nat)
    requires lo <= hi
    ensures Last(os + [o], code, lo, hi) ==
            if o.code == code && |o.data| >= hi then Some(o.data[lo..hi]) else Last(os, code, lo, hi)
  {
    assert (os + [o])[..|os|] == os;
  }

  /** The message type, 0 if there is none. */
  function MsgType(os: seq<Opt>): byte {
    match Last(os, MSG_TYPE, 0, 1)
    case None => 0
    case Some(v) => v[0]
  }

  // ---- The scanners ----

  lemma StuckOptions(s: seq<byte>)
    requires Stuck(s)
    ensures Options(s) == [] && Rest(s) == s
  {
  }

  /** The entry at position `i`. */
  function OptAt(s: seq<byte>, i: nat): Opt
    requires i + 2 <= |s| && i + 2 + U8(s, i + 1) <= |s|
  {
    Opt(s[i], s[i + 2..i + 2 + U8(s, i + 1)])
  }

  /** The meaning at a cursor position, case by case as the loops look at it. */
  lemma AtCursor(s: seq<byte>, i: nat)
    requires i < |s|
    ensures s[i] == PAD ==> Options(s[i..]) == Options(s[i + 1..]) && Rest(s[i..]) == Rest(s[i + 1..])
    ensures s[i] == END || (s[i] != PAD && (i + 1 >= |s| || i + 2 + U8(s, i + 1) > |s|)) ==>
              Options(s[i..]) == [] && Rest(s[i..]) == s[i..]
    ensures s[i] != PAD && s[i] != END && i + 1 < |s| && i + 2 + U8(s, i + 1) <= |s| ==>
              var j := i + 2 + U8(s, i + 1);
              Options(s[i..]) == [OptAt(s, i)] + Options(s[j..]) && Rest(s[i..]) == Rest(s[j..])
  {
    var t := s[i..];
    if !Stuck(t) {
      var w := Width(t);
      assert t[w..] == s[i + w..];
      var more := Items(t[w..]);
      assert ([First(t)] + more)[1..] == more;
      if t[0] != PAD {
        assert t[2..w] == s[i + 2..i + w];
        assert First(t) == Entry(OptAt(s, i));
      } else {
        assert [] + Entries(more) == Entries(more);
      }
    }
  }

  /** `parse_dhcp_options`. */
  method ParseOptions(opts: seq<byte>)
    returns (gateway: Option<Quad>, netmask: Option<Quad>, dns1: Option<Quad>, dns2: Option<Quad>)
    ensures gateway == Last(Options(opts), 3, 0, 4)
    ensures netmask == Last(Options(opts), 1, 0, 4)
    ensures dns1 == Last(Options(opts), 6, 0, 4)
    ensures dns2 == Last(Options(opts), 6, 4, 8)
  {
    hide Options, Last, Rest;
    gateway, netmask, dns1, dns2 := None, None, None, None;
    ghost var seen: seq<Opt> := [];
    assert opts[0..] == opts;
    LastOfNone();
    var i := 0;
    while i < |opts|
      invariant 0 <= i <= |opts|
      invariant Options(opts) == seen + Options(opts[i..])
      invariant gateway == Last(seen, ROUTER, 0, 4) && netmask == Last(seen, NETMASK, 0, 4)
      invariant dns1 == Last(seen, DNS, 0, 4) && dns2 == Last(seen, DNS, 4, 8)
    {
      AtCursor(opts, i);
      if opts[i] == END {
        break;
      }
      if opts[i] == PAD {
        i := i + 1;
        continue;
      }
      if i + 1 >= |opts| {
        break;
      }
      var olen := U8(opts, i + 1);
      if i + 2 + olen > |opts| {
        break;
      }
      ghost var o := OptAt(opts, i);
      LastAppend(seen, o, ROUTER, 0, 4);
      LastAppend(seen, o, NETMASK, 0, 4);
      LastAppend(seen, o, DNS, 0, 4);
      LastAppend(seen, o, DNS, 4, 8);
      Fields(opts, i);
      if opts[i] == NETMASK && olen >= 4 {
        netmask := Some(opts[i + 2..i + 6]);
      } else if opts[i] == ROUTER && olen >= 4 {
        gateway := Some(opts[i + 2..i + 6]);
      } else if opts[i] == DNS && olen >= 4 {
        dns1 := Some(opts[i + 2..i + 6]);
        if olen >= 8 {
          dns2 := Some(opts[i + 6..i + 10]);
        }
      }
      seen := seen + [o];
      i := i + 2 + olen;
    }
    if i == |opts| {
      StuckOptions(opts[i..]);
    }
    assert Options(opts) == seen;
  }

  lemma LastOfNone()
    ensures forall c: byte, lo: nat, hi: nat :: lo <= hi ==> Last([], c, lo, hi) == None
  {
  }

  /** The first two words of an entry's data, seen from the whole buffer. */
  lemma Fields(s: seq<byte>, i: nat)
    requires i + 2 <= |s| && i + 2 + U8(s, i + 1) <= |s|
    ensures var d := OptAt(s, i).data;
            && (|d| >= 1 ==> d[0..1] == [s[i + 2]])
            && (|d| >= 4 ==> d[0..4] == s[i + 2..i + 6])
            && (|d| >= 8 ==> d[4..8] == s[i + 6..i + 10])
  {
    var n := U8(s, i + 1);
    if n >= 4 {
      SubSlice(s, i + 2, i + 2 + n, 0, 4);
    }
    if n >= 8 {
      SubSlice(s, i + 2, i + 2 + n, 4, 8);
    }
  }

  /** The ACK loop: the message type only, with the same checks. */
  method AckType(opts: seq<byte>) returns (msgType: byte)
    ensures msgType == MsgType(Options(opts))
  {
    hide Options, Last, Rest;
    msgType := 0;
    ghost var seen: seq<Opt> := [];
    assert opts[0..] == opts;
    LastOfNone();
    var end := |opts|;
    var i := 0;
    while i < |opts| && i < end
      invariant 0 <= i <= |opts| == end
      invariant Options(opts) == seen + Options(opts[i..])
      invariant msgType == MsgType(seen)
    {
      AtCursor(opts, i);
      if opts[i] == END {
        break;
      }
      if opts[i] == PAD {
        i := i + 1;
        continue;
      }
      if i + 1 >= |opts| || i + 1 >= end {
        break;
      }
      var olen := U8(opts, i + 1);
      if i + 2 + olen > |opts| || i + 2 + olen > end {
        break;
      }
      ghost var o := OptAt(opts, i);
      LastAppend(seen, o, MSG_TYPE, 0, 1);
      Fields(opts, i);
      if opts[i] == MSG_TYPE && olen >= 1 {
        msgType := opts[i + 2];
      }
      seen := seen + [o];
      i := i + 2 + olen;
    }
    if i == |opts| {
      StuckOptions(opts[i..]);
    }
    assert Options(opts) == seen;
  }

  /** What the OFFER loop ends with: a panic, or the message type and the server address. */
  datatype Scan = Panic | Scanned(msgType: byte, server: Option<Quad>)

  function Agreed(os: seq<Opt>, server: Option<Quad>): Scan {
    Scanned(MsgType(os), if Last(os, SERVER_ID, 0, 4).Some? then Last(os, SERVER_ID, 0, 4) else server)
  }

  /** An entry cut short, which only the OFFER loop looks into. */
  predicate CutShort(rest: seq<byte>) {
    |rest| >= 2 && rest[0] != END
  }

  /** The OFFER loop's meaning: the options everybody sees, then whatever it takes from an entry that
      is cut short. */
  function OfferMeaning(opts: seq<byte>, server: Option<Quad>): Scan {
    var seen, r := Agreed(Options(opts), server), Rest(opts);
    if CutShort(r) && r[0] == MSG_TYPE && r[1] >= 1 then
      if |r| < 3 then Panic else Scanned(r[2], seen.server)
    else if CutShort(r) && r[0] == SERVER_ID && r[1] >= 4 then
      if |r| < 6 then Panic else Scanned(seen.msgType, Some(r[2..6]))
    else seen
  }

  lemma AgreedAppend(os: seq<Opt>, o: Opt, server: Option<Quad>)
    ensures Agreed(os + [o], server) ==
            var a := Agreed(os, server);
            Scanned(if o.code == MSG_TYPE && |o.data| >= 1 then o.data[0] else a.msgType,
                    if o.code == SERVER_ID && |o.data| >= 4 then Some(o.data[0..4]) else a.server)
  {
    LastAppend(os, o, MSG_TYPE, 0, 1);
    LastAppend(os, o, SERVER_ID, 0, 4);
  }

  /** The OFFER loop: no check that an entry's data is all there. An index past the end panics. */
  method OfferScan(opts: seq<byte>, server0: Option<Quad>) returns (r: Scan)
    ensures r == OfferMeaning(opts, server0)
  {
    hide Options, Last, Rest;
    var msgType: byte, server := 0, server0;
    ghost var seen: seq<Opt> := [];
    assert opts[0..] == opts;
    LastOfNone();
    var i := 0;
    while i < |opts|
      invariant 0 <= i <= |opts|
      invariant Options(opts) == seen + Options(opts[i..]) && Rest(opts) == Rest(opts[i..])
      invariant Agreed(seen, server0) == Scanned(msgType, server)
    {
      AtCursor(opts, i);
      if opts[i] == END {
        break;
      }
      if opts[i] == PAD {
        i := i + 1;
        continue;
      }
      if i + 1 >= |opts| {
        break;
      }
      var olen := U8(opts, i + 1);
      if i + 2 + olen > |opts| {
        // the last, incomplete turn of the loop
        ghost var t := opts[i..];
        assert Options(opts) == seen && Rest(opts) == t;
        if opts[i] == MSG_TYPE && olen >= 1 {
          if i + 2 >= |opts| {
            return Panic;
          }
          msgType := opts[i + 2];
        }
        if opts[i] == SERVER_ID && olen >= 4 {
          if i + 6 > |opts| {
            return Panic;
          }
          server := Some(opts[i + 2..i + 6]);
          assert t[2..6] == opts[i + 2..i + 6];
        }
        return Scanned(msgType, server);
      }
      ghost var o := OptAt(opts, i);
      AgreedAppend(seen, o, server0);
      Fields(opts, i);
      if opts[i] == MSG_TYPE && olen >= 1 {
        msgType := opts[i + 2];
      }
      if opts[i] == SERVER_ID && olen >= 4 {
        server := Some(opts[i + 2..i + 6]);
      }
      seen := seen + [o];
      i := i + 2 + olen;
    }
    if i == |opts| {
      StuckOptions(opts[i..]);
    }
    assert Options(opts) == seen;
    return Scanned(msgType, server);
  }

  /** The options the OFFER loop visits: those everybody sees, then one cut short, with the data there is. */
  function Visited(opts: seq<byte>): seq<Opt> {
    Options(opts) + var r := Rest(opts); if CutShort(r) then [Opt(r[0], r[2..])] else []
  }

  /** A cut entry in which the OFFER loop reads past the end. */
  predicate Panics(rest: seq<byte>) {
    CutShort(rest)
    && ((rest[0] == MSG_TYPE && |rest| == 2) || (rest[0] == SERVER_ID && rest[1] >= 4 && |rest| < 6))
  }

  /** Unless it panics, the OFFER loop is a scanner like the other two, of the options it visits. */
  lemma OfferVisits(opts: seq<byte>, server: Option<Quad>)
    ensures OfferMeaning(opts, server) ==
            if Panics(Rest(opts)) then Panic else Agreed(Visited(opts), server)
  {
    var os, r := Options(opts), Rest(opts);
    hide Options, Rest, Last;
    if CutShort(r) {
      AgreedAppend(os, Opt(r[0], r[2..]), server);
      assert |r| >= 6 ==> r[2..][0..4] == r[2..6];
    } else {
      assert os + [] == os;
    }
  }

  /** On options with no entry cut short the OFFER loop agrees with the other two scanners. */
  lemma OfferAgrees(opts: seq<byte>, server: Option<Quad>)
    requires !CutShort(Rest(opts))
    ensures OfferMeaning(opts, server) == Agreed(Options(opts), server)
    ensures Visited(opts) == Options(opts) && !Panics(Rest(opts))
  {
  }

  /** In general it does so exactly when the cut entry neither panics nor brings a message type or a server
      that differs from what the others have found. */
  lemma OfferAgreesIff(opts: seq<byte>, server: Option<Quad>)
    ensures var a, r := Agreed(Options(opts), server), Rest(opts);
            OfferMeaning(opts, server) == a <==>
            (|r| >= 2 && r[0] == 53 ==> |r| >= 3 && r[2] == a.msgType)
            && (|r| >= 2 && r[0] == 54 && r[1] >= 4 ==> |r| >= 6 && a.server == Some(r[2..6]))
  {
  }

  /** It panics exactly when a message type entry is cut before its data or a server entry before
      its fourth data byte. */
  lemma OfferPanicsIff(opts: seq<byte>, server: Option<Quad>)
    ensures OfferMeaning(opts, server).Panic? <==>
            var r := Rest(opts);
            |r| >= 2 && ((r[0] == 53 && |r| == 2) || (r[0] == 54 && r[1] >= 4 && |r| < 6))
  {
  }

  /** Two cut entries on which it differs from the ACK loop: one is believed, one panics. */
  lemma OfferDiffers()
    ensures MsgType(Options([53, 2, 2])) == 0
    ensures OfferMeaning([53, 2, 2], None) == Scanned(2, None)
    ensures OfferMeaning([53, 1], None) == Panic
  {
    StuckOptions([MSG_TYPE, 2, 2]);
    StuckOptions([MSG_TYPE, 1]);
  }

  // ---- On the wire ----

  /** The options of any bytes: 0 is a pad, 255 the end; any other byte is a code, followed by a length and
      as many bytes of data, unless they are not all there. */
  lemma OptionsOnWire(s: seq<byte>)
    ensures s == [] || s[0] == 255 ==> Options(s) == []
    ensures s != [] && s[0] == 0 ==> Options(s) == Options(s[1..])
    ensures s != [] && s[0] != 0 && s[0] != 255 ==>
              Options(s) ==
              if |s| < 2 || |s| < 2 + s[1] as nat then []
              else [Opt(s[0], s[2..2 + s[1] as nat])] + Options(s[2 + s[1] as nat..])
  {
    StuckNothing(s);
    if s != [] {
      assert s[0..] == s;
      AtCursor(s, 0);
    }
  }

  lemma StuckNothing(s: seq<byte>)
    ensures s == [] ==> Options(s) == []
  {
  }

  /** Option `j` is the last of its code with at least `n` bytes. */
  predicate IsLast(os: seq<Opt>, code: byte, n: nat, j: nat) {
    j < |os| && os[j].code == code && |os[j].data| >= n
    && forall k :: j < k < |os| ==> os[k].code != code || |os[k].data| < n
  }

  predicate NoneOf(os: seq<Opt>, code: byte, n: nat) {
    forall k :: 0 <= k < |os| ==> os[k].code != code || |os[k].data| < n
  }

  /** The message type is the first byte of the last option 53 that has one; the server, in the OFFER loop,
      the first four of the last option 54 that has them. */
  lemma TypeAndServer(os: seq<Opt>, server: Option<Quad>, j: nat)
    ensures NoneOf(os, 53, 1) ==> MsgType(os) == 0
    ensures IsLast(os, 53, 1, j) ==> MsgType(os) == os[j].data[0]
    ensures NoneOf(os, 54, 4) ==> Agreed(os, server) == Scanned(MsgType(os), server)
    ensures IsLast(os, 54, 4, j) ==> Agreed(os, server) == Scanned(MsgType(os), Some(os[j].data[0..4]))
  {
    hide Last;
    if NoneOf(os, 53, 1) { LastNone(os, 53, 0, 1); }
    if IsLast(os, 53, 1, j) { LastIs(os, 53, 0, 1, j); }
    if NoneOf(os, 54, 4) { LastNone(os, 54, 0, 4); }
    if IsLast(os, 54, 4, j) { LastIs(os, 54, 0, 4, j); }
  }
}
