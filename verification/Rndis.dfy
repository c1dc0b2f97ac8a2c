/** RNDIS data framing (src/rndis.rs): the packet builder, and the cursor that walks a USB transfer.
    The layout is REMOTE_NDIS_PACKET_MSG, MS-RNDIS section 2.2.14. */
module Rndis {
  import opened Bytes
  import opened Wrappers

  const PACKET_MSG := 1
  const HEADER := 44

  // ---- Building ----

  /** The header: type, message length, data offset, data length and seven zero words. */
  function Header(total: nat, len: nat): (h: seq<byte>)
    requires total < U32 && len < U32
    ensures |h| == HEADER
  {
    Le32(PACKET_MSG) + Le32(total) + Le32(36) + Le32(len) + Zeros(28)
  }

  /** A data packet. Both lengths are truncated to 32 bits. */
  function DataPacket(frame: seq<byte>): (m: seq<byte>)
    ensures |m| == HEADER + |frame|
  {
    Header((HEADER + |frame|) % U32, |frame| % U32) + frame
  }

  /** `write_u32`. */
  method WriteU32(buf: array<byte>, at: nat, v: nat)
    requires at + 4 <= buf.Length && v < U32
    modifies buf
    ensures buf[..at + 4] == old(buf[..at]) + Le32(v)
    ensures forall k :: at + 4 <= k < buf.Length ==> buf[k] == old(buf[k])
  {
    Write(buf, at, Le32(v));
    assert forall k :: at + 4 <= k < buf.Length ==> buf[..][k] == old(buf[..])[k];
  }

  lemma SevenZeroWords(h: seq<byte>)
    ensures h + Le32(0) + Le32(0) + Le32(0) + Le32(0) + Le32(0) + Le32(0) + Le32(0) == h + Zeros(28)
  {
    assert Le32(0) == Zeros(4);
  }

  method WriteHeader(buf: array<byte>, total: nat, len: nat)
    requires HEADER <= buf.Length && total < U32 && len < U32
    modifies buf
    ensures buf[..] == Splice(old(buf[..]), 0, Header(total, len))
  {
    hide Le32;
    WriteU32(buf, 0, PACKET_MSG);
    WriteU32(buf, 4, total);
    WriteU32(buf, 8, 36);
    WriteU32(buf, 12, len);
    WriteU32(buf, 16, 0);
    WriteU32(buf, 20, 0);
    WriteU32(buf, 24, 0);
    WriteU32(buf, 28, 0);
    WriteU32(buf, 32, 0);
    WriteU32(buf, 36, 0);
    WriteU32(buf, 40, 0);
    SevenZeroWords([] + Le32(PACKET_MSG) + Le32(total) + Le32(36) + Le32(len));
    assert buf[..HEADER] == Header(total, len);
    assert buf[HEADER..] == old(buf[HEADER..]);
    assert buf[..] == buf[..HEADER] + buf[HEADER..];
  }

  method BuildDataPacket(buf: array<byte>, frame: seq<byte>) returns (r: Result<nat>)
    modifies buf
    ensures buf.Length < HEADER + |frame| ==>
              r == Err(BufferTooSmall(HEADER + |frame|, buf.Length)) && buf[..] == old(buf[..])
    ensures buf.Length >= HEADER + |frame| ==>
              r == Ok(HEADER + |frame|) && buf[..] == Splice(old(buf[..]), 0, DataPacket(frame))
  {
    hide Header;
    var total := HEADER + |frame|;
    if buf.Length < total {
      return Err(BufferTooSmall(total, buf.Length));
    }
    WriteHeader(buf, total % U32, |frame| % U32);
    Write(buf, HEADER, frame);
    return Ok(total);
  }

  // ---- Decoding one message ----

  /** A borrowed part `data[lo..hi]` of a buffer. */
  datatype Slice = Slice(lo: nat, hi: nat)

  function At(s: seq<byte>, d: Slice): seq<byte>
    requires d.lo <= d.hi <= |s|
  {
    s[d.lo..d.hi]
  }

  /** Length of the next whole message of `d`, or 0 when the cursor stops here. */
  function NextLen(d: seq<byte>): (n: nat)
    ensures n <= |d|
  {
    if |d| < 8 || ReadLe32(d, 4) > |d| then 0 else ReadLe32(d, 4)
  }

  /** Where the payload of one message lies in it, if the cursor yields it.
      The data offset is added to 8 in 32 bits. */
  function Payload(m: seq<byte>): (p: Option<Slice>)
    ensures p.Some? ==> p.value.lo < p.value.hi <= |m| && HEADER <= |m|
  {
    if |m| < HEADER || ReadLe32(m, 0) != PACKET_MSG then None
    else if ReadLe32(m, 8) < 36 || ReadLe32(m, 12) == 0 then None
    else
      var start := (8 + ReadLe32(m, 8)) % U32;
      if start + ReadLe32(m, 12) > |m| then None else Some(Slice(start, start + ReadLe32(m, 12)))
  }

  function Yield(m: seq<byte>): seq<seq<byte>> {
    match Payload(m)
    case None => []
    case Some(p) => [At(m, p)]
  }

  /** The payloads of a transfer, in order: the recursive meaning of the cursor. */
  function Frames(d: seq<byte>): seq<seq<byte>> {
    var n := NextLen(d);
    if n == 0 then [] else Yield(d[..n]) + Frames(d[n..])
  }

  /** A payload, and all that lies behind it in the transfer. */
  datatype Sight = Sight(frame: seq<byte>, behind: seq<byte>)

  function SightIn(data: seq<byte>, s: Slice): Sight
    requires s.lo <= s.hi <= |data|
  {
    Sight(data[s.lo..s.hi], data[s.hi..])
  }

  function SightOf(d: seq<byte>, n: nat): seq<Sight>
    requires n <= |d|
  {
    match Payload(d[..n])
    case None => []
    case Some(p) => [Sight(d[p.lo..p.hi], d[p.hi..])]
  }

  /** The payloads of a transfer with what lies behind each. */
  function Sights(d: seq<byte>): seq<Sight> {
    var n := NextLen(d);
    if n == 0 then [] else SightOf(d, n) + Sights(d[n..])
  }

  function Seen(ss: seq<Sight>): (fs: seq<seq<byte>>)
    ensures |fs| == |ss|
  {
    seq(|ss|, k requires 0 <= k < |ss| => ss[k].frame)
  }

  lemma SeenConcat(a: seq<Sight>, b: seq<Sight>)
    ensures Seen(a + b) == Seen(a) + Seen(b)
  {
  }

  /** The payload of one message, seen from the whole transfer. */
  lemma SightYield(d: seq<byte>, n: nat)
    requires n <= |d|
    ensures Seen(SightOf(d, n)) == Yield(d[..n])
  {
    match Payload(d[..n]) {
      case None =>
      case Some(p) => SubSlice(d, 0, n, p.lo, p.hi);
    }
  }

  /** What is seen are the frames. */
  lemma {:induction false} SightsFrames(d: seq<byte>)
    ensures Seen(Sights(d)) == Frames(d)
    decreases |d|
  {
    var n := NextLen(d);
    if n > 0 {
      SightYield(d, n);
      SeenConcat(SightOf(d, n), Sights(d[n..]));
      hide NextLen, Payload, Yield, SightOf, Seen;
      SightsFrames(d[n..]);
    }
  }

  lemma ReadShift(data: seq<byte>, at: nat, k: nat)
    requires at + k + 4 <= |data|
    ensures ReadLe32(data[at..], k) == ReadLe32(data, at + k)
  {
  }

  /** Unfolds `Frames` at a position inside a transfer. */
  lemma FramesAt(data: seq<byte>, at: nat)
    requires at <= |data|
    ensures var n := NextLen(data[at..]);
            Frames(data[at..]) == if n == 0 then [] else Yield(data[at..at + n]) + Frames(data[at + n..])
  {
    hide NextLen, Yield;
    var n := NextLen(data[at..]);
    assert data[at..][..n] == data[at..at + n] && data[at..][n..] == data[at + n..];
  }

  lemma SightShift(data: seq<byte>, at: nat, n: nat)
    requires at + n <= |data|
    ensures SightOf(data[at..], n) ==
            match Payload(data[at..at + n])
            case None => []
            case Some(p) => [Sight(data[at + p.lo..at + p.hi], data[at + p.hi..])]
  {
    assert data[at..][..n] == data[at..at + n];
    match Payload(data[at..at + n]) {
      case None =>
      case Some(p) =>
        SubSlice(data, at, |data|, p.lo, p.hi);
        assert data[at..] == data[at..|data|] && data[at..][p.hi..] == data[at + p.hi..];
    }
  }

  /** Unfolds `Sights` at a position inside a transfer. */
  lemma SightsAt(data: seq<byte>, at: nat)
    requires at <= |data|
    ensures var n := NextLen(data[at..]);
            Sights(data[at..]) == if n == 0 then [] else SightOf(data[at..], n) + Sights(data[at + n..])
  {
    hide NextLen, SightOf;
    var n := NextLen(data[at..]);
    assert data[at..][n..] == data[at + n..];
  }

  // ---- The cursor ----

  /** The cursor's checks on one whole message: what it yields of it, if anything. */
  method Inspect(pkt: seq<byte>) returns (p: Option<Slice>)
    ensures p == Payload(pkt)
  {
    hide ReadLe32;
    if |pkt| < 8 {
      return None;
    }
    if ReadLe32(pkt, 0) != PACKET_MSG {
      return None;
    }
    if |pkt| < HEADER {
      return None;
    }
    var dataOffset := ReadLe32(pkt, 8);
    var dataLen := ReadLe32(pkt, 12);
    if dataOffset < 36 || dataLen == 0 {
      return None;
    }
    var start := (8 + dataOffset) % U32;
    var end := start + dataLen;
    if end > |pkt| {
      return None;
    }
    return Some(Slice(start, end));
  }

  /** `RndisPacketIter`. */
  class PacketIter {
    const data: seq<byte>
    var offset: nat

    ghost predicate Valid()
      reads this
    {
      offset <= |data|
    }

    constructor (data: seq<byte>)
      ensures Valid() && this.data == data && offset == 0
    {
      this.data := data;
      this.offset := 0;
    }

    /** Yields the next payload. `at` is where the message it lies in starts: the slice is inside
        that one PACKET message, at the offset and length the message declares (32-bit). */
    method Next() returns (r: Option<Slice>, ghost at: nat)
      requires Valid()
      modifies this
      ensures Valid() && old(offset) <= at <= offset
      ensures r.None? ==> Frames(old(data[offset..])) == [] && NextLen(data[offset..]) == 0
      ensures r.Some? ==>
                && at + 8 <= offset && at + ReadLe32(data, at + 4) == offset
                && at <= r.value.lo < r.value.hi <= offset
                && Payload(data[at..offset]) == Some(Slice(r.value.lo - at, r.value.hi - at))
                && Frames(old(data[offset..])) == [At(data, r.value)] + Frames(data[offset..])
      ensures Sights(old(data[offset..])) ==
              if r.None? then [] else [SightIn(data, r.value)] + Sights(data[offset..])
    {
      hide ReadLe32, Frames, Sights, Payload;
      at := offset;
      while true
        invariant Valid() && old(offset) <= at == offset
        invariant Frames(data[offset..]) == Frames(old(data[offset..]))
        invariant Sights(data[offset..]) == Sights(old(data[offset..]))
        decreases |data| - offset
      {
        FramesAt(data, offset);
        SightsAt(data, offset);
        SightShift(data, offset, NextLen(data[offset..]));
        at := offset;
        if offset + 8 > |data| {
          return None, at;
        }
        var msgLen := ReadLe32(data, offset + 4);
        ReadShift(data, offset, 4);
        if msgLen == 0 || offset + msgLen > |data| {
          return None, at;
        }
        var base := offset;
        var pkt := data[base..base + msgLen];
        offset := offset + msgLen;
        var slice := Inspect(pkt);
        match slice {
          case None => at := offset;
          case Some(p) =>
            SubSlice(data, base, base + msgLen, p.lo, p.hi);
            return Some(Slice(base + p.lo, base + p.hi)), at;
        }
      }
    }
  }

  /** Slices of a transfer, none empty. */
  ghost predicate Inside(data: seq<byte>, all: seq<Slice>) {
    forall k :: 0 <= k < |all| ==> all[k].lo < all[k].hi <= |data|
  }

  /** Slices that do not overlap and follow one another. */
  ghost predicate Ordered(all: seq<Slice>) {
    forall j, k :: 0 <= j < k < |all| ==> all[j].hi <= all[k].lo
  }

  /** What they cut out. */
  ghost function Cut(data: seq<byte>, all: seq<Slice>): (ss: seq<Sight>)
    requires Inside(data, all)
    ensures |ss| == |all|
  {
    seq(|all|, k requires 0 <= k < |all| => SightIn(data, all[k]))
  }

  lemma CutAt(data: seq<byte>, all: seq<Slice>, k: nat)
    requires Inside(data, all) && k < |all|
    ensures all[k].lo < all[k].hi <= |data| && Cut(data, all)[k] == SightIn(data, all[k])
    ensures Seen(Cut(data, all))[k] == data[all[k].lo..all[k].hi]
  {
  }

  lemma OneSliceMore(data: seq<byte>, all: seq<Slice>, s: Slice, offset: nat)
    requires Inside(data, all) && Ordered(all) && (forall k :: 0 <= k < |all| ==> all[k].hi <= offset)
    requires offset <= s.lo < s.hi <= |data|
    ensures Inside(data, all + [s]) && Ordered(all + [s]) && Cut(data, all + [s]) == Cut(data, all) + [SightIn(data, s)]
    ensures forall k :: 0 <= k <= |all| ==> (all + [s])[k].hi <= s.hi
  {
  }

  /** A whole walk over one transfer, as `for_each` and `unwrap_data` do it: the frames of the
      recursive meaning in order, as disjoint slices of increasing position. */
  method Collect(data: seq<byte>) returns (all: seq<Slice>)
    ensures Inside(data, all) && Ordered(all)
    ensures Cut(data, all) == Sights(data) && Seen(Cut(data, all)) == Frames(data)
  {
    hide ReadLe32, Frames, Payload, NextLen, Sights, Seen, SightIn, Cut, Ordered, Inside;
    all := [];
    NoSlices(data);
    var it := new PacketIter(data);
    while true
      invariant it.Valid() && it.data == data
      invariant Inside(data, all) && Ordered(all) && forall k :: 0 <= k < |all| ==> all[k].hi <= it.offset
      invariant Sights(data) == Cut(data, all) + Sights(data[it.offset..])
      decreases |data| - it.offset
    {
      var r, at := it.Next();
      if r.None? {
        assert Sights(data) == Cut(data, all);
        break;
      }
      OneSliceMore(data, all, r.value, at);
      all := all + [r.value];
    }
    SightsFrames(data);
  }

  lemma NoSlices(data: seq<byte>)
    ensures Inside(data, []) && Ordered([]) && Cut(data, []) == []
    ensures data[0..] == data
  {
  }

  /** The slice starts at 8 plus the declared data offset exactly when that sum fits 32 bits. */
  lemma DeclaredOffset(m: seq<byte>)
    requires Payload(m).Some?
    ensures Payload(m).value.lo == 8 + ReadLe32(m, 8) <==> ReadLe32(m, 8) < U32 - 8
    ensures Payload(m).value.hi == Payload(m).value.lo + ReadLe32(m, 12)
  {
  }

  /** The 32-bit sum does wrap on some message the cursor yields: the slice is then its first byte. */
  lemma OffsetWraps() returns (m: seq<byte>)
    ensures |m| == HEADER && ReadLe32(m, 8) == U32 - 8 && Payload(m) == Some(Slice(0, 1))
  {
    hide ReadLe32;
    m := Le32(PACKET_MSG) + Le32(HEADER) + Le32(U32 - 8) + Le32(1) + Zeros(28);
    Le32Inverse(PACKET_MSG, m, 0);
    Le32Inverse(U32 - 8, m, 8);
    Le32Inverse(1, m, 12);
  }

  // ---- On the wire ----

  lemma SmallLe32(v: nat)
    requires v < 65536
    ensures Le32(v) == [v % 256, v / 256, 0, 0]
  {
  }

  lemma FourWords(a: byte, b: byte, c: byte, d: byte)
    ensures [1, 0, 0, 0] + [a, b, 0, 0] + [36, 0, 0, 0] + [c, d, 0, 0] == [1, 0, 0, 0, a, b, 0, 0, 36, 0, 0, 0, c, d, 0, 0]
  {
  }

  /** A data packet, byte by byte. */
  function PacketBytes(f: seq<byte>): seq<byte>
    requires 44 + |f| < 65536
  {
    [1, 0, 0, 0, (44 + |f|) % 256, (44 + |f|) / 256, 0, 0, 36, 0, 0, 0, |f| % 256, |f| / 256, 0, 0] + Zeros(28) + f
  }

  lemma HeaderOnWire(total: nat, len: nat)
    requires total < 65536 && len < 65536
    ensures Header(total, len) ==
            [1, 0, 0, 0, total % 256, total / 256, 0, 0, 36, 0, 0, 0, len % 256, len / 256, 0, 0] + Zeros(28)
  {
    hide Le32, Zeros;
    SmallLe32(1);
    SmallLe32(36);
    SmallLe32(total);
    SmallLe32(len);
    FourWords(total % 256, total / 256, len % 256, len / 256);
  }

  lemma BuiltOnWire(f: seq<byte>)
    requires 44 + |f| < 65536
    ensures DataPacket(f) == PacketBytes(f)
  {
    hide Header, Zeros;
    HeaderOnWire(44 + |f|, |f|);
  }

  /** That is what is built, and what comes back from it is the frame. */
  lemma PacketOnWire(f: seq<byte>)
    requires 44 + |f| < 65536
    ensures DataPacket(f) == PacketBytes(f)
    ensures f != [] ==> Frames(PacketBytes(f)) == [f]
  {
    hide DataPacket, PacketBytes, Frames;
    BuiltOnWire(f);
    ItemFrames(Data(f));
  }

  /** A 32-bit number in the order of the wire. */
  function Number(d: seq<byte>, at: nat): nat
    requires at + 4 <= |d|
  {
    U8(d, at) + 256 * U8(d, at + 1) + 65536 * U8(d, at + 2) + 16777216 * U8(d, at + 3)
  }

  /** What the cursor takes of one message: its data, if it has type 1, at least 44 bytes, a data offset of
      at least 36, counted from byte 8 in 32 bits, and all of its data. */
  lemma DataOnWire(m: seq<byte>)
    ensures Yield(m) ==
            if |m| >= 44 && m[0..4] == [1, 0, 0, 0] && Number(m, 8) >= 36 && Number(m, 12) > 0
               && (8 + Number(m, 8)) % 4294967296 + Number(m, 12) <= |m|
            then var at := (8 + Number(m, 8)) % 4294967296; [m[at..at + Number(m, 12)]]
            else []
  {
    if |m| >= 44 {
      assert m[0..4] == [m[0], m[1], m[2], m[3]];
      assert ReadLe32(m, 0) == 1 <==> m[0..4] == [1, 0, 0, 0];
      assert ReadLe32(m, 8) == Number(m, 8) && ReadLe32(m, 12) == Number(m, 12);
      hide ReadLe32, Number;
    }
  }

  /** What it makes of any bytes: it stops at fewer than 8, at a message of length 0 and at one longer than
      what is left, and else goes on behind the message. */
  lemma CursorOnWire(d: seq<byte>)
    ensures |d| < 8 ==> Frames(d) == []
    ensures |d| >= 8 && (Number(d, 4) == 0 || Number(d, 4) > |d|) ==> Frames(d) == []
    ensures |d| >= 8 && 0 < Number(d, 4) <= |d| ==>
              Frames(d) == Yield(d[..Number(d, 4)]) + Frames(d[Number(d, 4)..])
  {
    hide Yield;
  }

  // ---- Framing laws ----

  /** The cursor consumes all of `a`. */
  ghost predicate WellFramed(a: seq<byte>)
    decreases |a|
  {
    a == [] || (NextLen(a) > 0 && WellFramed(a[NextLen(a)..]))
  }

  lemma NextLenPrefix(a: seq<byte>, b: seq<byte>)
    requires NextLen(a) > 0
    ensures NextLen(a + b) == NextLen(a)
  {
    assert ReadLe32(a + b, 4) == ReadLe32(a, 4);
  }

  /** Framing is a homomorphism on well-framed transfers. */
  lemma {:induction false} FramesConcat(a: seq<byte>, b: seq<byte>)
    requires WellFramed(a)
    ensures Frames(a + b) == Frames(a) + Frames(b)
    ensures WellFramed(b) ==> WellFramed(a + b)
    decreases |a|
  {
    hide ReadLe32, Yield, NextLen, Payload;
    if a == [] {
      assert a + b == b;
    } else {
      var n := NextLen(a);
      NextLenPrefix(a, b);
      assert (a + b)[..n] == a[..n] && (a + b)[n..] == a[n..] + b;
      assert Frames(a) == Yield(a[..n]) + Frames(a[n..]);
      assert Frames(a + b) == Yield(a[..n]) + Frames(a[n..] + b);
      hide Frames;
      FramesConcat(a[n..], b);
    }
  }

  /** What a phone may put into one transfer: data packets, and other whole messages, among them
      indications of the same type that declare no data. */
  datatype Item = Data(frame: seq<byte>) | Control(msg: seq<byte>)

  ghost predicate ValidItem(i: Item) {
    match i
    case Data(f) => HEADER + |f| < U32
    case Control(m) =>
      && |m| >= 8 && ReadLe32(m, 4) == |m|
      && (ReadLe32(m, 0) != PACKET_MSG || |m| < HEADER || ReadLe32(m, 8) < 36 || ReadLe32(m, 12) == 0)
  }

  function Message(i: Item): seq<byte> {
    match i
    case Data(f) => DataPacket(f)
    case Control(m) => m
  }

  function Encode(items: seq<Item>): seq<byte> {
    if items == [] then [] else Message(items[0]) + Encode(items[1..])
  }

  /** The frames sent; an empty one is lost. */
  function Sent(items: seq<Item>): seq<seq<byte>> {
    if items == [] then []
    else (if items[0].Data? && items[0].frame != [] then [items[0].frame] else []) + Sent(items[1..])
  }

  lemma PacketFields(f: seq<byte>)
    requires HEADER + |f| < U32
    ensures var m := DataPacket(f);
            && ReadLe32(m, 0) == PACKET_MSG && ReadLe32(m, 4) == |m|
            && ReadLe32(m, 8) == 36 && ReadLe32(m, 12) == |f| && m[HEADER..] == f
  {
    hide ReadLe32, Le32;
    var m := DataPacket(f);
    Le32Inverse(PACKET_MSG, m, 0);
    Le32Inverse(|m|, m, 4);
    Le32Inverse(36, m, 8);
    Le32Inverse(|f|, m, 12);
  }

  /** One item alone: well framed, and a data packet comes back exactly when it is not empty. */
  lemma ItemFrames(i: Item)
    requires ValidItem(i)
    ensures WellFramed(Message(i))
    ensures Frames(Message(i)) == if i.Data? && i.frame != [] then [i.frame] else []
  {
    var m := Message(i);
    if i.Data? {
      PacketFields(i.frame);
    }
    assert NextLen(m) == |m| && m[..|m|] == m && m[|m|..] == [];
    assert Frames(m) == Yield(m) + [];
  }

  lemma {:induction false} EncodeWellFramed(items: seq<Item>)
    requires forall i :: i in items ==> ValidItem(i)
    ensures WellFramed(Encode(items)) && Frames(Encode(items)) == Sent(items)
  {
    if items != [] {
      EncodeWellFramed(items[1..]);
      ItemFrames(items[0]);
      FramesConcat(Message(items[0]), Encode(items[1..]));
    }
  }

  lemma ZerosStop(n: nat)
    ensures Frames(Zeros(n)) == []
  {
    if n >= 8 {
      assert ReadLe32(Zeros(n), 4) == 0;
    }
  }

  /** Any interleaving of data packets and other messages, with zero padding of any length behind
      it, decodes to exactly the non-empty frames sent, in order. */
  lemma StreamRoundTrip(items: seq<Item>, padding: nat)
    requires forall i :: i in items ==> ValidItem(i)
    ensures Frames(Encode(items) + Zeros(padding)) == Sent(items)
  {
    EncodeWellFramed(items);
    ZerosStop(padding);
    FramesConcat(Encode(items), Zeros(padding));
  }
}
