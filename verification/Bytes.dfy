/** The failure and absence types shared by every module (src/error.rs). `PastEnd` is no error of the
    code: it stands for a raw write behind the end of a buffer. */
module Wrappers {
  datatype Option<+T> = None | Some(value: T)

  datatype Error = BufferTooSmall(need: nat, got: nat) | PastEnd(need: nat, got: nat) | Usb | NoOffer

  datatype Result<+T> = Ok(value: T) | Err(error: Error)
}

/** The buffer sizes (src/net_types.rs). */
module NetTypes {
  const RNDIS_BUF := 32768
  const ETH_BUF := 2048
}

/** Bytes, fixed-width integers in both byte orders, and writes into caller-supplied buffers. */
module Bytes {
  type byte = b: int | 0 <= b < 256

  /** Four bytes in network order: an IPv4 address or a 32-bit field. */
  type Quad = s: seq<byte> | |s| == 4 witness [0, 0, 0, 0]

  const U16 := 0x1_0000
  const U32 := 0x1_0000_0000

  /** The byte at `at`, widened. */
  function U8(s: seq<byte>, at: nat): (v: nat)
    requires at < |s|
  {
    s[at]
  }

  function Le32(v: nat): (s: seq<byte>)
    requires v < U32
    ensures |s| == 4
  {
    var q1 := v / 256;
    var q2 := q1 / 256;
    var q3 := q2 / 256;
    [v % 256, q1 % 256, q2 % 256, q3]
  }

  function ReadLe32(s: seq<byte>, at: nat): (v: nat)
    requires at + 4 <= |s|
    ensures v < U32
  {
    U8(s, at) + 256 * U8(s, at + 1) + 65536 * U8(s, at + 2) + 16777216 * U8(s, at + 3)
  }

  lemma Le32Inverse(v: nat, s: seq<byte>, at: nat)
    requires v < U32 && at + 4 <= |s| && s[at..at + 4] == Le32(v)
    ensures ReadLe32(s, at) == v
  {
    var t := s[at..at + 4];
    assert s[at] == t[0] && s[at + 1] == t[1] && s[at + 2] == t[2] && s[at + 3] == t[3];
  }

  function Be16(v: nat): (s: seq<byte>)
    requires v < U16
    ensures |s| == 2
  {
    [v / 256, v % 256]
  }

  /** The low 16 bits, as the `>> 8` and truncating casts write them. */
  function Low16(v: nat): (s: seq<byte>)
    ensures |s| == 2
  {
    [v / 256 % 256, v % 256]
  }

  function ReadBe16(s: seq<byte>, at: nat): (v: nat)
    requires at + 2 <= |s|
    ensures v < U16
  {
    256 * U8(s, at) + U8(s, at + 1)
  }

  function ReadBe32(s: seq<byte>, at: nat): (v: nat)
    requires at + 4 <= |s|
    ensures v < U32
  {
    16777216 * U8(s, at) + 65536 * U8(s, at + 1) + 256 * U8(s, at + 2) + U8(s, at + 3)
  }

  lemma SubSlice<T>(s: seq<T>, a: nat, b: nat, lo: nat, hi: nat)
    requires a <= b <= |s| && lo <= hi <= b - a
    ensures s[a..b][lo..hi] == s[a + lo..a + hi]
  {
    var x, y := s[a..b][lo..hi], s[a + lo..a + hi];
    assert |x| == |y| && forall k :: 0 <= k < |x| ==> x[k] == y[k];
  }

  /** A concatenation, taken apart again. */
  lemma FourParts(a: seq<byte>, b: seq<byte>, c: seq<byte>, d: seq<byte>)
    ensures var s := a + b + c + d;
            && s[..|a|] == a && s[|a|..|a| + |b|] == b
            && s[|a| + |b|..|a| + |b| + |c|] == c && s[|a| + |b| + |c|..] == d
  {
  }

  function Zeros(n: nat): (s: seq<byte>)
    ensures |s| == n && forall k :: 0 <= k < n ==> s[k] == 0
  {
    seq(n, _ => 0)
  }

  /** `s` with the bytes from `at` on overwritten by `t`. */
  function Splice(s: seq<byte>, at: nat, t: seq<byte>): (r: seq<byte>)
    requires at + |t| <= |s|
    ensures |r| == |s| && r[..at] == s[..at] && r[at..at + |t|] == t && r[at + |t|..] == s[at + |t|..]
    ensures r == s[..at] + t + s[at + |t|..]
  {
    s[..at] + t + s[at + |t|..]
  }

  lemma SpliceTwice(s: seq<byte>, at: nat, a: seq<byte>, b: seq<byte>)
    requires at + |a| + |b| <= |s|
    ensures Splice(Splice(s, at, a), at + |a|, b) == Splice(s, at, a + b)
  {
    var x := Splice(s, at, a);
    assert x[..at + |a|] == s[..at] + a;
    assert x[at + |a| + |b|..] == s[at + |a| + |b|..];
  }

  /** `buf[at..at + t.len()].copy_from_slice(t)`. */
  method Write(buf: array<byte>, at: nat, t: seq<byte>)
    requires at + |t| <= buf.Length
    modifies buf
    ensures buf[..] == Splice(old(buf[..]), at, t)
  {
    forall k | 0 <= k < |t| {
      buf[at + k] := t[k];
    }
    assert buf[..] == Splice(old(buf[..]), at, t);
  }

  /** Total length of a list of byte strings. */
  function Total(ps: seq<seq<byte>>): nat {
    if ps == [] then 0 else Total(ps[..|ps| - 1]) + |ps[|ps| - 1]|
  }

  lemma {:induction false} TotalGrows(a: seq<seq<byte>>, b: seq<seq<byte>>)
    ensures Total(a + b) == Total(a) + Total(b)
  {
    if b == [] {
      assert a + b == a;
    } else {
      TotalGrows(a, b[..|b| - 1]);
      assert (a + b)[..|a + b| - 1] == a + b[..|b| - 1];
    }
  }

  lemma TotalOne(p: seq<byte>)
    ensures Total([p]) == |p|
  {
    assert [p][..0] == [];
  }

  /** How often a script says yes. */
  function Trues(bs: seq<bool>): nat {
    if bs == [] then 0 else Trues(bs[..|bs| - 1]) + if bs[|bs| - 1] then 1 else 0
  }

  lemma TruesAppend(bs: seq<bool>, b: bool)
    ensures Trues(bs + [b]) == Trues(bs) + if b then 1 else 0
  {
    assert (bs + [b])[..|bs|] == bs;
  }
}
