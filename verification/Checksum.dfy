/** The two Internet-checksum loops (src/dns_proxy.rs, src/dhcp.rs) against the one's complement
    sum of RFC 1071 section 1. */
module Checksum {
  import opened Bytes

  ghost predicate Even(s: seq<byte>) {
    |s| % 2 == 0
  }

  function Word(s: seq<byte>, k: nat): (w: nat)
    requires 2 * k + 1 < |s|
    ensures w < U16
  {
    ReadBe16(s, 2 * k)
  }

  /** The plain sum of the big-endian 16-bit words. */
  function WordSum(s: seq<byte>): nat
    requires Even(s)
  {
    if s == [] then 0 else WordSum(s[..|s| - 2]) + Word(s, |s| / 2 - 1)
  }

  /** One's complement addition: a carry out of bit 15 is added back at bit 0. */
  function OnesAdd(a: nat, b: nat): (c: nat)
    requires a < U16 && b < U16
    ensures c < U16
  {
    if a + b >= U16 then a + b - U16 + 1 else a + b
  }

  function OnesSum(s: seq<byte>): (c: nat)
    requires Even(s)
    ensures c < U16
  {
    if s == [] then 0 else OnesAdd(OnesSum(s[..|s| - 2]), Word(s, |s| / 2 - 1))
  }

  /** The checksum RFC 1071 section 1 defines. */
  function Rfc1071(s: seq<byte>): (c: nat)
    requires Even(s)
    ensures c < U16
  {
    U16 - 1 - OnesSum(s)
  }

  /** The representative of `x` modulo 65535 that is 0 only for 0. */
  function Residue(x: nat): (r: nat)
    ensures r <= 65535
    ensures r == 0 <==> x == 0
    ensures r % 65535 == x % 65535
  {
    if x <= 65535 then x else Residue(x - 65535)
  }

  lemma {:induction false} ResidueShift(x: nat, k: nat)
    requires x > 0
    ensures Residue(x + 65535 * k) == Residue(x)
  {
    if k > 0 {
      ResidueShift(x, k - 1);
    }
  }

  /** How many times 65535 fits above the representative. */
  function Laps(x: nat): (k: nat)
    ensures x == Residue(x) + 65535 * k
  {
    if x <= 65535 then 0 else Laps(x - 65535) + 1
  }

  /** One step of the carry-fold loop shrinks the sum, keeps it from 0 and keeps it modulo 65535. */
  lemma FoldStep(x: nat)
    requires x >= U16
    ensures 0 < x % U16 + x / U16 < x
    ensures Residue(x % U16 + x / U16) == Residue(x)
  {
    var y, q := x % U16 + x / U16, x / U16;
    assert x == y + 65535 * q;
    ResidueShift(y, q);
  }

  lemma ResidueAdd(x: nat, w: nat)
    requires w < U16
    ensures OnesAdd(Residue(x), w) == Residue(x + w)
  {
    var r, k := Residue(x), Laps(x);
    if r + w > 0 {
      ResidueShift(r + w, k);
      assert x + w == (r + w) + 65535 * k;
    }
  }

  lemma {:induction false} OnesSumIsResidue(s: seq<byte>)
    requires Even(s)
    ensures OnesSum(s) == Residue(WordSum(s))
  {
    if s != [] {
      var p := s[..|s| - 2];
      OnesSumIsResidue(p);
      ResidueAdd(WordSum(p), Word(s, |s| / 2 - 1));
    }
  }

  /** What both loops start from when a byte is left over. */
  function Padded(s: seq<byte>): (r: seq<byte>)
    ensures Even(r)
  {
    if |s| % 2 == 0 then s else s + [0]
  }

  function Whole(s: seq<byte>): (r: seq<byte>)
    ensures Even(r)
  {
    s[..|s| - |s| % 2]
  }

  /** What the code computes on any even-length input: the sum is a u32 and wraps. */
  function Wrapped(s: seq<byte>): (c: nat)
    requires Even(s)
    ensures c < U16
  {
    U16 - 1 - Residue(WordSum(s) % U32)
  }

  lemma {:induction false} WordSumBound(s: seq<byte>)
    requires Even(s)
    ensures WordSum(s) <= 65535 * (|s| / 2)
  {
    if s != [] {
      WordSumBound(s[..|s| - 2]);
    }
  }

  /** Within 65537 words the u32 sum cannot wrap, and the code computes RFC 1071. */
  lemma ExactWithinU32(s: seq<byte>)
    requires Even(s) && |s| <= 131074
    ensures Wrapped(s) == Rfc1071(s)
  {
    WordSumBound(s);
    OnesSumIsResidue(s);
    hide WordSum, OnesSum, Residue;
  }

  lemma WordSumLast(s: seq<byte>)
    requires Even(s)
    ensures WordSum(s) == if s == [] then 0 else WordSum(s[..|s| - 2]) + Word(s, |s| / 2 - 1)
  {
  }

  /** The sum with one word more. */
  lemma WordSumSnoc(s: seq<byte>, x: byte, y: byte)
    requires Even(s)
    ensures WordSum(s + [x, y]) == WordSum(s) + 256 * x + y
  {
    assert (s + [x, y])[..|s|] == s;
  }

  lemma {:induction false} WordSumConcat(a: seq<byte>, b: seq<byte>)
    requires Even(a) && Even(b)
    ensures WordSum(a + b) == WordSum(a) + WordSum(b)
  {
    WordSumEmpty();
    hide WordSum;
    if b == [] {
      assert a + b == a;
    } else {
      var n := |b| - 2;
      var init, x, y := b[..n], b[n], b[n + 1];
      WordSumConcat(a, init);
      WordSumSnoc(init, x, y);
      WordSumSnoc(a + init, x, y);
      assert b == init + [x, y] && a + b == (a + init) + [x, y];
    }
  }

  lemma {:induction false} WordSumConstant(n: nat, v: byte)
    ensures WordSum(seq(2 * n, _ => v)) == 257 * v * n
  {
    var s, w := seq(2 * n, _ => v), 257 * v;
    WordSumLast(s);
    hide WordSum;
    if n > 0 {
      WordSumConstant(n - 1, v);
      assert s[..|s| - 2] == seq(2 * (n - 1), _ => v) && Word(s, n - 1) == w;
      assert w * n == w * (n - 1) + w;
    }
  }

  /** 65538 words of ones, then zeros: the sum wraps once and the code is off by one. */
  lemma TooLong(words: nat) returns (s: seq<byte>)
    requires words > 65537
    ensures |s| == 2 * words && Wrapped(s) == 1 && Rfc1071(s) == 0
  {
    var a, b := seq(2 * 65538, _ => 255 as byte), seq(2 * (words - 65538), _ => 0 as byte);
    s := a + b;
    assert WordSum(s) == U32 + 65534 by {
      WordSumConcat(a, b);
      WordSumConstant(65538, 255);
      WordSumConstant(words - 65538, 0);
    }
    OnesSumIsResidue(s);
    ResidueShift(65535, 65537);
  }

  /** 65537 words is exactly how far the code can be trusted: one word more and some input of that
      length gets a wrong checksum. */
  lemma ExactIff(words: nat)
    ensures words <= 65537 <==>
            forall s: seq<byte> :: |s| == 2 * words ==> Wrapped(s) == Rfc1071(s)
  {
    if words <= 65537 {
      forall s: seq<byte> | |s| == 2 * words ensures Wrapped(s) == Rfc1071(s) {
        ExactWithinU32(s);
      }
    } else {
      var s := TooLong(words);
    }
  }

  lemma WrapAdd(x: nat, w: nat)
    ensures (x % U32 + w) % U32 == (x + w) % U32
  {
    assert x + w == x % U32 + w + U32 * (x / U32);
  }

  /** The sum of a prefix, one word longer. */
  lemma WordSumNext(p: seq<byte>, i: nat)
    requires Even(p) && i % 2 == 0 && i + 2 <= |p|
    ensures WordSum(p[..i + 2]) % U32 == (WordSum(p[..i]) % U32 + ReadBe16(p, i)) % U32
  {
    assert p[..i + 2][..i] == p[..i];
    assert Word(p[..i + 2], i / 2) == ReadBe16(p, i);
    WrapAdd(WordSum(p[..i]), ReadBe16(p, i));
  }

  lemma WordSumEmpty()
    ensures WordSum([]) == 0
  {
  }

  /** A sum without carry is its own representative. */
  lemma FoldedResidue(x: nat)
    requires x < U16
    ensures Residue(x) == x
  {
  }

  /** `ip_checksum`: a byte left over counts as the high half of a last word. */
  method IpChecksum(hdr: seq<byte>) returns (c: nat)
    ensures c == Wrapped(Padded(hdr))
    ensures |hdr| <= 131074 ==> c == Rfc1071(Padded(hdr))
  {
    WordSumEmpty();
    hide WordSum, Residue, Rfc1071;
    var sum: nat := 0;
    var i := 0;
    ghost var p := Padded(hdr);
    while i < |hdr|
      invariant 0 <= i <= |p| && i % 2 == 0
      invariant sum == WordSum(p[..i]) % U32
    {
      var word := if i + 1 < |hdr| then ReadBe16(hdr, i) else 256 * U8(hdr, i);
      WordSumNext(p, i);
      sum := (sum + word) % U32;
      i := i + 2;
    }
    assert p[..i] == p;
    ghost var total := sum;
    while sum / U16 != 0
      invariant Residue(sum) == Residue(total)
      decreases sum
    {
      FoldStep(sum);
      sum := sum % U16 + sum / U16;
    }
    FoldedResidue(sum);
    c := U16 - 1 - sum;
    if |hdr| <= 131074 {
      ExactWithinU32(p);
    }
  }

  /** `checksum` of the DHCP client: a byte left over is ignored. */
  method DhcpChecksum(iph: seq<byte>) returns (c: nat)
    ensures c == Wrapped(Whole(iph))
    ensures |iph| <= 131075 ==> c == Rfc1071(Whole(iph))
  {
    WordSumEmpty();
    hide WordSum, Residue, Rfc1071;
    var sum: nat := 0;
    var k := 0;
    ghost var p := Whole(iph);
    while 2 * k < |iph|
      invariant 0 <= 2 * k <= |iph| + 1
      invariant sum == WordSum(p[..if 2 * k <= |p| then 2 * k else |p|]) % U32
    {
      if 2 * k + 1 < |iph| {
        WordSumNext(p, 2 * k);
        sum := (sum + ReadBe16(iph, 2 * k)) % U32;
      }
      k := k + 1;
    }
    assert p[..|p|] == p;
    ghost var total := sum;
    while sum / U16 != 0
      invariant Residue(sum) == Residue(total)
      decreases sum
    {
      FoldStep(sum);
      sum := sum % U16 + sum / U16;
    }
    FoldedResidue(sum);
    c := U16 - 1 - sum;
    if |iph| <= 131075 {
      ExactWithinU32(p);
    }
  }

  /** What the two loops compute is the same on even lengths; on odd ones `ip_checksum` is `checksum` of
      the padded input. */
  lemma LoopsAgree(hdr: seq<byte>)
    ensures |hdr| % 2 == 0 ==> Wrapped(Padded(hdr)) == Wrapped(Whole(hdr))
    ensures Wrapped(Padded(hdr)) == Wrapped(Whole(Padded(hdr)))
  {
    assert Whole(Padded(hdr)) == Padded(hdr);
    assert |hdr| % 2 == 0 ==> Whole(hdr) == hdr;
  }

  /** They do differ on odd lengths: a last byte counts in the one and not in the other. */
  lemma LoopsDiffer(b: byte)
    requires b != 0
    ensures Wrapped(Padded([b])) == U16 - 1 - 256 * b && Wrapped(Whole([b])) == U16 - 1
  {
    var s := [b, 0];
    WordSumEmpty();
    WordSumLast(s);
    FoldedResidue(256 * b);
    FoldedResidue(0);
    hide WordSum, Residue;
    assert s[..0] == [] && [b] + [0] == s && [b][..0] == [];
    assert WordSum(s) == 256 * b;
  }

  function SetWord(s: seq<byte>, k: nat, w: nat): (r: seq<byte>)
    requires 2 * k + 1 < |s| && w < U16
    ensures |r| == |s|
  {
    s[2 * k := w / 256][2 * k + 1 := w % 256]
  }

  lemma {:induction false} WordSumUpdate(s: seq<byte>, k: nat, w: nat)
    requires Even(s) && 2 * k + 1 < |s| && w < U16
    ensures WordSum(SetWord(s, k, w)) == WordSum(s) - Word(s, k) + w
  {
    var r := SetWord(s, k, w);
    if 2 * k + 2 == |s| {
      assert r[..|s| - 2] == s[..|s| - 2];
    } else {
      WordSumUpdate(s[..|s| - 2], k, w);
      assert r[..|s| - 2] == SetWord(s[..|s| - 2], k, w);
    }
  }

  lemma VerifiesIff(s: seq<byte>)
    requires Even(s)
    ensures Rfc1071(s) == 0 <==> Residue(WordSum(s)) == 65535
  {
    OnesSumIsResidue(s);
  }

  /** Storing the checksum in its zeroed field makes the header verify. */
  lemma StoreVerifies(s: seq<byte>, k: nat)
    requires Even(s) && 2 * k + 1 < |s| && Word(s, k) == 0
    ensures Rfc1071(SetWord(s, k, Rfc1071(s))) == 0
  {
    OnesSumIsResidue(s);
    var c := Rfc1071(s);
    WordSumUpdate(s, k, c);
    var sum := WordSum(s);
    ResidueShift(65535, Laps(sum));
    assert sum + c == 65535 + 65535 * Laps(sum);
    VerifiesIff(SetWord(s, k, c));
  }

  lemma SmallMultiple(k: int, v: nat, w: nat)
    requires v < U16 && w < U16 && v != w && w - v == 65535 * k
    ensures v + w == 65535 && (v == 0 || w == 0)
  {
    assert k == 1 || k == -1;
  }

  /** A verifying header stops verifying when any one word changes, except between the two
      representations of zero. */
  lemma DetectsChangedWord(s: seq<byte>, k: nat, w: nat)
    requires Even(s) && 2 * k + 1 < |s| && w < U16
    requires Rfc1071(s) == 0 && w != Word(s, k)
    ensures Rfc1071(SetWord(s, k, w)) == 0 ==>
              (w == 0 && Word(s, k) == 65535) || (w == 65535 && Word(s, k) == 0)
  {
    var r := SetWord(s, k, w);
    VerifiesIff(s);
    VerifiesIff(r);
    WordSumUpdate(s, k, w);
    if Rfc1071(r) == 0 {
      SmallMultiple(Laps(WordSum(r)) - Laps(WordSum(s)), Word(s, k), w);
    }
  }

  lemma AddWord(s: seq<byte>, n: nat, x: byte, y: byte) returns (t: seq<byte>, m: nat)
    requires Even(s) && WordSum(s) == n
    ensures t == s + [x, y] && Even(t) && m == n + 256 * x + y && WordSum(t) == m
  {
    t, m := s + [x, y], n + 256 * x + y;
    WordSumSnoc(s, x, y);
  }

  /** The numerical example of RFC 1071 section 3. */
  lemma KnownAnswer()
    ensures Rfc1071([0x00, 0x01, 0xF2, 0x03, 0xF4, 0xF5, 0xF6, 0xF7]) == 0x220D
  {
    hide WordSum, OnesSum, Residue;
    WordSumEmpty();
    var s2, n2 := AddWord([], 0, 0x00, 0x01);
    var s4, n4 := AddWord(s2, n2, 0xF2, 0x03);
    var s6, n6 := AddWord(s4, n4, 0xF4, 0xF5);
    var s, n := AddWord(s6, n6, 0xF6, 0xF7);
    assert s == [0x00, 0x01, 0xF2, 0x03, 0xF4, 0xF5, 0xF6, 0xF7];
    OnesSumIsResidue(s);
    ResidueShift(0xDDF2, 2);
    FoldedResidue(0xDDF2);
  }
}
