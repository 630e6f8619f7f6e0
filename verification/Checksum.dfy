/** The IPv4 header checksum: 16-bit one's-complement sum, RFC 1071. */
module Checksum {
  import opened Arithmetic

  type Half = x: int | 0 <= x < 0x1_0000

  /** End-around carry until the value fits 16 bits: the reference one's-complement sum. */
  function Fold(n: nat): (r: nat)
    ensures r < 0x1_0000 && r % 0xFFFF == n % 0xFFFF && (r == 0 <==> n == 0)
  {
    if n < 0x1_0000 then n else Fold(n / 0x1_0000 + n % 0x1_0000)
  }

  /** The option words, one branch per header length as the code unrolls them. */
  function OptionWords(p: seq<nat>, extra: nat): nat
    requires extra % 4 == 0 && extra <= 40 && 2 * |p| == extra
  {
    if extra == 0 then 0
    else if extra == 4 then p[0] + p[1]
    else if extra == 8 then p[0] + p[1] + p[2] + p[3]
    else if extra == 12 then p[0] + p[1] + p[2] + p[3] + p[4] + p[5]
    else if extra == 16 then p[0] + p[1] + p[2] + p[3] + p[4] + p[5] + p[6] + p[7]
    else if extra == 20 then p[0] + p[1] + p[2] + p[3] + p[4] + p[5] + p[6] + p[7] + p[8] + p[9]
    else if extra == 24 then p[0] + p[1] + p[2] + p[3] + p[4] + p[5] + p[6] + p[7] + p[8] + p[9] + p[10] + p[11]
    else if extra == 28 then
      p[0] + p[1] + p[2] + p[3] + p[4] + p[5] + p[6] + p[7] + p[8] + p[9] + p[10] + p[11] + p[12] + p[13]
    else if extra == 32 then
      p[0] + p[1] + p[2] + p[3] + p[4] + p[5] + p[6] + p[7] + p[8] + p[9] + p[10] + p[11] + p[12] + p[13] + p[14] + p[15]
    else if extra == 36 then
      p[0] + p[1] + p[2] + p[3] + p[4] + p[5] + p[6] + p[7] + p[8] + p[9] + p[10] + p[11] + p[12] + p[13] + p[14] + p[15]
      + p[16] + p[17]
    else
      p[0] + p[1] + p[2] + p[3] + p[4] + p[5] + p[6] + p[7] + p[8] + p[9] + p[10] + p[11] + p[12] + p[13] + p[14] + p[15]
      + p[16] + p[17] + p[18] + p[19]
  }

  predicate IsHeader(pkt: seq<Half>) {
    10 <= |pkt| <= 30 && |pkt| % 2 == 0
  }

  /** Every word but the checksum field. */
  function OtherWords(pkt: seq<Half>): nat
    requires IsHeader(pkt)
  {
    pkt[0] + (pkt[1] + pkt[2] + pkt[3] + pkt[4] + pkt[6] + pkt[7] + pkt[8] + pkt[9])
    + OptionWords(pkt[10..], 2 * |pkt| - 20)
  }

  /** IPV4CalculateChecksum: two folds in a 32-bit accumulator, complemented and cut to 16 bits. */
  function CalculateChecksum(pkt: seq<Half>): (c: Half)
    requires IsHeader(pkt)
  {
    var csum := OtherWords(pkt);
    var once := csum / 0x1_0000 + csum % 0x1_0000;
    var twice := once + once / 0x1_0000;
    0xFFFF - twice % 0x1_0000
  }

  lemma TwoMore(p: seq<nat>, n: nat)
    requires n + 2 <= |p|
    ensures Sum(p[..n + 2]) == Sum(p[..n]) + p[n] + p[n + 1]
  {
    assert p[..n + 2][..n + 1] == p[..n + 1] && p[..n + 1][..n] == p[..n];
  }

  lemma OptionWordsAreSum(p: seq<nat>, extra: nat)
    requires extra % 4 == 0 && extra <= 40 && 2 * |p| == extra
    ensures OptionWords(p, extra) == Sum(p)
  {
    assert p[..|p|] == p;
    SumEmpty(p);
    if extra < 20 {
      FewOptionWords(p, extra);
    } else {
      ManyOptionWords(p, extra);
    }
  }

  lemma FewOptionWords(p: seq<nat>, extra: nat)
    requires extra % 4 == 0 && extra < 20 && 2 * |p| == extra && p[..|p|] == p
    ensures OptionWords(p, extra) == Sum(p)
  {
    hide Sum;
    SumEmpty(p);
    if extra > 0 { TwoMore(p, 0); }
    if extra > 4 { TwoMore(p, 2); }
    if extra > 8 { TwoMore(p, 4); }
    if extra > 12 { TwoMore(p, 6); }
  }

  lemma ManyOptionWords(p: seq<nat>, extra: nat)
    requires extra % 4 == 0 && 20 <= extra <= 40 && 2 * |p| == extra && p[..|p|] == p
    ensures OptionWords(p, extra) == Sum(p)
  {
    hide Sum;
    FixedWords(p);
    if extra > 20 { TwoMore(p, 10); }
    if extra > 24 { TwoMore(p, 12); }
    if extra > 28 { TwoMore(p, 14); }
    if extra > 32 { TwoMore(p, 16); }
    if extra > 36 { TwoMore(p, 18); }
  }

  lemma SumEmpty(p: seq<nat>)
    ensures Sum(p[..0]) == 0
  {
  }

  lemma {:induction false} SumSplit(a: seq<nat>, b: seq<nat>)
    ensures Sum(a + b) == Sum(a) + Sum(b)
  {
    if b == [] {
      assert a + b == a;
    } else {
      assert (a + b)[..|a + b| - 1] == a + b[..|b| - 1];
      SumSplit(a, b[..|b| - 1]);
    }
  }

  /** The unrolled sum is the sum of the whole header with the checksum field taken as zero. */
  lemma OtherWordsAreSum(pkt: seq<Half>, c: Half)
    requires IsHeader(pkt)
    ensures OtherWords(pkt) + c == Sum(pkt[5 := c])
  {
    var q := pkt[5 := c];
    FixedWords(q);
    assert q[..10] + q[10..] == q && q[10..] == pkt[10..];
    SumSplit(q[..10], q[10..]);
    OptionWordsAreSum(pkt[10..], 2 * |pkt| - 20);
  }

  lemma FixedWords(q: seq<nat>)
    requires |q| >= 10
    ensures Sum(q[..10]) == q[0] + q[1] + q[2] + q[3] + q[4] + q[5] + q[6] + q[7] + q[8] + q[9]
  {
    hide Sum;
    SumEmpty(q);
    TwoMore(q, 0);
    TwoMore(q, 2);
    TwoMore(q, 4);
    TwoMore(q, 6);
    TwoMore(q, 8);
  }

  /** The accumulator never leaves 32 bits, and two folds are enough. */
  lemma TwoFoldsSuffice(pkt: seq<Half>)
    requires IsHeader(pkt)
    ensures OtherWords(pkt) < 0x1_0000_0000
    ensures CalculateChecksum(pkt) == 0xFFFF - Fold(OtherWords(pkt))
  {
    OtherWordsAreSum(pkt, 0);
    SumBound(pkt[5 := 0], 0xFFFF);
    TwoFolds(OtherWords(pkt));
  }

  lemma TwoFolds(csum: nat)
    requires csum < 30 * 0x1_0000
    ensures var once := csum / 0x1_0000 + csum % 0x1_0000; (once + once / 0x1_0000) % 0x1_0000 == Fold(csum)
  {
    var once := csum / 0x1_0000 + csum % 0x1_0000;
    if once < 0x1_0000 {
      assert csum >= 0x1_0000 ==> Fold(csum) == once;
    } else {
      var second := once / 0x1_0000 + once % 0x1_0000;
      assert once / 0x1_0000 == 1 && second < 0x1_0000;
      assert Fold(csum) == Fold(once) == second;
    }
  }

  lemma FoldReachesAllOnes(w: nat, c: Half)
    ensures Fold(w + c) == 0xFFFF <==> Fold(w) + c == 0xFFFF || Fold(w) + c == 0x1FFFE
  {
    hide Fold;
    var f, g := Fold(w), Fold(w + c);
    SameRemainder(w, f, c);
    AllOnes(g);
    AllOnes(f + c);
  }

  lemma AllOnes(n: nat)
    requires n <= 0x1FFFE
    ensures n % 0xFFFF == 0 <==> n == 0 || n == 0xFFFF || n == 0x1FFFE
  {
  }

  lemma SameRemainder(w: nat, f: nat, c: nat)
    requires w % 0xFFFF == f % 0xFFFF
    ensures (w + c) % 0xFFFF == (f + c) % 0xFFFF
  {
    RemoveMultiple(w, c);
    RemoveMultiple(f, c);
  }

  lemma RemoveMultiple(w: nat, c: nat)
    ensures (w + c) % 0xFFFF == (w % 0xFFFF + c) % 0xFFFF
  {
    var k, l := w / 0xFFFF, (w % 0xFFFF + c) / 0xFFFF;
    assert w + c == 0xFFFF * (k + l) + (w % 0xFFFF + c) % 0xFFFF;
  }

  /**
   A header verifies - its words sum to 0xFFFF in one's complement - exactly when its checksum field
   is the calculated one, up to the two representations of zero.
   */
  lemma ChecksumVerifiesIff(pkt: seq<Half>, c: Half)
    requires IsHeader(pkt)
    ensures Fold(Sum(pkt[5 := c])) == 0xFFFF <==>
            c == CalculateChecksum(pkt) || (c == 0xFFFF && CalculateChecksum(pkt) == 0)
  {
    OtherWordsAreSum(pkt, c);
    TwoFoldsSuffice(pkt);
    FoldReachesAllOnes(OtherWords(pkt), c);
  }

  /** Storing the calculated checksum makes the whole header sum to 0xFFFF. */
  lemma StoredChecksumVerifies(pkt: seq<Half>)
    requires IsHeader(pkt)
    ensures Fold(Sum(pkt[5 := CalculateChecksum(pkt)])) == 0xFFFF
  {
    ChecksumVerifiesIff(pkt, CalculateChecksum(pkt));
  }
}
