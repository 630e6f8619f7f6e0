/** An address and a prefix length as the interval of addresses they cover (section 3.1 of RFC 4632). */
module IpRange {
  import opened Wrappers
  import opened Arithmetic

  lemma {:induction false} PowAdd(a: nat, b: nat)
    ensures Pow2(a + b) == Pow2(a) * Pow2(b)
  {
    if a > 0 {
      PowAdd(a - 1, b);
      assert Pow2(a + b) == 2 * Pow2(a - 1 + b);
      assert 2 * (Pow2(a - 1) * Pow2(b)) == (2 * Pow2(a - 1)) * Pow2(b);
    }
  }

  lemma PowBytes()
    ensures Pow2(0) == 1 && Pow2(8) == 0x100 && Pow2(16) == 0x1_0000 && Pow2(24) == 0x100_0000 && Pow2(32) == 0x1_0000_0000
  {
    assert Pow2(4) == 16;
    PowAdd(4, 4);
    PowAdd(8, 8);
    PowAdd(8, 16);
    PowAdd(16, 16);
  }

  type Octet = x: int | 0 <= x < 256

  /** The four octets as one address, most significant first. */
  function Join(t: seq<int>): int
    requires |t| == 4
  {
    ((t[0] * 256 + t[1]) * 256 + t[2]) * 256 + t[3]
  }

  /** The value of an octet's k lowest bits, and the value they have when all are set. */
  function LowBits(x: Octet, k: nat): (r: Octet)
    requires k < 8
    ensures r <= x
  {
    if k == 0 then 0 else if k == 1 then x % 2 else if k == 2 then x % 4 else if k == 3 then x % 8
    else if k == 4 then x % 16 else if k == 5 then x % 32 else if k == 6 then x % 64 else x % 128
  }

  function Ones(k: nat): (r: Octet)
    requires k < 8
  {
    if k == 0 then 0 else if k == 1 then 1 else if k == 2 then 3 else if k == 3 then 7
    else if k == 4 then 15 else if k == 5 then 31 else if k == 6 then 63 else 127
  }

  /** Address x is in the k-th aligned block of 2^n addresses. */
  predicate InBlock(x: int, k: int, n: nat) {
    k * Pow2(n) <= x < (k + 1) * Pow2(n)
  }

  /** The addresses agree on all but their n lowest bits. */
  ghost predicate SamePrefix(x: int, y: int, n: nat) {
    exists k :: InBlock(x, k, n) && InBlock(y, k, n)
  }

  /** An octet's high bits, as a count of blocks of 2^k. */
  lemma OctetBlocks(x: Octet, k: nat) returns (h: nat)
    requires k < 8
    ensures x - LowBits(x, k) == h * Pow2(k) && Ones(k) + 1 == Pow2(k) && LowBits(x, k) < Pow2(k)
    ensures h < Pow2(8 - k)
  {
    assert Pow2(1) == 2 && Pow2(2) == 4 && Pow2(3) == 8 && Pow2(4) == 16 && Pow2(5) == 32 && Pow2(6) == 64 && Pow2(7) == 128;
    PowBytes();
    h := if k == 0 then x else if k == 1 then x / 2 else if k == 2 then x / 4 else if k == 3 then x / 8
    else if k == 4 then x / 16 else if k == 5 then x / 32 else if k == 6 then x / 64 else x / 128;
  }

  /** Octets of the first and last address: those below the boundary octet cleared or set, the boundary octet in part. */
  function StartOctets(t: seq<Octet>, q: nat, r: nat): (u: seq<Octet>)
    requires |t| == 4 && q <= 4 && r < 8
    ensures |u| == 4
  {
    seq(4, i requires 0 <= i < 4 => if i > 3 - q then 0 else if i == 3 - q then t[i] - LowBits(t[i], r) else t[i])
  }

  function EndOctets(t: seq<Octet>, q: nat, r: nat): (u: seq<int>)
    requires |t| == 4 && q <= 4 && r < 8
    ensures |u| == 4
  {
    seq(4, i requires 0 <= i < 4 => if i > 3 - q then 255 else if i == 3 - q then t[i] - LowBits(t[i], r) + Ones(r) else t[i])
  }

  lemma Distribute(a: int, b: int, c: int)
    ensures (a + b) * c == a * c + b * c
  {
  }

  lemma Associate(a: int, b: int, c: int)
    ensures (a * b) * c == a * (b * c)
  {
  }

  lemma NextMultiple(j: int, k: int, p: nat)
    ensures (j + 1) * p == j * p + p
    ensures j < k ==> (j + 1) * p <= k * p
  {
    if j < k {
      Distribute(j + 1, k - j - 1, p);
      assert (k - j - 1) * p >= 0;
    }
    Distribute(j, 1, p);
  }

  /** The boundary octet's high bits, with the octets above it, count blocks of p. */
  lemma HighPart(hi: nat, h: nat, p: nat, s: nat)
    requires p * s == 256
    ensures hi * 256 + h * p == (hi * s + h) * p
  {
    Associate(hi, s, p);
    Distribute(hi * s, h, p);
  }

  /** Below the boundary: at most the block size p * w, exactly one less when every bit is set. */
  lemma LowPart(low: nat, lo: nat, p: nat, w: nat)
    requires low < p && lo < w
    ensures 0 <= low * w + lo < p * w && (p - 1) * w + (w - 1) == p * w - 1
  {
    NextMultiple(low, p, w);
    NextMultiple(p - 1, p, w);
  }

  /** The boundary octet cuts the address at a multiple of the block size p * w. */
  lemma BlockArithmetic(top: nat, k: nat, low: nat, lo: nat, p: nat, w: nat)
    requires top == k * p && low < p && lo < w
    ensures top * w == k * (p * w)
    ensures k * (p * w) <= (top + low) * w + lo < (k + 1) * (p * w)
    ensures (top + (p - 1)) * w + (w - 1) == (k + 1) * (p * w) - 1
  {
    Associate(k, p, w);
    Distribute(top, low, w);
    Distribute(top, p - 1, w);
    LowPart(low, lo, p, w);
    NextMultiple(k, k, p * w);
  }

  /** Octets above and below the boundary octet, each joined into one number. */
  function Above(t: seq<Octet>, q: nat): nat
    requires |t| == 4 && q < 4
  {
    if q == 3 then 0 else if q == 2 then t[0] else if q == 1 then Two(t[0], t[1]) else Two(Two(t[0], t[1]), t[2])
  }

  function Below(t: seq<Octet>, q: nat): nat
    requires |t| == 4 && q < 4
  {
    if q == 0 then 0 else if q == 1 then t[3] else if q == 2 then Two(t[2], t[3]) else Two(Two(t[1], t[2]), t[3])
  }

  function Two(a: nat, b: nat): nat { a * 256 + b }

  function Width(q: nat): nat
    requires q < 4
  {
    if q == 0 then 1 else if q == 1 then 0x100 else if q == 2 then 0x1_0000 else 0x100_0000
  }

  lemma JoinAround(t: seq<Octet>, q: nat, r: nat)
    requires |t| == 4 && q < 4 && r < 8
    ensures var c, low, w := t[3 - q], LowBits(t[3 - q], r), Width(q);
      && Join(t) == (Above(t, q) * 256 + c) * w + Below(t, q) && Below(t, q) < w
      && Join(StartOctets(t, q, r)) == (Above(t, q) * 256 + (c - low)) * w
      && Join(EndOctets(t, q, r)) == (Above(t, q) * 256 + (c - low) + Ones(r)) * w + (w - 1)
  {
    hide LowBits, Ones;
  }

  /** The octets of the start and of the end bound exactly one aligned block, the one that holds the address. */
  lemma OctetsBoundBlock(t: seq<Octet>, q: nat, r: nat) returns (k: nat)
    requires |t| == 4 && (q < 4 || (q == 4 && r == 0)) && r < 8
    ensures Join(StartOctets(t, q, r)) == k * Pow2(8 * q + r) && Join(EndOctets(t, q, r)) == (k + 1) * Pow2(8 * q + r) - 1
    ensures InBlock(Join(t), k, 8 * q + r)
  {
    PowBytes();
    if q == 4 {
      k := 0;
    } else {
      hide Pow2, Join, Above, Below, Width, LowBits, Ones;
      k := BoundaryBlock(t, q, r);
      PowAdd(r, 8 * q);
      WidthIsPower(q);
    }
  }

  lemma WidthIsPower(q: nat)
    requires q < 4
    ensures Width(q) == Pow2(8 * q)
  {
    PowBytes();
  }

  lemma BoundaryBlock(t: seq<Octet>, q: nat, r: nat) returns (k: nat)
    requires |t| == 4 && q < 4 && r < 8
    ensures var size := Pow2(r) * Width(q);
      && Join(StartOctets(t, q, r)) == k * size && Join(EndOctets(t, q, r)) == (k + 1) * size - 1
      && k * size <= Join(t) < (k + 1) * size
  {
    hide Pow2, Join, Above, Below, Width, LowBits, Ones;
    var h := OctetBlocks(t[3 - q], r);
    PowAdd(r, 8 - r);
    PowBytes();
    JoinAround(t, q, r);
    HighPart(Above(t, q), h, Pow2(r), Pow2(8 - r));
    k := Above(t, q) * Pow2(8 - r) + h;
    BlockArithmetic(Above(t, q) * 256 + h * Pow2(r), k, LowBits(t[3 - q], r), Below(t, q), Pow2(r), Width(q));
  }

  lemma BlockIsUnique(x: int, j: int, k: int, n: nat)
    requires InBlock(x, j, n) && InBlock(x, k, n)
    ensures j == k
  {
    NextMultiple(j, k, Pow2(n));
    NextMultiple(k, j, Pow2(n));
  }

  /** The interval holds exactly the addresses that share all but the n lowest bits with ip. */
  ghost predicate Covers(first: int, last: int, ip: int, n: nat) {
    forall x :: first <= x <= last <==> SamePrefix(x, ip, n)
  }

  function OctetsOf(ip: nat): (t: seq<Octet>)
    requires ip < 0x1_0000_0000
    ensures |t| == 4 && Join(t) == ip
  {
    var a := ip / 256;
    var b := a / 256;
    [b / 256, b % 256, a % 256, ip % 256]
  }

  lemma NoBits()
    ensures Ones(0) == 0 && forall x: Octet :: LowBits(x, 0) == 0
  {
  }

  /**
   ReadIPRange: the interval holds exactly the addresses that share the prefix. None stands for an octet index
   outside the four, which the unsigned subtraction produces exactly for prefix lengths above 32.
   */
  method ReadIPRange(ipnet: nat, prefix: nat) returns (range: Option<(int, int)>)
    requires ipnet < 0x1_0000_0000 && prefix < 0x1_0000_0000
    ensures range.Some? <==> prefix <= 32
    ensures range.Some? ==> var (first, last) := range.value;
      first <= ipnet <= last && last - first + 1 == Pow2(32 - prefix) && Covers(first, last, ipnet, 32 - prefix)
  {
    hide Pow2, Join, LowBits, Ones, OctetsOf;
    var t := OctetsOf(ipnet);
    var mask := if prefix <= 32 then 32 - prefix else 0x1_0000_0000 + 32 - prefix;
    var masklit1, masklit2 := mask / 8, mask % 8;
    if masklit1 > 4 || (masklit2 != 0 && masklit1 > 3) {
      return None;
    }
    var ptrange := new int[4](i requires 0 <= i < 4 => t[i]);
    ghost var k := OctetsBoundBlock(t, masklit1, masklit2);
    NoBits();

    Fill(ptrange, masklit1, 0);
    if masklit2 != 0 {
      ptrange[3 - masklit1] := t[3 - masklit1] - LowBits(t[3 - masklit1], masklit2);
    }
    assert ptrange[..] == StartOctets(t, masklit1, masklit2);
    var first := Join(ptrange[..]);

    Fill(ptrange, masklit1, 255);
    if masklit2 != 0 {
      ptrange[3 - masklit1] := ptrange[3 - masklit1] + Ones(masklit2);
    }
    assert ptrange[..] == EndOctets(t, masklit1, masklit2);
    var last := Join(ptrange[..]);
    BlockIsInterval(ipnet, k, mask);
    range := Some((first, last));
  }

  lemma BlockIsInterval(y: int, k: int, n: nat)
    requires InBlock(y, k, n)
    ensures Covers(k * Pow2(n), (k + 1) * Pow2(n) - 1, y, n)
    ensures (k + 1) * Pow2(n) == k * Pow2(n) + Pow2(n)
  {
    NextMultiple(k, k, Pow2(n));
    forall x ensures k * Pow2(n) <= x <= (k + 1) * Pow2(n) - 1 <==> SamePrefix(x, y, n) {
      if SamePrefix(x, y, n) {
        var j :| InBlock(x, j, n) && InBlock(y, j, n);
        BlockIsUnique(y, j, k, n);
      }
    }
  }

  /** The last `count` octets set to one value, from the lowest up. */
  method Fill(octets: array<int>, count: nat, value: int)
    requires octets.Length == 4 && count <= 4
    modifies octets
    ensures forall i :: 0 <= i < 4 ==> octets[i] == if i > 3 - count then value else old(octets[i])
  {
    var i := 3;
    while i > 3 - count
      invariant 3 - count <= i <= 3
      invariant forall j :: 0 <= j < 4 ==> octets[j] == if j > i then value else old(octets[j])
    {
      octets[i] := value;
      i := i - 1;
    }
  }
}
