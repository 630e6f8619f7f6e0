/**
 The 5-tuple of a packet, the direction-blind match of flow.c and the direction-symmetric hash of
 tluhash.h.
 */
module FlowHash {

  const BUCKET_NUM: nat := 65536

  datatype Tuple = Tuple(sip: bv32, dip: bv32, sport: bv16, dport: bv16, proto: bv8)

  /** The same conversation seen from the other end. */
  function Reverse(t: Tuple): Tuple {
    Tuple(t.dip, t.sip, t.dport, t.sport, t.proto)
  }

  /** FlowMatch: equal in either direction. */
  predicate FlowMatch(f: Tuple, m: Tuple) {
    || (f.sip == m.sip && f.dip == m.dip && f.sport == m.sport && f.dport == m.dport && f.proto == m.proto)
    || (f.sip == m.dip && f.dip == m.sip && f.sport == m.dport && f.dport == m.sport && f.proto == m.proto)
  }

  /** One mixing round: each word loses the other two and is folded with a shift of the one changed last. */
  function RoundA(a: bv32, b: bv32, c: bv32, i: bv6): bv32 requires i < 32 { (a - b - c) ^ (c >> i) }
  function RoundB(a: bv32, b: bv32, c: bv32, j: bv6): bv32 requires j < 32 { (b - c - a) ^ (a << j) }
  function RoundC(a: bv32, b: bv32, c: bv32, k: bv6): bv32 requires k < 32 { (c - a - b) ^ (b >> k) }

  /** TluHash: three rounds on 32-bit words with wrap-around; the third word is the hash. */
  function Mix(u1: bv32, u2: bv32): bv32 {
    var a, b, c := u2 + 0x9e3779b9, u1 + 0x9e3779b9, 0;
    var a := RoundA(a, b, c, 13); var b := RoundB(a, b, c, 8); var c := RoundC(a, b, c, 13);
    var a := RoundA(a, b, c, 12); var b := RoundB(a, b, c, 16); var c := RoundC(a, b, c, 5);
    var a := RoundA(a, b, c, 3); var b := RoundB(a, b, c, 10); var c := RoundC(a, b, c, 15);
    c
  }

  /** TluHash as the code runs it: nine reassignments of three locals. */
  method TluHash(u1: bv32, u2: bv32) returns (c: bv32)
    ensures c == Mix(u1, u2)
  {
    hide RoundA, RoundB, RoundC;
    var a, b := u2 + 0x9e3779b9, u1 + 0x9e3779b9;
    c := 0;
    a := RoundA(a, b, c, 13);
    b := RoundB(a, b, c, 8);
    c := RoundC(a, b, c, 13);
    a := RoundA(a, b, c, 12);
    b := RoundB(a, b, c, 16);
    c := RoundC(a, b, c, 5);
    a := RoundA(a, b, c, 3);
    b := RoundB(a, b, c, 10);
    c := RoundC(a, b, c, 15);
  }

  function SideHash(ip: bv32, port: bv16): bv32 {
    Mix(ip, port as bv32)
  }

  function ProtoHash(proto: bv8): bv32 {
    Mix(proto as bv32, 0)
  }

  function Combine(s: bv32, d: bv32, p: bv32): bv32 {
    s ^ d ^ p
  }

  /** flow_hashfn */
  function HashValue(t: Tuple): bv32 {
    Combine(SideHash(t.sip, t.sport), SideHash(t.dip, t.dport), ProtoHash(t.proto))
  }

  function Bucket(h: bv32): (b: nat)
    ensures b < BUCKET_NUM
  {
    (h & 0xFFFF) as bv16 as nat
  }

  /** flowhashfn: the bucket index, FLOW_BUCKET_MASK applied. */
  function BucketOf(t: Tuple): (b: nat)
    ensures b < BUCKET_NUM
  {
    Bucket(HashValue(t))
  }

  lemma CombineSwaps(s: bv32, d: bv32, p: bv32)
    ensures Combine(s, d, p) == Combine(d, s, p)
  {
  }

  /** Both directions of a conversation hash to the same bucket. */
  lemma HashIsSymmetric(t: Tuple)
    ensures BucketOf(Reverse(t)) == BucketOf(t)
  {
    hide SideHash, ProtoHash, Combine, Bucket;
    CombineSwaps(SideHash(t.sip, t.sport), SideHash(t.dip, t.dport), ProtoHash(t.proto));
  }

  /** FlowMatch says exactly: the same tuple or its reverse. */
  lemma MatchIsBidirectional(f: Tuple, m: Tuple)
    ensures FlowMatch(f, m) <==> f == m || f == Reverse(m)
    ensures FlowMatch(f, m) ==> BucketOf(f) == BucketOf(m)
  {
    hide BucketOf;
    if f == Reverse(m) {
      HashIsSymmetric(m);
    }
  }

  lemma MatchIsEquivalence(a: Tuple, b: Tuple, c: Tuple)
    ensures FlowMatch(a, a)
    ensures FlowMatch(a, b) ==> FlowMatch(b, a)
    ensures FlowMatch(a, b) && FlowMatch(b, c) ==> FlowMatch(a, c)
  {
  }

  /** Hash values the code's arithmetic gives for one conversation: shifts, constants and mask as written. */
  lemma KnownHashes()
    ensures Mix(0x0a000001, 80) == 0xa0ed4228 && Mix(0xc0a80102, 51000) == 0x5bfcdbf9 && Mix(6, 0) == 0xd0736f96
    ensures BucketOf(Tuple(0x0a000001, 0xc0a80102, 80, 51000, 6)) == 63047
  {
    KnownMixes();
    hide Mix;
    assert Combine(0xa0ed4228, 0x5bfcdbf9, 0xd0736f96) == 0x2b62f647;
    assert (0x2b62f647 as bv32) & 0xFFFF == 0xf647;
  }

  lemma KnownMixes()
    ensures Mix(0x0a000001, 80) == 0xa0ed4228 && Mix(0xc0a80102, 51000) == 0x5bfcdbf9 && Mix(6, 0) == 0xd0736f96
  {
  }

  /** flowhashfn as the code calls it: one index for a packet and for its answer, whichever end asks. */
  method FlowHashIndex(saddr: bv32, daddr: bv32, sport: bv16, dport: bv16, prot: bv8) returns (index: nat)
    ensures index < BUCKET_NUM
    ensures forall t :: FlowMatch(t, Tuple(saddr, daddr, sport, dport, prot)) ==> index == BucketOf(t)
  {
    hide FlowMatch, Mix, Combine, Bucket;
    var s := TluHash(saddr, sport as bv32);
    var d := TluHash(daddr, dport as bv32);
    var p := TluHash(prot as bv32, 0);
    index := Bucket(Combine(s, d, p));
    var key := Tuple(saddr, daddr, sport, dport, prot);
    assert index == BucketOf(key);
    forall t | FlowMatch(t, key) ensures index == BucketOf(t) {
      MatchIsBidirectional(t, key);
    }
  }
}
