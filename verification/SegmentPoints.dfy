/**
 Rules whose bounds are big-endian word sequences, and the two scans that collect one dimension's
 distinct end points, flagged as start, end or both, together with their ordering.
 */
module SegmentPoints {
  import opened Words
  import opened HyperSplit
  import opened HyperSplitBounds

  const FLAG: seq<nat> := [2, 2, 0, 0, 0, 0, 0, 0, 0, 0, 0]
  const BITNUMBER: seq<nat> := [32, 128, 64]
  const WIDE: nat := 4

  /** Words per value of dimension d. */
  function WordsOf(d: nat): (w: nat)
    requires d < DIM
    ensures 1 <= w <= WIDE
  {
    BITNUMBER[FLAG[d]] / 32
  }

  // ---------------------------------------------------------------------------
  // Rules and packets in words

  /** rule_t: per dimension a lower and an upper key of that dimension's width. */
  datatype KeyRule = KeyRule(pri: nat, lo: seq<Key>, hi: seq<Key>)

  predicate Shaped(r: KeyRule) {
    && |r.lo| == DIM && |r.hi| == DIM
    && (forall d :: 0 <= d < DIM ==> |r.lo[d]| == WordsOf(d) && |r.hi[d]| == WordsOf(d))
    && (forall d :: 0 <= d < DIM ==> Val(r.lo[d]) <= Val(r.hi[d]))
  }

  predicate AllShaped(rs: seq<KeyRule>) {
    forall i :: 0 <= i < |rs| ==> Shaped(rs[i])
  }

  function Denote(r: KeyRule): (q: Rule)
    requires Shaped(r)
    ensures WellFormed(q) && q.pri == r.pri
    ensures forall d :: 0 <= d < DIM ==> q.lo[d] == Val(r.lo[d]) && q.hi[d] == Val(r.hi[d])
  {
    Rule(r.pri, seq(DIM, d requires 0 <= d < DIM => Val(r.lo[d])), seq(DIM, d requires 0 <= d < DIM => Val(r.hi[d])))
  }

  function DenoteAll(rs: seq<KeyRule>): (q: seq<Rule>)
    requires AllShaped(rs)
    ensures |q| == |rs| && AllWellFormed(q)
    ensures forall i :: 0 <= i < |rs| ==> q[i] == Denote(rs[i])
  {
    seq(|rs|, i requires 0 <= i < |rs| => Denote(rs[i]))
  }

  lemma DenoteFront(rs: seq<KeyRule>)
    requires AllShaped(rs) && rs != []
    ensures DenoteAll(rs)[..|rs| - 1] == DenoteAll(rs[..|rs| - 1])
    ensures DenoteAll(rs)[|rs| - 1] == Denote(rs[|rs| - 1])
  {
  }

  /** packet[DIM][4]: every field in four words; the low WordsOf(d) of them are compared. */
  predicate PacketShaped(p: seq<Key>) {
    |p| == DIM && forall d :: 0 <= d < DIM ==> |p[d]| == WIDE
  }

  /** The words a lookup compares: the low ones of the four. */
  function FieldKey(p: seq<Key>, d: nat): (k: Key)
    requires PacketShaped(p) && d < DIM
    ensures |k| == WordsOf(d)
  {
    p[d][WIDE - WordsOf(d)..]
  }

  /** A packet's field in dimension d: the number in its four words, cut to the dimension's width. */
  function FieldsOf(p: seq<Key>): (f: Fields)
    requires PacketShaped(p)
  {
    seq(DIM, d requires 0 <= d < DIM => Val(p[d]) % (if WordsOf(d) == 2 then RADIX * RADIX else RADIX))
  }

  /** The compared words hold exactly that field; a value that fits the width is the field itself. */
  lemma FieldKeyHoldsField(p: seq<Key>, d: nat)
    requires PacketShaped(p) && d < DIM
    ensures Power(WordsOf(d)) > 0 && FieldsOf(p)[d] == Val(p[d]) % Power(WordsOf(d))
    ensures Val(FieldKey(p, d)) == FieldsOf(p)[d]
    ensures Val(p[d]) < Power(WordsOf(d)) ==> FieldsOf(p)[d] == Val(p[d])
  {
    hide Val;
    var w := WordsOf(d);
    assert Power(1) == RADIX && Power(2) == RADIX * RADIX;
    LowWordsSplit(p[d], w);
    ValBound(FieldKey(p, d));
    Remainders(Val(p[d][..WIDE - w]), Val(FieldKey(p, d)));
    Remainders(0, Val(p[d]));
  }

  lemma Remainders(h: nat, v: nat)
    ensures v < RADIX ==> (h * RADIX + v) % RADIX == v
    ensures v < RADIX * RADIX ==> (h * (RADIX * RADIX) + v) % (RADIX * RADIX) == v
  {
  }

  // ---------------------------------------------------------------------------
  // Segment points

  /** A distinct end point: flag 1 for a start, 2 for an end, 3 for both. */
  datatype Point = Point(key: Key, flag: nat) {
    predicate IsStart() { flag == 1 || flag == 3 }
    predicate IsEnd() { flag == 2 || flag == 3 }
  }

  ghost predicate Distinct(ps: seq<Point>) {
    forall i, j :: 0 <= i < j < |ps| ==> Val(ps[i].key) != Val(ps[j].key)
  }

  ghost predicate HasValue(ps: seq<Point>, v: nat) {
    exists i :: 0 <= i < |ps| && Val(ps[i].key) == v
  }

  /** The points are exactly the values in `starts` and `ends`, once each, flagged accordingly. */
  ghost predicate Summarises(ps: seq<Point>, w: nat, starts: set<nat>, ends: set<nat>) {
    && Distinct(ps)
    && (forall i :: 0 <= i < |ps| ==> PointFits(ps[i], w, starts, ends))
    && (forall v :: v in starts + ends ==> HasValue(ps, v))
  }

  ghost predicate PointFits(q: Point, w: nat, starts: set<nat>, ends: set<nat>) {
    && |q.key| == w && 1 <= q.flag <= 3
    && (q.IsStart() <==> Val(q.key) in starts)
    && (q.IsEnd() <==> Val(q.key) in ends)
  }

  ghost function Values(ps: seq<Point>): set<nat> {
    set i | 0 <= i < |ps| :: Val(ps[i].key)
  }

  lemma {:induction false} DistinctCount(ps: seq<Point>)
    requires Distinct(ps)
    ensures |Values(ps)| == |ps|
  {
    if ps == [] {
      assert Values(ps) == {};
    } else {
      var n := |ps| - 1;
      DistinctCount(ps[..n]);
      assert Values(ps) == Values(ps[..n]) + {Val(ps[n].key)} by {
        forall v | v in Values(ps) ensures v in Values(ps[..n]) + {Val(ps[n].key)} {
          var i :| 0 <= i < |ps| && Val(ps[i].key) == v;
          assert i < n ==> ps[..n][i] == ps[i];
        }
      }
      assert Val(ps[n].key) !in Values(ps[..n]);
    }
  }

  /** A summary has as many points as there are distinct values. */
  lemma SummaryLength(ps: seq<Point>, w: nat, starts: set<nat>, ends: set<nat>)
    requires Summarises(ps, w, starts, ends)
    ensures |ps| == |starts + ends|
  {
    DistinctCount(ps);
    assert Values(ps) == starts + ends by {
      forall v | v in Values(ps) ensures v in starts + ends {
        var i :| 0 <= i < |ps| && Val(ps[i].key) == v;
        assert PointFits(ps[i], w, starts, ends);
      }
      forall v | v in starts + ends ensures v in Values(ps) {
        assert HasValue(ps, v);
      }
    }
  }

  ghost function AddIf(b: bool, s: set<nat>, v: nat): set<nat> {
    if b then s + {v} else s
  }

  lemma SummaryExtended(ps: seq<Point>, w: nat, starts: set<nat>, ends: set<nat>, k: Key, bit: nat)
    requires Summarises(ps, w, starts, ends) && |k| == w && 1 <= bit <= 2
    requires Val(k) !in starts + ends
    ensures Summarises(ps + [Point(k, bit)], w, AddIf(bit == 1, starts, Val(k)), AddIf(bit == 2, ends, Val(k)))
  {
    var qs, v := ps + [Point(k, bit)], Val(k);
    var s, e := AddIf(bit == 1, starts, v), AddIf(bit == 2, ends, v);
    forall i | 0 <= i < |ps| ensures Val(ps[i].key) != v && PointFits(qs[i], w, s, e) {
      assert PointFits(ps[i], w, starts, ends);
    }
    forall x | x in s + e ensures HasValue(qs, x) {
      if x == v {
        assert Val(qs[|ps|].key) == v;
      } else {
        assert HasValue(ps, x);
        var i :| 0 <= i < |ps| && Val(ps[i].key) == x;
        assert Val(qs[i].key) == x;
      }
    }
  }

  lemma SummaryReflagged(ps: seq<Point>, w: nat, starts: set<nat>, ends: set<nat>, pos: nat, bit: nat)
    requires Summarises(ps, w, starts, ends) && pos < |ps| && 1 <= bit <= 2
    requires ps[pos].flag != 3 && ps[pos].flag != bit
    ensures var v := Val(ps[pos].key);
            Summarises(ps[pos := ps[pos].(flag := 3)], w, AddIf(bit == 1, starts, v), AddIf(bit == 2, ends, v))
  {
    var qs, v := ps[pos := ps[pos].(flag := 3)], Val(ps[pos].key);
    var s, e := AddIf(bit == 1, starts, v), AddIf(bit == 2, ends, v);
    forall i | 0 <= i < |ps| ensures Val(qs[i].key) == Val(ps[i].key) && PointFits(qs[i], w, s, e) {
      assert PointFits(ps[i], w, starts, ends);
      assert PointFits(ps[pos], w, starts, ends);
      assert i != pos ==> Val(ps[i].key) != v;
    }
    forall x | x in s + e ensures HasValue(qs, x) {
      var y := if x == v then v else x;
      if x != v {
        assert HasValue(ps, x);
        var i :| 0 <= i < |ps| && Val(ps[i].key) == x;
        assert Val(qs[i].key) == x;
      } else {
        assert Val(qs[pos].key) == v;
      }
    }
  }

  /**
   One pass of the inner scan: look for the value among the points found so far; flag it if it is
   there, append it if it is not. `fresh` tells whether diffSegPts_All goes up.
   */
  method MergePoint(points: array<Point>, used: nat, k: Key, bit: nat,
                    w: nat, ghost starts: set<nat>, ghost ends: set<nat>)
    returns (used': nat, counted: bool)
    requires used <= points.Length && |k| == w && 1 <= bit <= 2
    requires Summarises(points[..used], w, starts, ends)
    requires used < points.Length || Val(k) in starts + ends
    modifies points
    ensures used <= used' <= points.Length
    ensures used' == used + if Val(k) in starts + ends then 0 else 1
    ensures counted <==> if bit == 1 then Val(k) !in starts else Val(k) !in ends
    ensures Summarises(points[..used'], w, AddIf(bit == 1, starts, Val(k)), AddIf(bit == 2, ends, Val(k)))
  {
    ghost var ps := points[..used];
    for pos := 0 to used
      invariant points[..used] == ps
      invariant forall i :: 0 <= i < pos ==> Val(ps[i].key) != Val(k)
    {
      assert points[pos] == ps[pos] && PointFits(ps[pos], w, starts, ends);
      var order := Compare(k, points[pos].key);
      if order == 0 {
        used' := used;
        if points[pos].flag == 3 || points[pos].flag == bit {
          counted := false;
          assert AddIf(bit == 1, starts, Val(k)) == starts && AddIf(bit == 2, ends, Val(k)) == ends;
        } else {
          points[pos] := points[pos].(flag := 3);
          counted := true;
          SummaryReflagged(ps, w, starts, ends, pos, bit);
          assert points[..used] == ps[pos := ps[pos].(flag := 3)];
        }
        return;
      }
    }
    assert !HasValue(ps, Val(k));
    points[used] := Point(k, bit);
    used' := used + 1;
    counted := true;
    SummaryExtended(ps, w, starts, ends, k, bit);
    assert points[..used'] == ps + [Point(k, bit)];
  }

  /**
   segPoints: lower and upper keys of every rule, alternating. Each carries the bit (num & 1) + 1 the
   scan gives it, 1 for a start and 2 for an end.
   */
  function SegPoints(rs: seq<KeyRule>, d: nat): (k: seq<Point>)
    requires AllShaped(rs) && d < DIM
    ensures |k| == 2 * |rs|
    ensures rs != [] ==> k[0].flag == 1
    ensures forall j :: 0 <= j < |k| ==> |k[j].key| == WordsOf(d) && 1 <= k[j].flag <= 2
  {
    if rs == [] then []
    else
      var last := rs[|rs| - 1];
      SegPoints(rs[..|rs| - 1], d) + [Point(last.lo[d], 1), Point(last.hi[d], 2)]
  }

  /** The flag each point is listed with is the one the scan computes from its position. */
  lemma {:induction false} SegPointParity(rs: seq<KeyRule>, d: nat, j: nat)
    requires AllShaped(rs) && d < DIM && j < 2 * |rs|
    ensures SegPoints(rs, d)[j].flag == j % 2 + 1
    ensures SegPoints(rs, d)[j].key == if j % 2 == 0 then rs[j / 2].lo[d] else rs[j / 2].hi[d]
  {
    var n := |rs| - 1;
    if j < 2 * n {
      SegPointParity(rs[..n], d, j);
    }
  }

  /** The values with the given bit among the first n end points. */
  ghost function ValuesAt(k: seq<Point>, n: nat, bit: nat): set<nat>
    requires n <= |k|
  {
    if n == 0 then {} else AddIf(k[n - 1].flag == bit, ValuesAt(k, n - 1, bit), Val(k[n - 1].key))
  }

  lemma {:induction false} ValuesAtPrefix(a: seq<Point>, b: seq<Point>, n: nat, bit: nat)
    requires n <= |a|
    ensures ValuesAt(a + b, n, bit) == ValuesAt(a, n, bit)
  {
    if n > 0 {
      ValuesAtPrefix(a, b, n - 1, bit);
    }
  }

  lemma {:induction false} ValuesAtGrow(k: seq<Point>, m: nat, n: nat, bit: nat)
    requires m <= n <= |k|
    ensures ValuesAt(k, m, bit) <= ValuesAt(k, n, bit)
  {
    if m < n {
      ValuesAtGrow(k, m, n - 1, bit);
    }
  }

  lemma ValuesAtLastTwo(k: seq<Point>, a: Key, b: Key)
    ensures var m := k + [Point(a, 1), Point(b, 2)];
            && ValuesAt(m, |m|, 1) == ValuesAt(k, |k|, 1) + {Val(a)}
            && ValuesAt(m, |m|, 2) == ValuesAt(k, |k|, 2) + {Val(b)}
  {
    var m := k + [Point(a, 1), Point(b, 2)];
    ValuesAtPrefix(k, [Point(a, 1), Point(b, 2)], |k|, 1);
    ValuesAtPrefix(k, [Point(a, 1), Point(b, 2)], |k|, 2);
    assert ValuesAt(m, |k| + 1, 1) == ValuesAt(m, |k|, 1) + {Val(a)};
    assert ValuesAt(m, |k| + 1, 2) == ValuesAt(m, |k|, 2);
  }

  /** Scanned to the end, the two value sets are the rules' starts and ends. */
  lemma {:induction false} ValuesAtEnd(rs: seq<KeyRule>, d: nat)
    requires AllShaped(rs) && d < DIM
    ensures ValuesAt(SegPoints(rs, d), 2 * |rs|, 1) == Starts(DenoteAll(rs), d)
    ensures ValuesAt(SegPoints(rs, d), 2 * |rs|, 2) == Ends(DenoteAll(rs), d)
  {
    var q := DenoteAll(rs);
    if rs == [] {
      assert Starts(q, d) == {} && Ends(q, d) == {};
    } else {
      var n := |rs| - 1;
      var front := rs[..n];
      ValuesAtEnd(front, d);
      ValuesAtLastTwo(SegPoints(front, d), rs[n].lo[d], rs[n].hi[d]);
      DenoteFront(rs);
      PointsOfFrontAndLast(q, d);
    }
  }

  lemma FirstPoint(k: Key, w: nat)
    requires |k| == w
    ensures Summarises([Point(k, 1)], w, {Val(k)}, {})
  {
    assert HasValue([Point(k, 1)], Val(k)) by {
      assert [Point(k, 1)][0].key == k;
    }
  }

  lemma CountGrows(starts: set<nat>, ends: set<nat>, v: nat, bit: nat)
    requires 1 <= bit <= 2
    ensures |AddIf(bit == 1, starts, v)| + |AddIf(bit == 2, ends, v)|
            == |starts| + |ends| + if (if bit == 1 then v !in starts else v !in ends) then 1 else 0
  {
    assert v in starts ==> starts + {v} == starts;
    assert v in ends ==> ends + {v} == ends;
  }

  ghost predicate Scannable(seg: seq<Point>, w: nat) {
    && |seg| > 0 && seg[0].flag == 1
    && forall j :: 0 <= j < |seg| ==> |seg[j].key| == w && 1 <= seg[j].flag <= 2
  }

  /** The counting scan over one dimension's end points. */
  method CountPoints(seg: seq<Point>, w: nat) returns (diff: nat, all: nat)
    requires Scannable(seg, w)
    ensures diff == |ValuesAt(seg, |seg|, 1) + ValuesAt(seg, |seg|, 2)|
    ensures all == |ValuesAt(seg, |seg|, 1)| + |ValuesAt(seg, |seg|, 2)|
  {
    hide Summarises, Val;
    var points := new Point[|seg|];
    points[0] := seg[0];
    diff, all := 1, 1;
    ghost var starts, ends := {Val(seg[0].key)}, {};
    FirstPoint(seg[0].key, w);
    assert points[..1] == [Point(seg[0].key, 1)];
    assert ValuesAt(seg, 0, 1) == {} && ValuesAt(seg, 0, 2) == {};
    for num := 1 to |seg|
      invariant 1 <= diff <= num
      invariant starts == ValuesAt(seg, num, 1) && ends == ValuesAt(seg, num, 2)
      invariant Summarises(points[..diff], w, starts, ends)
      invariant all == |starts| + |ends|
    {
      var key, bit := seg[num].key, seg[num].flag;
      var counted;
      diff, counted := MergePoint(points, diff, key, bit, w, starts, ends);
      if counted {
        all := all + 1;
      }
      CountGrows(starts, ends, Val(key), bit);
      starts, ends := AddIf(bit == 1, starts, Val(key)), AddIf(bit == 2, ends, Val(key));
    }
    SummaryLength(points[..diff], w, starts, ends);
  }

  /** diffSegPts and diffSegPts_All of one dimension. */
  method CountSegmentPoints(rs: seq<KeyRule>, d: nat) returns (diff: nat, all: nat)
    requires AllShaped(rs) && d < DIM && rs != []
    ensures diff == |Starts(DenoteAll(rs), d) + Ends(DenoteAll(rs), d)|
    ensures all == SegCount(DenoteAll(rs), d)
  {
    ValuesAtEnd(rs, d);
    diff, all := CountPoints(SegPoints(rs, d), WordsOf(d));
  }

  lemma RoomForOneMore(starts: set<nat>, ends: set<nat>, all: set<nat>, v: nat)
    requires starts + ends <= all && v in all && v !in starts + ends
    ensures |starts + ends| < |all|
  {
    ProperSubsetCard(starts + ends, all, v);
  }

  /**
   Assign_SegmentPoints: the second scan, into a buffer with exactly as many slots as the first scan
   counted. It never runs past the buffer and leaves no slot unused.
   */
  method AssignPoints(seg: seq<Point>, w: nat, points: array<Point>)
    requires Scannable(seg, w)
    requires points.Length == |ValuesAt(seg, |seg|, 1) + ValuesAt(seg, |seg|, 2)|
    modifies points
    ensures Summarises(points[..], w, ValuesAt(seg, |seg|, 1), ValuesAt(seg, |seg|, 2))
  {
    hide Summarises, Val;
    ghost var everything := ValuesAt(seg, |seg|, 1) + ValuesAt(seg, |seg|, 2);
    ghost var starts, ends := {Val(seg[0].key)}, {};
    assert ValuesAt(seg, 0, 1) == {} && ValuesAt(seg, 0, 2) == {};
    ValuesAtGrow(seg, 1, |seg|, 1);
    assert Val(seg[0].key) in everything;
    points[0] := seg[0];
    var used := 1;
    FirstPoint(seg[0].key, w);
    assert points[..1] == [Point(seg[0].key, 1)];
    for num := 1 to |seg|
      invariant 1 <= used <= points.Length
      invariant starts == ValuesAt(seg, num, 1) && ends == ValuesAt(seg, num, 2)
      invariant Summarises(points[..used], w, starts, ends)
    {
      var key, bit := seg[num].key, seg[num].flag;
      SummaryLength(points[..used], w, starts, ends);
      ValuesAtGrow(seg, num, |seg|, 1);
      ValuesAtGrow(seg, num, |seg|, 2);
      ValuesAtGrow(seg, num + 1, |seg|, bit);
      if Val(key) !in starts + ends {
        RoomForOneMore(starts, ends, everything, Val(key));
      }
      var counted;
      used, counted := MergePoint(points, used, key, bit, w, starts, ends);
      starts, ends := AddIf(bit == 1, starts, Val(key)), AddIf(bit == 2, ends, Val(key));
    }
    SummaryLength(points[..used], w, starts, ends);
    assert points[..used] == points[..];
  }

  // ---------------------------------------------------------------------------
  // qsort on the points

  ghost predicate Ascending(ps: seq<Point>) {
    forall i, j :: 0 <= i < j < |ps| ==> Val(ps[i].key) < Val(ps[j].key)
  }

  function Insert(q: Point, ps: seq<Point>): (r: seq<Point>)
    ensures |r| == |ps| + 1
  {
    if ps == [] then [q]
    else if Val(q.key) < Val(ps[0].key) then [q] + ps
    else [ps[0]] + Insert(q, ps[1..])
  }

  /** The points by ascending value. */
  function SortPoints(ps: seq<Point>): (r: seq<Point>)
    ensures |r| == |ps|
  {
    if ps == [] then [] else Insert(ps[0], SortPoints(ps[1..]))
  }

  lemma {:induction false} InsertMembers(q: Point, ps: seq<Point>, x: Point)
    ensures x in Insert(q, ps) <==> x == q || x in ps
  {
    if ps != [] && !(Val(q.key) < Val(ps[0].key)) {
      InsertMembers(q, ps[1..], x);
      assert ps == [ps[0]] + ps[1..];
    }
  }

  lemma {:induction false} InsertAscends(q: Point, ps: seq<Point>)
    requires Ascending(ps) && !HasValue(ps, Val(q.key))
    ensures Ascending(Insert(q, ps))
  {
    if ps != [] && Val(q.key) >= Val(ps[0].key) {
      var rest := Insert(q, ps[1..]);
      assert Val(q.key) != Val(ps[0].key);
      forall i | 0 <= i < |ps[1..]| ensures Val(ps[1..][i].key) != Val(q.key) {
        assert ps[1..][i] == ps[i + 1];
      }
      InsertAscends(q, ps[1..]);
      forall i | 0 <= i < |rest| ensures Val(ps[0].key) < Val(rest[i].key) {
        assert rest[i] in rest;
        InsertMembers(q, ps[1..], rest[i]);
      }
    }
  }

  lemma {:induction false} SortMembers(ps: seq<Point>, x: Point)
    ensures x in SortPoints(ps) <==> x in ps
  {
    if ps != [] {
      SortMembers(ps[1..], x);
      InsertMembers(ps[0], SortPoints(ps[1..]), x);
      assert ps == [ps[0]] + ps[1..];
    }
  }

  lemma {:induction false} SortAscends(ps: seq<Point>)
    requires Distinct(ps)
    ensures Ascending(SortPoints(ps))
  {
    if ps != [] {
      var rest := SortPoints(ps[1..]);
      SortAscends(ps[1..]);
      forall i | 0 <= i < |rest| ensures Val(rest[i].key) != Val(ps[0].key) {
        assert rest[i] in rest;
        SortMembers(ps[1..], rest[i]);
        var j :| 0 <= j < |ps[1..]| && ps[1..][j] == rest[i];
        assert ps[j + 1] == rest[i];
      }
      InsertAscends(ps[0], rest);
    }
  }

  /** Sorting a summary gives the same summary in ascending order. */
  lemma SortSummarises(ps: seq<Point>, w: nat, starts: set<nat>, ends: set<nat>)
    requires Summarises(ps, w, starts, ends)
    ensures Summarises(SortPoints(ps), w, starts, ends) && Ascending(SortPoints(ps))
  {
    var r := SortPoints(ps);
    SortAscends(ps);
    forall i | 0 <= i < |r| ensures PointFits(r[i], w, starts, ends) {
      SortMembers(ps, r[i]);
      assert r[i] in r;
    }
    forall v | v in starts + ends ensures HasValue(r, v) {
      assert HasValue(ps, v);
      var i :| 0 <= i < |ps| && Val(ps[i].key) == v;
      SortMembers(ps, ps[i]);
      assert ps[i] in r;
    }
  }

  // ---------------------------------------------------------------------------
  // The median walk

  /** Events carried by the first n points: two for a point that is both start and end. */
  ghost function Weight(ps: seq<Point>, n: nat): nat
    requires n <= |ps|
  {
    if n == 0 then 0 else Weight(ps, n - 1) + if ps[n - 1].flag == 3 then 2 else 1
  }

  lemma BelowStep(s: set<nat>, b: nat, c: nat)
    requires b < c && forall v :: v in s && v < c ==> v <= b
    ensures |Below(s, c)| == |Below(s, b)| + if b in s then 1 else 0
  {
    assert Below(s, c) == Below(s, b) + if b in s then {b} else {};
  }

  lemma IndexOfValue(ps: seq<Point>, w: nat, starts: set<nat>, ends: set<nat>, v: nat) returns (i: nat)
    requires Summarises(ps, w, starts, ends) && (v in starts || v in ends)
    ensures i < |ps| && Val(ps[i].key) == v
  {
    assert v in starts + ends;
    assert HasValue(ps, v);
    i :| 0 <= i < |ps| && Val(ps[i].key) == v;
  }

  /** Below a value that separates the first n points from the rest lie only those points' values. */
  lemma ValuesBelow(ps: seq<Point>, w: nat, starts: set<nat>, ends: set<nat>, n: nat, c: nat)
    requires Ascending(ps) && Summarises(ps, w, starts, ends) && n <= |ps|
    requires forall i :: n <= i < |ps| ==> Val(ps[i].key) >= c
    ensures forall v :: v in starts && v < c ==> n > 0 && v <= Val(ps[n - 1].key)
    ensures forall v :: v in ends && v < c ==> n > 0 && v <= Val(ps[n - 1].key)
  {
    hide Val;
    forall v | (v in starts || v in ends) && v < c ensures n > 0 && v <= Val(ps[n - 1].key) {
      var i := IndexOfValue(ps, w, starts, ends, v);
    }
  }

  /** Counting points by weight counts the starts and ends below a value that separates them. */
  lemma {:induction false} WeightCounts(ps: seq<Point>, w: nat, starts: set<nat>, ends: set<nat>, n: nat, c: nat)
    requires Ascending(ps) && Summarises(ps, w, starts, ends) && n <= |ps|
    requires forall i :: 0 <= i < n ==> Val(ps[i].key) < c
    requires forall i :: n <= i < |ps| ==> Val(ps[i].key) >= c
    ensures Weight(ps, n) == |Below(starts, c)| + |Below(ends, c)|
  {
    hide Val;
    ValuesBelow(ps, w, starts, ends, n, c);
    if n == 0 {
      assert Below(starts, c) == {} && Below(ends, c) == {};
    } else {
      var b := Val(ps[n - 1].key);
      WeightCounts(ps, w, starts, ends, n - 1, b);
      assert PointFits(ps[n - 1], w, starts, ends);
      BelowStep(starts, b, c);
      BelowStep(ends, b, c);
    }
  }

  lemma TotalWeight(ps: seq<Point>, w: nat, starts: set<nat>, ends: set<nat>)
    requires Ascending(ps) && Summarises(ps, w, starts, ends) && ps != []
    ensures Weight(ps, |ps|) == |starts| + |ends|
  {
    var c := Val(ps[|ps| - 1].key) + 1;
    WeightCounts(ps, w, starts, ends, |ps|, c);
    forall v | v in starts || v in ends ensures v < c {
      var i := IndexOfValue(ps, w, starts, ends, v);
    }
    assert Below(starts, c) == starts && Below(ends, c) == ends;
  }

  /**
   The walk to the middle event: `second` is set when it stops on the end half of a point that is
   both a start and an end.
   */
  method MedianWalk(ps: seq<Point>, half: nat) returns (pos: nat, second: bool)
    requires half < Weight(ps, |ps|)
    ensures pos < |ps| && (second ==> ps[pos].flag == 3)
    ensures Weight(ps, pos) + (if second then 1 else 0) == half
  {
    var posAll := 0;
    pos, second := 0, false;
    while posAll < half
      invariant pos <= |ps| && posAll == Weight(ps, pos) && posAll <= half && !second
    {
      if ps[pos].flag == 3 {
        posAll := posAll + 1;
        if posAll == half {
          second := true;
          return;
        }
      }
      pos := pos + 1;
      posAll := posAll + 1;
    }
  }
}
