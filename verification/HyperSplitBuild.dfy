/**
 BuildHSTree and the lookups over word-valued rules, each proved against the number-level
 specification in HyperSplit.
 */
module HyperSplitBuild {
  import opened Words
  import opened HyperSplit
  import opened HyperSplitBounds
  import opened SegmentPoints

  // ---------------------------------------------------------------------------
  // Choosing the split

  /** The dimension loop: the first dimension with the most segment points, and both its counts. */
  method ChooseDimension(rs: seq<KeyRule>) returns (d2s: nat, diff: nat, all: nat)
    requires AllShaped(rs) && rs != []
    ensures IsSplitDimension(DenoteAll(rs), d2s)
    ensures all == SegCount(DenoteAll(rs), d2s)
    ensures diff == |Starts(DenoteAll(rs), d2s) + Ends(DenoteAll(rs), d2s)|
  {
    hide SegCount, Starts, Ends, DenoteAll;
    ghost var rules := DenoteAll(rs);
    d2s, diff, all := 0, 1, 1;
    for dim := 0 to DIM
      invariant dim == 0 ==> all == 1 && d2s == 0
      invariant dim > 0 ==> d2s < dim && all == SegCount(rules, d2s)
      invariant dim > 0 ==> diff == |Starts(rules, d2s) + Ends(rules, d2s)|
      invariant forall e :: 0 <= e < dim ==> SegCount(rules, e) <= all
      invariant forall e :: 0 <= e < dim && e < d2s ==> SegCount(rules, e) < all
    {
      AtLeastTwoPoints(rules, dim);
      var diffSegPts, diffSegPtsAll := CountSegmentPoints(rs, dim);
      if all < diffSegPtsAll {
        d2s, diff, all := dim, diffSegPts, diffSegPtsAll;
      }
    }
  }

  lemma AtLeastTwoPoints(rules: seq<Rule>, d: nat)
    requires AllWellFormed(rules) && d < DIM && rules != []
    ensures SegCount(rules, d) >= 2
  {
    NonemptyHasPoints(rules, d);
  }

  /** What the sorted points say about the rules' bounds in this dimension. */
  lemma PointsCoverRules(ps: seq<Point>, rules: seq<Rule>, d: nat, w: nat, i: nat)
    requires AllWellFormed(rules) && d < DIM && i < |rules| && ps != []
    requires Ascending(ps) && Summarises(ps, w, Starts(rules, d), Ends(rules, d))
    ensures Val(ps[0].key) <= rules[i].lo[d] && rules[i].hi[d] <= Val(ps[|ps| - 1].key)
  {
    var a := IndexOfValue(ps, w, Starts(rules, d), Ends(rules, d), rules[i].lo[d]);
    var b := IndexOfValue(ps, w, Starts(rules, d), Ends(rules, d), rules[i].hi[d]);
  }

  lemma PointFitsAt(ps: seq<Point>, w: nat, starts: set<nat>, ends: set<nat>, i: nat)
    requires Summarises(ps, w, starts, ends) && i < |ps|
    ensures PointFits(ps[i], w, starts, ends)
  {
  }

  /** Where the walk stops is a median event: a start at its value, or an end just before its cut. */
  lemma WalkFindsMedian(ps: seq<Point>, rules: seq<Rule>, d: nat, w: nat, pos: nat, second: bool)
    requires AllWellFormed(rules) && d < DIM
    requires Ascending(ps) && Summarises(ps, w, Starts(rules, d), Ends(rules, d))
    requires pos < |ps| && (second ==> ps[pos].flag == 3)
    requires Weight(ps, pos) + (if second then 1 else 0) == SegCount(rules, d) / 2
    ensures var v := Val(ps[pos].key);
            IsMedianCut(rules, d, if ps[pos].flag == 2 || second then v + 1 else v)
  {
    hide Val, Summarises, Starts, Ends, Below;
    var s, e := Starts(rules, d), Ends(rules, d);
    var v := Val(ps[pos].key);
    WeightCounts(ps, w, s, e, pos, v);
    PointFitsAt(ps, w, s, e, pos);
    BelowStep(s, v, v + 1);
    BelowStep(e, v, v + 1);
  }

  /**
   The split point: range[0] = [lo, leftHi] and range[1] = [cut, hi], computed in 128-bit buffers with
   Subtract and Add and read back at the dimension's width.
   */
  method ChooseCut(rs: seq<KeyRule>, d: nat, diff: nat, all: nat)
    returns (lo: Key, leftHi: Key, cut: Key, hi: Key)
    requires AllShaped(rs) && rs != [] && d < DIM
    requires all == SegCount(DenoteAll(rs), d) && all >= 3
    requires diff == |Starts(DenoteAll(rs), d) + Ends(DenoteAll(rs), d)|
    ensures |lo| == |leftHi| == |cut| == |hi| == WordsOf(d)
    ensures IsMedianCut(DenoteAll(rs), d, Val(cut))
    ensures Val(lo) <= Val(leftHi) && Val(leftHi) + 1 == Val(cut) && Val(cut) <= Val(hi)
    ensures forall i :: 0 <= i < |rs| ==> Val(lo) <= Val(rs[i].lo[d]) && Val(rs[i].hi[d]) <= Val(hi)
  {
    hide Val, Summarises, Ascending, Starts, Ends, IsMedianCut, Weight;
    ghost var rules := DenoteAll(rs);
    var w := WordsOf(d);
    var ps := SortedPoints(rs, d, diff);
    TotalWeight(ps, w, Starts(rules, d), Ends(rules, d));
    var pos, second := MedianWalk(ps, all / 2);
    WalkFindsMedian(ps, rules, d, w, pos, second);
    PointWidth(ps, w, Starts(rules, d), Ends(rules, d), pos);
    PointWidth(ps, w, Starts(rules, d), Ends(rules, d), 0);
    PointWidth(ps, w, Starts(rules, d), Ends(rules, d), |ps| - 1);
    leftHi, cut := CutAround(ps[pos].key, ps[pos].flag == 2 || second, rs, d);
    lo, hi := ps[0].key, ps[|ps| - 1].key;
    CutInsideHull(ps, rules, d, w, Val(cut));
    forall i | 0 <= i < |rs| ensures Val(lo) <= Val(rs[i].lo[d]) && Val(rs[i].hi[d]) <= Val(hi) {
      PointsCoverRules(ps, rules, d, w, i);
    }
  }

  lemma PointWidth(ps: seq<Point>, w: nat, starts: set<nat>, ends: set<nat>, i: nat)
    requires Summarises(ps, w, starts, ends) && i < |ps|
    ensures |ps[i].key| == w
  {
    assert PointFits(ps[i], w, starts, ends);
  }

  method SortedPoints(rs: seq<KeyRule>, d: nat, diff: nat) returns (ps: seq<Point>)
    requires AllShaped(rs) && rs != [] && d < DIM
    requires diff == |Starts(DenoteAll(rs), d) + Ends(DenoteAll(rs), d)|
    ensures ps != [] && Ascending(ps)
    ensures Summarises(ps, WordsOf(d), Starts(DenoteAll(rs), d), Ends(DenoteAll(rs), d))
  {
    hide Val, Summarises;
    ValuesAtEnd(rs, d);
    NonemptyHasPoints(DenoteAll(rs), d);
    var buffer := new Point[diff];
    AssignPoints(SegPoints(rs, d), WordsOf(d), buffer);
    SortSummarises(buffer[..], WordsOf(d), Starts(DenoteAll(rs), d), Ends(DenoteAll(rs), d));
    SummaryLength(buffer[..], WordsOf(d), Starts(DenoteAll(rs), d), Ends(DenoteAll(rs), d));
    ps := SortPoints(buffer[..]);
  }

  lemma CutInsideHull(ps: seq<Point>, rules: seq<Rule>, d: nat, w: nat, c: nat)
    requires AllWellFormed(rules) && d < DIM && ps != [] && SegCount(rules, d) >= 3
    requires Ascending(ps) && Summarises(ps, w, Starts(rules, d), Ends(rules, d))
    requires IsMedianCut(rules, d, c)
    ensures Val(ps[0].key) < c <= Val(ps[|ps| - 1].key)
  {
    CutSeparates(rules, d, c);
    var i :| 0 <= i < |rules| && rules[i].lo[d] < c;
    var j :| 0 <= j < |rules| && c <= rules[j].hi[d];
    PointsCoverRules(ps, rules, d, w, i);
    PointsCoverRules(ps, rules, d, w, j);
  }

  /** Both sides of the cut in a 128-bit buffer: one below a start, or one above an end; no wrap. */
  method CutAround(key: Key, after: bool, ghost rs: seq<KeyRule>, ghost d: nat) returns (leftHi: Key, cut: Key)
    requires AllShaped(rs) && d < DIM && |key| == WordsOf(d)
    requires SegCount(DenoteAll(rs), d) >= 3
    requires IsMedianCut(DenoteAll(rs), d, if after then Val(key) + 1 else Val(key))
    ensures |leftHi| == |cut| == |key|
    ensures Val(cut) == (if after then Val(key) + 1 else Val(key))
    ensures Val(leftHi) + 1 == Val(cut)
  {
    hide IsMedianCut, SegCount, DenoteAll, Shaped;
    CutFits(rs, d, if after then Val(key) + 1 else Val(key));
    var w := |key|;
    PowerGrows(w, WIDE);
    var p2s := new Word[WIDE];
    AssignDiffBits(p2s, key);
    if !after {
      Subtract(p2s);
    }
    leftHi := p2s[WIDE - w..];
    LeadingWordsAreZero(p2s[..], w);
    assert p2s[..][WIDE - w..] == leftHi;
    var _ := Add(p2s);
    cut := p2s[WIDE - w..];
    LeadingWordsAreZero(p2s[..], w);
    assert p2s[..][WIDE - w..] == cut;
  }

  lemma {:induction false} PowerGrows(m: nat, n: nat)
    requires m <= n
    ensures Power(m) <= Power(n)
  {
    if m < n {
      PowerGrows(m, n - 1);
    }
  }

  lemma CutFits(rs: seq<KeyRule>, d: nat, c: nat)
    requires AllShaped(rs) && d < DIM && SegCount(DenoteAll(rs), d) >= 3 && IsMedianCut(DenoteAll(rs), d, c)
    ensures 0 < c < Power(WordsOf(d))
  {
    CutSeparates(DenoteAll(rs), d, c);
    var j :| 0 <= j < |DenoteAll(rs)| && c <= DenoteAll(rs)[j].hi[d];
    ValBound(rs[j].hi[d]);
  }

  // ---------------------------------------------------------------------------
  // Child rule lists

  predicate Overlaps(r: KeyRule, d: nat, a: Key, b: Key)
    requires Shaped(r) && d < DIM
  {
    Val(r.lo[d]) <= Val(b) && Val(r.hi[d]) >= Val(a)
  }

  /** A rule copied into a child and trimmed to [a, b] in dimension d. */
  function Trim(r: KeyRule, d: nat, a: Key, b: Key): (q: KeyRule)
    requires Shaped(r) && d < DIM && |a| == |b| == WordsOf(d) && Val(a) <= Val(b) && Overlaps(r, d, a, b)
    ensures Shaped(q)
  {
    KeyRule(r.pri,
            if Val(r.lo[d]) < Val(a) then r.lo[d := a] else r.lo,
            if Val(r.hi[d]) > Val(b) then r.hi[d := b] else r.hi)
  }

  /** The trimmed rules among the first n, in order. */
  function ChildRules(rs: seq<KeyRule>, n: nat, d: nat, a: Key, b: Key): (q: seq<KeyRule>)
    requires AllShaped(rs) && n <= |rs| && d < DIM && |a| == |b| == WordsOf(d) && Val(a) <= Val(b)
    ensures AllShaped(q)
  {
    if n == 0 then []
    else ChildRules(rs, n - 1, d, a, b) + if Overlaps(rs[n - 1], d, a, b) then [Trim(rs[n - 1], d, a, b)] else []
  }

  lemma KeyWidths(r: KeyRule, d: nat)
    requires Shaped(r) && d < DIM
    ensures |r.lo| == |r.hi| == DIM && |r.lo[d]| == |r.hi[d]| == WordsOf(d) && Val(r.lo[d]) <= Val(r.hi[d])
  {
  }

  /** Every listed rule overlaps the child's range. */
  predicate Selected(rs: seq<KeyRule>, list: seq<nat>, d: nat, a: Key, b: Key)
    requires AllShaped(rs) && d < DIM
  {
    forall j :: 0 <= j < |list| ==> list[j] < |rs| && Overlaps(rs[list[j]], d, a, b)
  }

  function Trimmed(rs: seq<KeyRule>, list: seq<nat>, d: nat, a: Key, b: Key): (q: seq<KeyRule>)
    requires AllShaped(rs) && d < DIM && |a| == |b| == WordsOf(d) && Val(a) <= Val(b) && Selected(rs, list, d, a, b)
    ensures |q| == |list|
  {
    seq(|list|, j requires 0 <= j < |list| && Selected(rs, list, d, a, b) => Trim(rs[list[j]], d, a, b))
  }

  lemma TrimmedOneMore(rs: seq<KeyRule>, list: seq<nat>, n: nat, d: nat, a: Key, b: Key)
    requires AllShaped(rs) && d < DIM && |a| == |b| == WordsOf(d) && Val(a) <= Val(b)
    requires Selected(rs, list, d, a, b) && n < |rs| && Overlaps(rs[n], d, a, b)
    ensures Selected(rs, list + [n], d, a, b)
    ensures Trimmed(rs, list + [n], d, a, b) == Trimmed(rs, list, d, a, b) + [Trim(rs[n], d, a, b)]
  {
    hide Val, Shaped, Overlaps, Trim;
  }

  /** tempRuleNumList: which rules overlap the child's range. */
  method SelectRules(rs: seq<KeyRule>, d: nat, a: Key, b: Key) returns (list: seq<nat>)
    requires AllShaped(rs) && d < DIM && |a| == |b| == WordsOf(d) && Val(a) <= Val(b)
    ensures Selected(rs, list, d, a, b)
    ensures Trimmed(rs, list, d, a, b) == ChildRules(rs, |rs|, d, a, b)
  {
    hide Val, Shaped, Trim, Selected, Trimmed;
    list := [];
    NothingTrimmed(rs, d, a, b);
    for num := 0 to |rs|
      invariant Selected(rs, list, d, a, b)
      invariant Trimmed(rs, list, d, a, b) == ChildRules(rs, num, d, a, b)
    {
      KeyWidths(rs[num], d);
      var temp1 := Compare(rs[num].lo[d], b);
      var temp2 := Compare(rs[num].hi[d], a);
      if temp1 <= 0 && temp2 >= 0 {
        TrimmedOneMore(rs, list, num, d, a, b);
        list := list + [num];
      }
    }
  }

  lemma NothingTrimmed(rs: seq<KeyRule>, d: nat, a: Key, b: Key)
    requires AllShaped(rs) && d < DIM && |a| == |b| == WordsOf(d) && Val(a) <= Val(b)
    ensures Selected(rs, [], d, a, b) && Trimmed(rs, [], d, a, b) == []
  {
    hide Val, Shaped;
  }

  /** One rule copied and trimmed bound by bound. */
  method TrimRule(r: KeyRule, d: nat, a: Key, b: Key) returns (q: KeyRule)
    requires Shaped(r) && d < DIM && |a| == |b| == WordsOf(d) && Val(a) <= Val(b) && Overlaps(r, d, a, b)
    ensures q == Trim(r, d, a, b)
  {
    hide Val, Shaped;
    KeyWidths(r, d);
    var lo, hi := r.lo, r.hi;
    var below := Compare(lo[d], a);
    if below < 0 {
      lo := lo[d := a];
    }
    var above := Compare(hi[d], b);
    if above > 0 {
      hi := hi[d := b];
    }
    q := KeyRule(r.pri, lo, hi);
  }

  /** A child's rule list: the overlapping rules copied and trimmed. */
  method MakeChild(rs: seq<KeyRule>, d: nat, a: Key, b: Key) returns (child: seq<KeyRule>)
    requires AllShaped(rs) && d < DIM && |a| == |b| == WordsOf(d) && Val(a) <= Val(b)
    ensures child == ChildRules(rs, |rs|, d, a, b)
  {
    hide Val, Shaped, Trim, Overlaps, ChildRules;
    var list := SelectRules(rs, d, a, b);
    child := [];
    for num := 0 to |list|
      invariant child == Trimmed(rs, list, d, a, b)[..num]
    {
      var q := TrimRule(rs[list[num]], d, a, b);
      child := child + [q];
    }
  }

  lemma TrimIsClip(r: KeyRule, d: nat, a: Key, b: Key, c: nat)
    requires Shaped(r) && d < DIM && |a| == |b| == WordsOf(d) && Val(a) <= Val(b) && Overlaps(r, d, a, b)
    ensures Val(b) + 1 == c && Val(a) <= Val(r.lo[d]) ==> Denote(Trim(r, d, a, b)) == ClipLeft(Denote(r), d, c)
    ensures Val(a) == c && Val(r.hi[d]) <= Val(b) ==> Denote(Trim(r, d, a, b)) == ClipRight(Denote(r), d, c)
  {
    hide Val;
    var q, v := Denote(Trim(r, d, a, b)), Denote(r);
    if Val(b) + 1 == c && Val(a) <= Val(r.lo[d]) {
      assert q.lo == v.lo && q.hi == ClipLeft(v, d, c).hi;
    }
    if Val(a) == c && Val(r.hi[d]) <= Val(b) {
      assert q.hi == v.hi && q.lo == ClipRight(v, d, c).lo;
    }
  }

  lemma DenoteAppend(qs: seq<KeyRule>, r: KeyRule)
    requires AllShaped(qs) && Shaped(r)
    ensures AllShaped(qs + [r]) && DenoteAll(qs + [r]) == DenoteAll(qs) + [Denote(r)]
  {
    hide Shaped;
  }

  lemma DenotePrefix(rs: seq<KeyRule>, n: nat)
    requires AllShaped(rs) && n < |rs|
    ensures DenoteAll(rs)[..n + 1][..n] == DenoteAll(rs)[..n]
    ensures DenoteAll(rs)[..n + 1][n] == Denote(rs[n])
  {
  }

  /** The left child holds exactly the specification's left rules. */
  lemma {:induction false} LeftChild(rs: seq<KeyRule>, n: nat, d: nat, a: Key, b: Key)
    requires AllShaped(rs) && n <= |rs| && d < DIM && |a| == |b| == WordsOf(d) && Val(a) <= Val(b)
    requires forall i :: 0 <= i < |rs| ==> Val(a) <= Val(rs[i].lo[d])
    ensures DenoteAll(ChildRules(rs, n, d, a, b)) == LeftRules(DenoteAll(rs)[..n], d, Val(b) + 1)
  {
    hide Val, Shaped, Trim, ClipLeft, ClipRight, DenoteAll;
    if n > 0 {
      LeftChild(rs, n - 1, d, a, b);
      DenotePrefix(rs, n - 1);
      var r := rs[n - 1];
      KeyWidths(r, d);
      if Overlaps(r, d, a, b) {
        TrimIsClip(r, d, a, b, Val(b) + 1);
        DenoteAppend(ChildRules(rs, n - 1, d, a, b), Trim(r, d, a, b));
      }
    }
  }

  /** The right child holds exactly the specification's right rules. */
  lemma {:induction false} RightChild(rs: seq<KeyRule>, n: nat, d: nat, a: Key, b: Key)
    requires AllShaped(rs) && n <= |rs| && d < DIM && |a| == |b| == WordsOf(d) && Val(a) <= Val(b)
    requires forall i :: 0 <= i < |rs| ==> Val(rs[i].hi[d]) <= Val(b)
    ensures DenoteAll(ChildRules(rs, n, d, a, b)) == RightRules(DenoteAll(rs)[..n], d, Val(a))
  {
    hide Val, Shaped, Trim, ClipLeft, ClipRight, DenoteAll;
    if n > 0 {
      RightChild(rs, n - 1, d, a, b);
      DenotePrefix(rs, n - 1);
      var r := rs[n - 1];
      KeyWidths(r, d);
      if Overlaps(r, d, a, b) {
        TrimIsClip(r, d, a, b, Val(a));
        DenoteAppend(ChildRules(rs, n - 1, d, a, b), Trim(r, d, a, b));
      }
    }
  }

  // ---------------------------------------------------------------------------
  // The build

  /** The leaf's rule array: priorities in list order. */
  method LeafList(rs: seq<KeyRule>) returns (list: seq<nat>)
    requires AllShaped(rs)
    ensures list == Pris(DenoteAll(rs))
  {
    list := [];
    for i := 0 to |rs|
      invariant |list| == i && forall j :: 0 <= j < i ==> list[j] == rs[j].pri
    {
      list := list + [rs[i].pri];
    }
  }

  /** BuildHSTree terminates on every rule set and builds a tree the specification admits. */
  method BuildHSTree(rs: seq<KeyRule>, depth: nat) returns (t: Tree)
    requires AllShaped(rs)
    ensures IsTree(t, DenoteAll(rs), depth) && Widths(t)
    decreases Potential(DenoteAll(rs))
  {
    hide Val, SegCount, IsMedianCut, LeftRules, RightRules, Potential, ChildRules, Pris;
    ghost var rules := DenoteAll(rs);
    if |rs| <= RULE_NUM_THRESHOLD {
      var list := LeafList(rs);
      t := Leaf(true, depth % 256, |rs| % 65536, list);
      return;
    }
    var d2s, diff, all := ChooseDimension(rs);
    if all <= 2 {
      var list := LeafList(rs);
      t := Leaf(false, depth % 256, |rs| % 65536, list);
      return;
    }
    var lo, leftHi, cut, hi := ChooseCut(rs, d2s, diff, all);
    ChildPotential(rules, d2s, Val(cut));
    assert rules[..|rs|] == rules;
    var leftRules := MakeChild(rs, d2s, lo, leftHi);
    LeftChild(rs, |rs|, d2s, lo, leftHi);
    var left := BuildHSTree(leftRules, depth + 1);
    var rightRules := MakeChild(rs, d2s, cut, hi);
    RightChild(rs, |rs|, d2s, cut, hi);
    var right := BuildHSTree(rightRules, depth + 1);
    t := Node(d2s, depth % 256, cut, left, right);
  }

  // ---------------------------------------------------------------------------
  // The lookups

  /** Matched: every field between the rule's bounds, dimension by dimension. */
  method Matched(r: KeyRule, p: seq<Key>) returns (yes: bool)
    requires Shaped(r) && PacketShaped(p)
    ensures yes <==> Matches(Denote(r), FieldsOf(p))
  {
    hide Val, FieldsOf, FieldKey;
    for i := 0 to DIM
      invariant forall d :: 0 <= d < i ==> Denote(r).lo[d] <= FieldsOf(p)[d] <= Denote(r).hi[d]
    {
      FieldKeyHoldsField(p, i);
      var temp1 := Compare(FieldKey(p, i), r.lo[i]);
      var temp2 := Compare(r.hi[i], FieldKey(p, i));
      assert Denote(r).lo[i] == Val(r.lo[i]) && Denote(r).hi[i] == Val(r.hi[i]) && FieldsOf(p)[i] == Val(FieldKey(p, i));
      if temp1 == -1 || temp2 == -1 {
        return false;
      }
    }
    return true;
  }

  /** The listed rules a packet matches, in list order. */
  ghost function Hits(rules: seq<Rule>, list: seq<nat>, p: Fields): seq<nat>
    requires AllWellFormed(rules) && forall i :: 0 <= i < |list| ==> list[i] < |rules|
  {
    if list == [] then []
    else
      var last := list[|list| - 1];
      Hits(rules, list[..|list| - 1], p) + if Matches(rules[last], p) then [last] else []
  }

  /** LinearSearch: the listed rules that match, and failure (an exit in the code) when none does. */
  method LinearSearch(rs: seq<KeyRule>, list: seq<nat>, p: seq<Key>) returns (ok: bool, matched: seq<nat>)
    requires AllShaped(rs) && PacketShaped(p) && forall i :: 0 <= i < |list| ==> list[i] < |rs|
    ensures matched == Hits(DenoteAll(rs), list, FieldsOf(p))
    ensures ok <==> exists i :: 0 <= i < |list| && Matches(DenoteAll(rs)[list[i]], FieldsOf(p))
  {
    hide Val, Matches;
    ok, matched := false, [];
    for i := 0 to |list|
      invariant matched == Hits(DenoteAll(rs), list[..i], FieldsOf(p))
      invariant ok <==> exists j :: 0 <= j < i && Matches(DenoteAll(rs)[list[j]], FieldsOf(p))
    {
      assert list[..i + 1][..i] == list[..i];
      assert DenoteAll(rs)[list[i]] == Denote(rs[list[i]]);
      var yes := Matched(rs[list[i]], p);
      if yes {
        matched := matched + [list[i]];
        ok := true;
      }
    }
    assert list[..|list|] == list;
  }

  /** Over the whole list, with priorities numbered by position, LinearSearch is the reference scan. */
  lemma {:induction false} FullScanIsReference(rules: seq<Rule>, list: seq<nat>, p: Fields)
    requires AllWellFormed(rules) && |list| <= |rules|
    requires forall i :: 0 <= i < |rules| ==> rules[i].pri == i
    requires forall i :: 0 <= i < |list| ==> list[i] == i
    ensures Hits(rules, list, p) == MatchedPris(rules[..|list|], p)
  {
    if list != [] {
      var n := |list| - 1;
      FullScanIsReference(rules, list[..n], p);
      assert rules[..n + 1][..n] == rules[..n];
    }
  }

  /** LookupPacket: the walk to a leaf. */
  method LookupPacket(t: Tree, p: seq<Key>) returns (hit: Tree)
    requires PacketShaped(p) && Usable(t) && Widths(t)
    ensures hit == Descend(t, FieldsOf(p))
  {
    hide Val;
    var node := t;
    while node.Node?
      invariant Usable(node) && Widths(node) && Descend(node, FieldsOf(p)) == Descend(t, FieldsOf(p))
      decreases node
    {
      FieldKeyHoldsField(p, node.d2s);
      var order := Compare(FieldKey(p, node.d2s), node.p2s);
      node := if order < 0 then node.left else node.right;
    }
    hit := node;
  }

  /** LookupHSTree: the same walk, turning left on equality too. */
  method LookupHSTree(t: Tree, p: seq<Key>) returns (hit: Tree)
    requires PacketShaped(p) && Usable(t) && Widths(t)
    ensures hit == DescendAtMost(t, FieldsOf(p))
    ensures forall rules :: AllWellFormed(rules) && IsTree(t, rules, 0) ==> hit == Descend(t, Predecessor(FieldsOf(p)))
  {
    hide Val, IsTree;
    var node := t;
    while node.Node?
      invariant Usable(node) && Widths(node) && DescendAtMost(node, FieldsOf(p)) == DescendAtMost(t, FieldsOf(p))
      decreases node
    {
      FieldKeyHoldsField(p, node.d2s);
      var order := Compare(FieldKey(p, node.d2s), node.p2s);
      node := if order <= 0 then node.left else node.right;
    }
    hit := node;
    forall rules | AllWellFormed(rules) && IsTree(t, rules, 0) ensures hit == Descend(t, Predecessor(FieldsOf(p))) {
      AtMostClassifiesPredecessor(t, rules, 0, FieldsOf(p));
    }
  }

  /** Every threshold has its dimension's width. */
  ghost predicate Widths(t: Tree) {
    t.Node? ==> t.d2s < DIM && |t.p2s| == WordsOf(t.d2s) && Widths(t.left) && Widths(t.right)
  }

  /**
   End to end over the words themselves: the leaf LookupPacket reaches in the tree BuildHSTree makes
   lists what LinearSearch finds over the whole rule set, in the same order, whenever it finds anything.
   */
  method LookupAgainstScan(rs: seq<KeyRule>, p: seq<Key>) returns (hit: Tree, ok: bool, scan: seq<nat>)
    requires AllShaped(rs) && rs != [] && PacketShaped(p) && forall i :: 0 <= i < |rs| ==> rs[i].pri == i
    ensures hit.Leaf? && scan == MatchedPris(DenoteAll(rs), FieldsOf(p)) && (ok <==> scan != [])
    ensures ok <==> hit.rules == scan
  {
    hide Val, IsTree, Matches;
    ghost var rules := DenoteAll(rs);
    var t := BuildHSTree(rs, 0);
    LookupAgreesWithScan(t, rules, FieldsOf(p));
    hit := LookupPacket(t, p);
    var list := LeafList(rs);
    NumberedByPosition(rs);
    ok, scan := LinearSearch(rs, list, p);
    FullScanIsReference(rules, list, FieldsOf(p));
    assert rules[..|rs|] == rules;
    ScanFindsIff(rules, list, FieldsOf(p));
  }

  lemma NumberedByPosition(rs: seq<KeyRule>)
    requires AllShaped(rs) && forall i :: 0 <= i < |rs| ==> rs[i].pri == i
    ensures var list := Pris(DenoteAll(rs)); |list| == |rs| && forall i :: 0 <= i < |rs| ==> list[i] == i == DenoteAll(rs)[i].pri
  {
    hide Val;
  }

  lemma {:induction false} ScanFindsIff(rules: seq<Rule>, list: seq<nat>, p: Fields)
    requires AllWellFormed(rules) && forall i :: 0 <= i < |list| ==> list[i] < |rules|
    ensures Hits(rules, list, p) != [] <==> exists i :: 0 <= i < |list| && Matches(rules[list[i]], p)
  {
    hide Matches;
    if list != [] {
      var n := |list| - 1;
      ScanFindsIff(rules, list[..n], p);
      if exists i :: 0 <= i < |list| && Matches(rules[list[i]], p) {
        var i :| 0 <= i < |list| && Matches(rules[list[i]], p);
        assert i < n ==> list[..n][i] == list[i];
      }
    }
  }
}
