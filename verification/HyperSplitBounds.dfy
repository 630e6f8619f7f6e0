/**
 How deep the HyperSplit tree can get, what its narrow node fields hold, that the build has only one
 possible outcome, and what the other lookup routine (`<=` instead of `<`) computes.
 */
module HyperSplitBounds {
  import opened Arithmetic
  import opened Words
  import opened HyperSplit

  // ---------------------------------------------------------------------------
  // Each split halves the segment points of its dimension

  /** In the split dimension, segment points minus two at least halve on both sides. */
  lemma SplitHalves(rules: seq<Rule>, d: nat, c: nat)
    requires AllWellFormed(rules) && d < DIM && SegCount(rules, d) >= 3 && IsMedianCut(rules, d, c)
    ensures SegCount(LeftRules(rules, d, c), d) - 2 <= (SegCount(rules, d) - 2) / 2
    ensures SegCount(RightRules(rules, d, c), d) - 2 <= (SegCount(rules, d) - 2) / 2
  {
    LeftPoints(rules, d, c);
    RightPoints(rules, d, c);
    BelowSplits(Starts(rules, d), c);
    BelowSplits(Ends(rules, d), c);
  }

  lemma LeftRuleShape(rules: seq<Rule>, d: nat, c: nat, j: nat)
    requires AllWellFormed(rules) && d < DIM && c > 0 && j < |LeftRules(rules, d, c)|
    ensures LeftRules(rules, d, c)[j].lo[d] in Below(Starts(rules, d), c)
    ensures LeftRules(rules, d, c)[j].hi[d] in Below(Ends(rules, d), c) + {c - 1}
  {
    LeftRulesMembers(rules, d, c);
    var r := LeftRules(rules, d, c)[j];
    assert FromLeft(r, rules, d, c);
    var i :| 0 <= i < |rules| && rules[i].lo[d] < c && r == ClipLeft(rules[i], d, c);
  }

  lemma LeftRuleIsBelow(rules: seq<Rule>, d: nat, c: nat, j: nat)
    requires AllWellFormed(rules) && d < DIM && j < |LeftRules(rules, d, c)|
    ensures LeftRules(rules, d, c)[j].hi[d] < c
  {
    LeftRulesMembers(rules, d, c);
    assert FromLeft(LeftRules(rules, d, c)[j], rules, d, c);
  }

  lemma RightRuleShape(rules: seq<Rule>, d: nat, c: nat, j: nat)
    requires AllWellFormed(rules) && d < DIM && j < |RightRules(rules, d, c)|
    ensures RightRules(rules, d, c)[j].lo[d] in AtLeast(Starts(rules, d), c) + {c}
    ensures RightRules(rules, d, c)[j].hi[d] in AtLeast(Ends(rules, d), c)
  {
    RightRulesMembers(rules, d, c);
    var r := RightRules(rules, d, c)[j];
    assert FromRight(r, rules, d, c);
    var i :| 0 <= i < |rules| && c <= rules[i].hi[d] && r == ClipRight(rules[i], d, c);
  }

  lemma LeftPoints(rules: seq<Rule>, d: nat, c: nat)
    requires AllWellFormed(rules) && d < DIM && c > 0
    ensures |Starts(LeftRules(rules, d, c), d)| <= |Below(Starts(rules, d), c)|
    ensures |Ends(LeftRules(rules, d, c), d)| <= |Below(Ends(rules, d), c)| + 1
    ensures c - 1 in Ends(rules, d) ==> |Ends(LeftRules(rules, d, c), d)| <= |Below(Ends(rules, d), c)|
  {
    var q := LeftRules(rules, d, c);
    var s, e := Below(Starts(rules, d), c), Below(Ends(rules, d), c);
    forall j | 0 <= j < |q| ensures q[j].lo[d] in s && q[j].hi[d] in e + {c - 1} {
      LeftRuleShape(rules, d, c, j);
    }
    SubsetCard(Starts(q, d), s);
    SubsetCard(Ends(q, d), e + {c - 1});
    assert c - 1 in Ends(rules, d) ==> e + {c - 1} == e;
  }

  lemma RightPoints(rules: seq<Rule>, d: nat, c: nat)
    requires AllWellFormed(rules) && d < DIM
    ensures |Starts(RightRules(rules, d, c), d)| <= |AtLeast(Starts(rules, d), c)| + 1
    ensures c in Starts(rules, d) ==> |Starts(RightRules(rules, d, c), d)| <= |AtLeast(Starts(rules, d), c)|
    ensures |Ends(RightRules(rules, d, c), d)| <= |AtLeast(Ends(rules, d), c)|
  {
    var q := RightRules(rules, d, c);
    var s, e := AtLeast(Starts(rules, d), c), AtLeast(Ends(rules, d), c);
    forall j | 0 <= j < |q| ensures q[j].lo[d] in s + {c} && q[j].hi[d] in e {
      RightRuleShape(rules, d, c, j);
    }
    SubsetCard(Starts(q, d), s + {c});
    SubsetCard(Ends(q, d), e);
    assert c in Starts(rules, d) ==> s + {c} == s;
  }

  /** A split never adds segment points to another dimension. */
  lemma OtherDimensionsShrink(rules: seq<Rule>, d: nat, c: nat, e: nat)
    requires AllWellFormed(rules) && d < DIM && e < DIM && e != d
    ensures SegCount(LeftRules(rules, d, c), e) <= SegCount(rules, e)
    ensures SegCount(RightRules(rules, d, c), e) <= SegCount(rules, e)
  {
    LeftRulesMembers(rules, d, c);
    RightRulesMembers(rules, d, c);
    var l, r := LeftRules(rules, d, c), RightRules(rules, d, c);
    forall j | 0 <= j < |l| ensures l[j].lo[e] in Starts(rules, e) && l[j].hi[e] in Ends(rules, e) {
      assert FromLeft(l[j], rules, d, c);
    }
    forall j | 0 <= j < |r| ensures r[j].lo[e] in Starts(rules, e) && r[j].hi[e] in Ends(rules, e) {
      assert FromRight(r[j], rules, d, c);
    }
    SubsetCard(Starts(l, e), Starts(rules, e));
    SubsetCard(Ends(l, e), Ends(rules, e));
    SubsetCard(Starts(r, e), Starts(rules, e));
    SubsetCard(Ends(r, e), Ends(rules, e));
  }

  // ---------------------------------------------------------------------------
  // The potential that bounds the recursion

  /** How often x can be halved before it reaches 0. */
  function Halvings(x: nat): nat {
    if x == 0 then 0 else 1 + Halvings(x / 2)
  }

  lemma {:induction false} HalvingsMonotone(x: nat, y: nat)
    requires x <= y
    ensures Halvings(x) <= Halvings(y)
  {
    if x > 0 {
      HalvingsMonotone(x / 2, y / 2);
    }
  }

  ghost function Splittable(rules: seq<Rule>, d: nat): nat
    requires AllWellFormed(rules) && d < DIM
  {
    if SegCount(rules, d) <= 2 then 0 else SegCount(rules, d) - 2
  }

  ghost function HalvingsLeft(rules: seq<Rule>): (h: seq<nat>)
    requires AllWellFormed(rules)
    ensures |h| == DIM && forall d :: 0 <= d < DIM ==> h[d] == Halvings(Splittable(rules, d))
  {
    seq(DIM, d requires 0 <= d < DIM => Halvings(Splittable(rules, d)))
  }

  /** Over all dimensions, how often their segment points can still be halved. */
  ghost function Potential(rules: seq<Rule>): nat
    requires AllWellFormed(rules)
  {
    Sum(HalvingsLeft(rules))
  }

  lemma {:induction false} SumDrops(a: seq<nat>, b: seq<nat>, d: nat)
    requires |a| == |b| && forall e :: 0 <= e < |a| ==> a[e] <= b[e]
    ensures Sum(a) <= Sum(b)
    ensures d < |a| && a[d] < b[d] ==> Sum(a) < Sum(b)
  {
    if |a| > 0 {
      var n := |a| - 1;
      SumDrops(a[..n], b[..n], d);
      assert d < n ==> a[..n][d] == a[d] && b[..n][d] == b[d];
    }
  }

  /** Every split lowers the potential of both children: the recursion terminates. */
  lemma ChildPotential(rules: seq<Rule>, d: nat, c: nat)
    requires AllWellFormed(rules) && d < DIM && SegCount(rules, d) >= 3 && IsMedianCut(rules, d, c)
    ensures Potential(LeftRules(rules, d, c)) < Potential(rules)
    ensures Potential(RightRules(rules, d, c)) < Potential(rules)
  {
    var l, r := LeftRules(rules, d, c), RightRules(rules, d, c);
    SplitHalves(rules, d, c);
    HalvingsMonotone(Splittable(l, d), Splittable(rules, d) / 2);
    HalvingsMonotone(Splittable(r, d), Splittable(rules, d) / 2);
    forall e | 0 <= e < DIM
      ensures Halvings(Splittable(l, e)) <= Halvings(Splittable(rules, e))
      ensures Halvings(Splittable(r, e)) <= Halvings(Splittable(rules, e))
    {
      if e != d {
        OtherDimensionsShrink(rules, d, c, e);
        HalvingsMonotone(Splittable(l, e), Splittable(rules, e));
        HalvingsMonotone(Splittable(r, e), Splittable(rules, e));
      }
    }
    SumDrops(HalvingsLeft(l), HalvingsLeft(rules), d);
    SumDrops(HalvingsLeft(r), HalvingsLeft(rules), d);
  }

  lemma {:induction false} HeightWithinPotential(t: Tree, rules: seq<Rule>, depth: nat)
    requires AllWellFormed(rules) && IsTree(t, rules, depth)
    ensures Height(t) <= Potential(rules)
    decreases t
  {
    if t.Node? {
      var d, c := t.d2s, Val(t.p2s);
      ChildPotential(rules, d, c);
      HeightWithinPotential(t.left, LeftRules(rules, d, c), depth + 1);
      HeightWithinPotential(t.right, RightRules(rules, d, c), depth + 1);
    }
  }

  // ---------------------------------------------------------------------------
  // The concrete bound: 100000 rules, 11 dimensions, depth at most 198

  lemma PointsOfFrontAndLast(rules: seq<Rule>, d: nat)
    requires AllWellFormed(rules) && d < DIM && rules != []
    ensures Starts(rules, d) == Starts(rules[..|rules| - 1], d) + {rules[|rules| - 1].lo[d]}
    ensures Ends(rules, d) == Ends(rules[..|rules| - 1], d) + {rules[|rules| - 1].hi[d]}
  {
    var n := |rules| - 1;
    var front := rules[..n];
    forall v | v in Starts(rules, d) ensures v in Starts(front, d) + {rules[n].lo[d]} {
      var i :| 0 <= i < |rules| && rules[i].lo[d] == v;
      assert i < n ==> front[i].lo[d] == v;
    }
    forall v | v in Ends(rules, d) ensures v in Ends(front, d) + {rules[n].hi[d]} {
      var i :| 0 <= i < |rules| && rules[i].hi[d] == v;
      assert i < n ==> front[i].hi[d] == v;
    }
  }

  lemma {:induction false} PointsPerRule(rules: seq<Rule>, d: nat)
    requires AllWellFormed(rules) && d < DIM
    ensures |Starts(rules, d)| <= |rules| && |Ends(rules, d)| <= |rules|
  {
    if rules == [] {
      assert Starts(rules, d) == {} && Ends(rules, d) == {};
    } else {
      PointsPerRule(rules[..|rules| - 1], d);
      PointsOfFrontAndLast(rules, d);
    }
  }

  lemma {:induction false} HalvingsBound(x: nat, k: nat)
    requires x < Pow2(k)
    ensures Halvings(x) <= k
  {
    if x > 0 {
      HalvingsBound(x / 2, k - 1);
    }
  }

  lemma TwoToThe18()
    ensures Pow2(18) == 0x4_0000
  {
    assert Pow2(6) == 64;
    assert Pow2(12) == 0x1000;
  }

  lemma PotentialBound(rules: seq<Rule>)
    requires AllWellFormed(rules) && |rules| <= MAX_FILTERS
    ensures Potential(rules) <= 18 * DIM
  {
    TwoToThe18();
    forall d | 0 <= d < DIM ensures HalvingsLeft(rules)[d] <= 18 {
      PointsPerRule(rules, d);
      HalvingsBound(Splittable(rules, d), 18);
    }
    SumBound(HalvingsLeft(rules), 18);
  }

  /** Every node's stored depth is its true depth and every leaf's stored count its true length. */
  ghost predicate NarrowFieldsExact(t: Tree, depth: nat) {
    && t.depth == depth
    && (t.Leaf? ==> t.numRule == |t.rules|)
    && (t.Node? ==> NarrowFieldsExact(t.left, depth + 1) && NarrowFieldsExact(t.right, depth + 1))
  }

  /** No packet matches as many rules as the 16-bit count can tell apart from none. */
  ghost predicate Uncrowded(rules: seq<Rule>)
    requires AllWellFormed(rules)
  {
    forall p: Fields :: |MatchedPris(rules, p)| < 65536
  }

  lemma {:induction false} MatchesAtMost(rules: seq<Rule>, p: Fields)
    requires AllWellFormed(rules)
    ensures |MatchedPris(rules, p)| <= |rules|
  {
    if rules != [] {
      MatchesAtMost(rules[..|rules| - 1], p);
    }
  }

  lemma {:induction false} NothingMatches(rules: seq<Rule>, p: Fields)
    requires AllWellFormed(rules) && forall i :: 0 <= i < |rules| ==> !Matches(rules[i], p)
    ensures MatchedPris(rules, p) == []
  {
    if rules != [] {
      NothingMatches(rules[..|rules| - 1], p);
    }
  }

  /** On its own side of the cut a child matches what its parent did, on the other side nothing. */
  lemma ChildrenUncrowded(rules: seq<Rule>, d: nat, c: nat)
    requires AllWellFormed(rules) && d < DIM && Uncrowded(rules)
    ensures Uncrowded(LeftRules(rules, d, c)) && Uncrowded(RightRules(rules, d, c))
  {
    hide MatchedPris, LeftRules, RightRules;
    var l, r := LeftRules(rules, d, c), RightRules(rules, d, c);
    forall p: Fields ensures |MatchedPris(l, p)| < 65536 && |MatchedPris(r, p)| < 65536 {
      if p[d] < c {
        LeftKeepsMatches(rules, d, c, p);
        forall j | 0 <= j < |r| ensures !Matches(r[j], p) {
          RightRuleShape(rules, d, c, j);
        }
        NothingMatches(r, p);
      } else {
        RightKeepsMatches(rules, d, c, p);
        forall j | 0 <= j < |l| ensures !Matches(l[j], p) {
          LeftRuleIsBelow(rules, d, c, j);
        }
        NothingMatches(l, p);
      }
    }
  }

  /** A leaf's rules are all matched at once, by the low corner of their common box. */
  lemma LeafCorner(rules: seq<Rule>)
    requires AllWellFormed(rules) && rules != [] && forall d :: 0 <= d < DIM ==> SegCount(rules, d) <= 2
    ensures MatchedPris(rules, rules[0].lo) == Pris(rules)
  {
    hide SegCount;
    forall i | 0 <= i < |rules| ensures rules[i].lo == rules[0].lo && rules[i].hi == rules[0].hi {
      LeafRulesShareOneBox(rules, i);
    }
    SameBoxAllOrNothing(rules, rules[0], rules[0].lo);
  }

  lemma {:induction false} NarrowFieldsHold(t: Tree, rules: seq<Rule>, depth: nat)
    requires AllWellFormed(rules) && IsTree(t, rules, depth)
    requires depth + Potential(rules) < 256 && Uncrowded(rules)
    ensures NarrowFieldsExact(t, depth)
    decreases t
  {
    hide SegCount, IsMedianCut, LeftRules, RightRules, Potential, Val, MatchedPris;
    match t
    case Leaf(_, _, _, _) =>
      assert |Pris(rules)| == |rules|;
      if rules != [] {
        LeafCorner(rules);
        assert |MatchedPris(rules, rules[0].lo)| < 65536;
      }
    case Node(d, _, p2s, left, right) =>
      var c := Val(p2s);
      var l, r := LeftRules(rules, d, c), RightRules(rules, d, c);
      ChildPotential(rules, d, c);
      ChildrenUncrowded(rules, d, c);
      NarrowFieldsHold(left, l, depth + 1);
      NarrowFieldsHold(right, r, depth + 1);
  }

  /** A leaf whose stored count is exact lists fewer than 65536 rules. */
  lemma {:induction false} ExactLeafIsShort(t: Tree, rules: seq<Rule>, depth: nat, p: Fields)
    requires AllWellFormed(rules) && IsTree(t, rules, depth) && Usable(t) && NarrowFieldsExact(t, depth)
    ensures |Descend(t, p).rules| < 65536
    decreases t
  {
    if t.Node? {
      var c := Val(t.p2s);
      ExactLeafIsShort(t.left, LeftRules(rules, t.d2s, c), depth + 1, p);
      ExactLeafIsShort(t.right, RightRules(rules, t.d2s, c), depth + 1, p);
    }
  }

  /** Any tree built from at most 100000 rules has height at most 198. */
  lemma DepthAtMost198(t: Tree, rules: seq<Rule>)
    requires AllWellFormed(rules) && |rules| <= MAX_FILTERS && IsTree(t, rules, 0)
    ensures Height(t) <= 198
  {
    PotentialBound(rules);
    HeightWithinPotential(t, rules, 0);
  }

  /**
   Every stored depth and every stored leaf count is exact if and only if no packet matches 65536 rules:
   the depth never truncates, the 16-bit count exactly when some leaf is that crowded.
   */
  lemma NarrowFieldsExactIff(t: Tree, rules: seq<Rule>)
    requires AllWellFormed(rules) && |rules| <= MAX_FILTERS && IsTree(t, rules, 0)
    ensures NarrowFieldsExact(t, 0) <==> Uncrowded(rules)
  {
    hide IsTree, MatchedPris;
    if Uncrowded(rules) {
      PotentialBound(rules);
      NarrowFieldsHold(t, rules, 0);
    }
    if NarrowFieldsExact(t, 0) {
      forall p: Fields ensures |MatchedPris(rules, p)| < 65536 {
        if rules == [] {
          MatchesAtMost(rules, p);
        } else {
          LookupAgreesWithScan(t, rules, p);
          ExactLeafIsShort(t, rules, 0, p);
        }
      }
    }
  }

  /** Below 65536 rules no leaf can be that crowded. */
  lemma NarrowFieldsNeverTruncate(t: Tree, rules: seq<Rule>)
    requires AllWellFormed(rules) && |rules| < 65536 && IsTree(t, rules, 0)
    ensures NarrowFieldsExact(t, 0)
  {
    hide IsTree, MatchedPris;
    forall p: Fields ensures |MatchedPris(rules, p)| < 65536 {
      MatchesAtMost(rules, p);
    }
    NarrowFieldsExactIff(t, rules);
  }

  lemma OneBoxOnePoint(rules: seq<Rule>, box: Rule, d: nat)
    requires AllWellFormed(rules) && WellFormed(box) && d < DIM && rules != []
    requires forall i :: 0 <= i < |rules| ==> rules[i].lo == box.lo && rules[i].hi == box.hi
    ensures SegCount(rules, d) == 2
  {
    assert rules[0].lo == box.lo && rules[0].hi == box.hi;
    assert Starts(rules, d) == {box.lo[d]};
    assert Ends(rules, d) == {box.hi[d]};
  }

  /**
   The 16-bit leaf counter is not wide enough for 65536 rules: that many copies of one box, which the
   100000-rule limit allows, give a single leaf whose list is full but whose stored count is 0.
   */
  lemma RuleCounterWraps(t: Tree, rules: seq<Rule>, box: Rule)
    requires AllWellFormed(rules) && WellFormed(box) && |rules| == 65536 && IsTree(t, rules, 0)
    requires forall i :: 0 <= i < |rules| ==> rules[i].lo == box.lo && rules[i].hi == box.hi
    ensures t.Leaf? && |t.rules| == 65536 && t.numRule == 0 && !Uncrowded(rules)
  {
    forall d | 0 <= d < DIM ensures SegCount(rules, d) == 2 {
      OneBoxOnePoint(rules, box, d);
    }
    LeafCorner(rules);
    assert |MatchedPris(rules, rules[0].lo)| == 65536;
  }

  // ---------------------------------------------------------------------------
  // The build has one possible outcome

  lemma EventsGrow(rules: seq<Rule>, d: nat, b: nat, c: nat)
    requires AllWellFormed(rules) && d < DIM && b < c
    ensures EventsLeft(rules, d, b) <= EventsLeft(rules, d, c)
    ensures b in Starts(rules, d) ==> |Below(Starts(rules, d), b)| < |Below(Starts(rules, d), c)|
    ensures c - 1 in Ends(rules, d) ==> |Below(Ends(rules, d), b)| < |Below(Ends(rules, d), c)|
    ensures |Below(Starts(rules, d), b)| <= |Below(Starts(rules, d), c)|
    ensures |Below(Ends(rules, d), b)| <= |Below(Ends(rules, d), c)|
  {
    var s, e := Starts(rules, d), Ends(rules, d);
    SubsetCard(Below(s, b), Below(s, c));
    SubsetCard(Below(e, b), Below(e, c));
    if b in s {
      ProperSubsetCard(Below(s, b), Below(s, c), b);
    }
    if c - 1 in e {
      ProperSubsetCard(Below(e, b), Below(e, c), c - 1);
    }
  }

  /** No second median cut lies above a first one. */
  lemma MedianCutUnique(rules: seq<Rule>, d: nat, b: nat, c: nat)
    requires AllWellFormed(rules) && d < DIM && b < c && IsMedianCut(rules, d, b)
    ensures !IsMedianCut(rules, d, c)
  {
    EventsGrow(rules, d, b, c);
  }

  ghost predicate SameTree(t: Tree, u: Tree) {
    match (t, u)
    case (Leaf(_, _, _, _), Leaf(_, _, _, _)) => t == u
    case (Node(d, dep, p, l, r), Node(e, dep', p', l', r')) =>
      d == e && dep == dep' && Val(p) == Val(p') && SameTree(l, l') && SameTree(r, r')
    case _ => false
  }

  /** Two trees admitted for the same rules agree node for node, threshold for threshold. */
  lemma {:induction false} TreeIsUnique(t: Tree, u: Tree, rules: seq<Rule>, depth: nat)
    requires AllWellFormed(rules) && IsTree(t, rules, depth) && IsTree(u, rules, depth)
    ensures SameTree(t, u)
    decreases t
  {
    if t.Node? && u.Node? {
      SplitDimensionUnique(rules, t.d2s, u.d2s);
      var d, b, c := t.d2s, Val(t.p2s), Val(u.p2s);
      if b < c {
        MedianCutUnique(rules, d, b, c);
      } else if c < b {
        MedianCutUnique(rules, d, c, b);
      }
      TreeIsUnique(t.left, u.left, LeftRules(rules, d, b), depth + 1);
      TreeIsUnique(t.right, u.right, RightRules(rules, d, b), depth + 1);
    }
  }

  lemma SplitDimensionUnique(rules: seq<Rule>, d: nat, e: nat)
    requires AllWellFormed(rules) && IsSplitDimension(rules, d) && IsSplitDimension(rules, e)
    ensures d == e
  {
    assert SegCount(rules, d) == SegCount(rules, e);
  }

  // ---------------------------------------------------------------------------
  // LookupHSTree: the same walk with `<=`

  /** LookupHSTree's descent: left when the field is at most the threshold. */
  ghost function DescendAtMost(t: Tree, p: Fields): (leaf: Tree)
    requires Usable(t)
    ensures leaf.Leaf?
  {
    if t.Leaf? then t
    else if p[t.d2s] <= Val(t.p2s) then DescendAtMost(t.left, p) else DescendAtMost(t.right, p)
  }

  /** The packet whose every field is one less, fields that are 0 staying so. */
  function Predecessor(p: Fields): Fields {
    seq(DIM, i requires 0 <= i < DIM => if p[i] > 0 then p[i] - 1 else p[i])
  }

  /** Turning left on equality reaches the leaf of the predecessor, since no threshold is 0. */
  lemma {:induction false} AtMostClassifiesPredecessor(t: Tree, rules: seq<Rule>, depth: nat, p: Fields)
    requires AllWellFormed(rules) && IsTree(t, rules, depth) && Usable(t)
    ensures DescendAtMost(t, p) == Descend(t, Predecessor(p))
    decreases t
  {
    hide SegCount, IsMedianCut, LeftRules, RightRules;
    if t.Node? {
      var c := Val(t.p2s);
      CutSeparates(rules, t.d2s, c);
      AtMostClassifiesPredecessor(t.left, LeftRules(rules, t.d2s, c), depth + 1, p);
      AtMostClassifiesPredecessor(t.right, RightRules(rules, t.d2s, c), depth + 1, p);
    }
  }

  /** Trimming further down the tree never moves a rule across a bound already kept. */
  lemma {:induction false} LeafStaysBelow(t: Tree, rules: seq<Rule>, depth: nat, p: Fields, e: nat, b: nat)
    requires AllWellFormed(rules) && IsTree(t, rules, depth) && Usable(t) && e < DIM
    requires forall i :: 0 <= i < |rules| ==> rules[i].hi[e] < b
    ensures forall i :: 0 <= i < |RulesAtLeaf(t, rules, p)| ==> RulesAtLeaf(t, rules, p)[i].hi[e] < b
    decreases t
  {
    hide SegCount, IsMedianCut, IsSplitDimension, LeftRules, RightRules;
    if t.Node? {
      var d, c := t.d2s, Val(t.p2s);
      var l, r := LeftRules(rules, d, c), RightRules(rules, d, c);
      forall j | 0 <= j < |l| ensures l[j].hi[e] < b {
        LeftRulesMembers(rules, d, c);
        assert FromLeft(l[j], rules, d, c);
      }
      forall j | 0 <= j < |r| ensures r[j].hi[e] < b {
        RightRulesMembers(rules, d, c);
        assert FromRight(r[j], rules, d, c);
      }
      if p[d] < c {
        LeafStaysBelow(t.left, l, depth + 1, p, e, b);
      } else {
        LeafStaysBelow(t.right, r, depth + 1, p, e, b);
      }
    }
  }

  lemma {:induction false} LeafStaysAbove(t: Tree, rules: seq<Rule>, depth: nat, p: Fields, e: nat, b: nat)
    requires AllWellFormed(rules) && IsTree(t, rules, depth) && Usable(t) && e < DIM
    requires forall i :: 0 <= i < |rules| ==> b <= rules[i].lo[e]
    ensures forall i :: 0 <= i < |RulesAtLeaf(t, rules, p)| ==> b <= RulesAtLeaf(t, rules, p)[i].lo[e]
    decreases t
  {
    hide SegCount, IsMedianCut, IsSplitDimension, LeftRules, RightRules;
    if t.Node? {
      var d, c := t.d2s, Val(t.p2s);
      var l, r := LeftRules(rules, d, c), RightRules(rules, d, c);
      forall j | 0 <= j < |l| ensures b <= l[j].lo[e] {
        LeftRulesMembers(rules, d, c);
        assert FromLeft(l[j], rules, d, c);
      }
      forall j | 0 <= j < |r| ensures b <= r[j].lo[e] {
        RightRulesMembers(rules, d, c);
        assert FromRight(r[j], rules, d, c);
      }
      if p[d] < c {
        LeafStaysAbove(t.left, l, depth + 1, p, e, b);
      } else {
        LeafStaysAbove(t.right, r, depth + 1, p, e, b);
      }
    }
  }

  /** The low corner of a leaf's box descends to that leaf. */
  lemma {:induction false} CornerDescends(t: Tree, rules: seq<Rule>, depth: nat, p: Fields)
    requires AllWellFormed(rules) && rules != [] && IsTree(t, rules, depth) && Usable(t)
    ensures RulesAtLeaf(t, rules, p) != []
    ensures var corner := RulesAtLeaf(t, rules, p)[0].lo;
      Descend(t, corner) == Descend(t, p) && RulesAtLeaf(t, rules, corner) == RulesAtLeaf(t, rules, p)
    decreases t
  {
    hide SegCount, IsMedianCut, IsSplitDimension, LeftRules, RightRules;
    if t.Node? {
      var d, c := t.d2s, Val(t.p2s);
      var l, r := LeftRules(rules, d, c), RightRules(rules, d, c);
      ChildrenKeepARule(rules, d, c);
      if p[d] < c {
        forall j | 0 <= j < |l| ensures l[j].hi[d] < c {
          LeftRuleIsBelow(rules, d, c, j);
        }
        CornerDescends(t.left, l, depth + 1, p);
        LeafStaysBelow(t.left, l, depth + 1, p, d, c);
        assert WellFormed(RulesAtLeaf(t.left, l, p)[0]);
      } else {
        forall j | 0 <= j < |r| ensures c <= r[j].lo[d] {
          RightRuleShape(rules, d, c, j);
        }
        CornerDescends(t.right, r, depth + 1, p);
        LeafStaysAbove(t.right, r, depth + 1, p, d, c);
      }
    }
  }

  /** Every leaf lists exactly the rules that the low corner of its box matches. */
  lemma LeafListsItsCorner(t: Tree, rules: seq<Rule>, p: Fields)
    requires AllWellFormed(rules) && rules != [] && IsTree(t, rules, 0)
    ensures Usable(t) && RulesAtLeaf(t, rules, p) != []
    ensures Descend(t, p).rules == MatchedPris(rules, RulesAtLeaf(t, rules, p)[0].lo)
  {
    hide IsTree, MatchedPris, Descend, RulesAtLeaf;
    TreesAreUsable(t, rules, 0);
    CornerDescends(t, rules, 0, p);
    LookupAgreesWithScan(t, rules, RulesAtLeaf(t, rules, p)[0].lo);
  }

  /**
   For every packet: LookupHSTree's answer is right if and only if the packet matches the same rules as
   the low corner of the box its predecessor falls into. When the predecessor matches some rule, that is
   to say the same rules as the predecessor.
   */
  lemma AtMostLookupIsRightIff(t: Tree, rules: seq<Rule>, p: Fields)
    requires AllWellFormed(rules) && rules != [] && IsTree(t, rules, 0)
    ensures Usable(t) && RulesAtLeaf(t, rules, Predecessor(p)) != []
    ensures DescendAtMost(t, p).rules == MatchedPris(rules, p)
            <==> MatchedPris(rules, RulesAtLeaf(t, rules, Predecessor(p))[0].lo) == MatchedPris(rules, p)
    ensures MatchedPris(rules, Predecessor(p)) != [] ==>
              (DescendAtMost(t, p).rules == MatchedPris(rules, p)
               <==> MatchedPris(rules, Predecessor(p)) == MatchedPris(rules, p))
  {
    hide IsTree, MatchedPris, Descend, DescendAtMost, RulesAtLeaf;
    LeafListsItsCorner(t, rules, Predecessor(p));
    AtMostClassifiesPredecessor(t, rules, 0, p);
    LookupAgreesWithScan(t, rules, Predecessor(p));
  }

  /** Turns taken by the two walks: true for left. */
  ghost function Turns(t: Tree, p: Fields): seq<bool>
    requires Usable(t)
  {
    if t.Leaf? then []
    else if p[t.d2s] < Val(t.p2s) then [true] + Turns(t.left, p) else [false] + Turns(t.right, p)
  }

  ghost function TurnsAtMost(t: Tree, p: Fields): seq<bool>
    requires Usable(t)
  {
    if t.Leaf? then []
    else if p[t.d2s] <= Val(t.p2s) then [true] + TurnsAtMost(t.left, p) else [false] + TurnsAtMost(t.right, p)
  }

  /** No threshold met on LookupPacket's walk equals the packet's field. */
  ghost predicate MissesThresholds(t: Tree, p: Fields)
    requires Usable(t)
  {
    t.Node? ==>
      && p[t.d2s] != Val(t.p2s)
      && (if p[t.d2s] < Val(t.p2s) then MissesThresholds(t.left, p) else MissesThresholds(t.right, p))
  }

  /** The two lookups take the same turns exactly when the packet meets no threshold head-on. */
  lemma {:induction false} WalksAgreeIff(t: Tree, p: Fields)
    requires Usable(t)
    ensures Turns(t, p) == TurnsAtMost(t, p) <==> MissesThresholds(t, p)
  {
    if t.Node? {
      var a, b := Turns(t, p), TurnsAtMost(t, p);
      WalksAgreeIff(t.left, p);
      WalksAgreeIff(t.right, p);
      assert a == b ==> a[0] == b[0] && a[1..] == b[1..];
    }
  }

  // A rule set on which the two lookups disagree: 0..0 before 1..1 in the first dimension.
  function PointRule(pri: nat, v: nat): Rule {
    Rule(pri, seq(DIM, d => if d == 0 then v else 0), seq(DIM, d => if d == 0 then v else 0))
  }

  function TwoPointTree(): Tree {
    Node(0, 0, [0, 1], Leaf(false, 1, 1, [0]), Leaf(false, 1, 1, [1]))
  }

  function TwoPointRules(): (rules: seq<Rule>)
    ensures AllWellFormed(rules)
  {
    [PointRule(0, 0), PointRule(1, 1)]
  }

  lemma TwoPointSegments(d: nat)
    requires d < DIM
    ensures Starts(TwoPointRules(), d) == Ends(TwoPointRules(), d) == if d == 0 then {0, 1} else {0}
  {
    var rules := TwoPointRules();
    assert rules[0].lo[d] == 0 && rules[1].lo[d] == if d == 0 then 1 else 0;
    assert rules[0].hi[d] == 0 && rules[1].hi[d] == if d == 0 then 1 else 0;
  }

  lemma TwoPointSides()
    ensures LeftRules(TwoPointRules(), 0, 1) == [PointRule(0, 0)]
    ensures RightRules(TwoPointRules(), 0, 1) == [PointRule(1, 1)]
  {
    var a := PointRule(0, 0);
    assert TwoPointRules()[..1] == [a] && [a][..0] == [];
    assert LeftRules([a], 0, 1) == [a] && RightRules([a], 0, 1) == [];
  }

  lemma TwoPointMatches()
    ensures MatchedPris(TwoPointRules(), PointRule(1, 1).lo) == [1]
  {
    var a, p := PointRule(0, 0), PointRule(1, 1).lo;
    assert TwoPointRules()[..1] == [a] && [a][..0] == [];
    assert p[0] == 1 && a.hi[0] == 0;
    assert MatchedPris([a], p) == [];
  }

  lemma LoneRuleIsALeaf(pri: nat, v: nat)
    ensures IsTree(Leaf(false, 1, 1, [pri]), [PointRule(pri, v)], 1)
  {
    var r := PointRule(pri, v);
    assert Pris([r]) == [pri];
    forall d | 0 <= d < DIM ensures SegCount([r], d) == 2 {
      assert [r][0].lo == r.lo && [r][0].hi == r.hi;
      OneBoxOnePoint([r], r, d);
    }
  }

  lemma TwoPointTreeIsATree()
    ensures Val([0, 1]) == 1
    ensures IsTree(TwoPointTree(), TwoPointRules(), 0)
  {
    assert [0 as Word, 1][..1] == [0] && [0 as Word][..0] == [];
    var rules := TwoPointRules();
    forall d | 0 <= d < DIM ensures SegCount(rules, d) == if d == 0 then 4 else 2 {
      TwoPointSegments(d);
    }
    TwoPointSegments(0);
    assert Below({0, 1}, 1) == {0};
    TwoPointSides();
    LoneRuleIsALeaf(0, 0);
    LoneRuleIsALeaf(1, 1);
  }

  /** LookupHSTree can return a rule that does not match while another one does. */
  lemma AtMostLookupCanBeWrong()
    ensures var rules := TwoPointRules();
            var p := PointRule(1, 1).lo;
            && IsTree(TwoPointTree(), rules, 0)
            && MatchedPris(rules, p) == [1] == Descend(TwoPointTree(), p).rules
            && DescendAtMost(TwoPointTree(), p).rules == [0]
            && MatchedPris(rules, RulesAtLeaf(TwoPointTree(), rules, Predecessor(p))[0].lo) != MatchedPris(rules, p)
  {
    TwoPointTreeIsATree();
    TwoPointMatches();
    AtMostLookupIsRightIff(TwoPointTree(), TwoPointRules(), PointRule(1, 1).lo);
  }
}
