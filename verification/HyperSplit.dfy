/**
 The packet classifier's specification: rules are boxes over 11 dimensions of natural numbers, a
 linear scan is the reference answer, and `IsTree` says which trees the recursive build may produce.
 The theorems at the end are about every such tree.
 */
module HyperSplit {
  import opened Words

  const DIM: nat := 11
  const MAX_FILTERS: nat := 100000
  const RULE_NUM_THRESHOLD: nat := 0

  /** A rule: the box lo[d] <= field d <= hi[d], with its priority. */
  datatype Rule = Rule(pri: nat, lo: seq<nat>, hi: seq<nat>)

  /** Packet fields as numbers; `int` so that a field can be shifted by one. */
  type Fields = p: seq<int> | |p| == DIM witness seq(DIM, i => 0)

  predicate WellFormed(r: Rule) {
    |r.lo| == DIM && |r.hi| == DIM && forall d :: 0 <= d < DIM ==> r.lo[d] <= r.hi[d]
  }

  predicate AllWellFormed(rules: seq<Rule>) {
    forall i :: 0 <= i < |rules| ==> WellFormed(rules[i])
  }

  predicate Matches(r: Rule, p: Fields)
    requires WellFormed(r)
  {
    forall d :: 0 <= d < DIM ==> r.lo[d] <= p[d] <= r.hi[d]
  }

  /** The priorities of the rules a packet matches, in list order. */
  function MatchedPris(rules: seq<Rule>, p: Fields): (m: seq<nat>)
    requires AllWellFormed(rules)
  {
    if rules == [] then []
    else
      var front := rules[..|rules| - 1];
      var last := rules[|rules| - 1];
      MatchedPris(front, p) + if Matches(last, p) then [last.pri] else []
  }

  function Pris(rules: seq<Rule>): seq<nat> {
    seq(|rules|, i requires 0 <= i < |rules| => rules[i].pri)
  }

  // ---------------------------------------------------------------------------
  // Segment points

  ghost function Starts(rules: seq<Rule>, d: nat): set<nat>
    requires AllWellFormed(rules) && d < DIM
  {
    set i | 0 <= i < |rules| :: rules[i].lo[d]
  }

  ghost function Ends(rules: seq<Rule>, d: nat): set<nat>
    requires AllWellFormed(rules) && d < DIM
  {
    set i | 0 <= i < |rules| :: rules[i].hi[d]
  }

  /** diffSegPts_All: distinct starts plus distinct ends. */
  ghost function SegCount(rules: seq<Rule>, d: nat): nat
    requires AllWellFormed(rules) && d < DIM
  {
    |Starts(rules, d)| + |Ends(rules, d)|
  }

  ghost function Below(s: set<nat>, c: nat): set<nat> {
    set v | v in s && v < c
  }

  ghost function AtLeast(s: set<nat>, c: nat): set<nat> {
    set v | v in s && v >= c
  }

  /** Segment events strictly left of the cut c. */
  ghost function EventsLeft(rules: seq<Rule>, d: nat, c: nat): nat
    requires AllWellFormed(rules) && d < DIM
  {
    |Below(Starts(rules, d), c)| + |Below(Ends(rules, d), c)|
  }

  /**
   The median cut: in the list of events ordered by value, a start before an end of the same value,
   the event at index SegCount/2 is either the start at c or the end at c - 1.
   */
  ghost predicate IsMedianCut(rules: seq<Rule>, d: nat, c: nat)
    requires AllWellFormed(rules) && d < DIM
  {
    var half := SegCount(rules, d) / 2;
    || (c in Starts(rules, d) && EventsLeft(rules, d, c) == half)
    || (c > 0 && c - 1 in Ends(rules, d) && EventsLeft(rules, d, c) == half + 1)
  }

  /** The first dimension with the largest number of segment points. */
  ghost predicate IsSplitDimension(rules: seq<Rule>, d: nat)
    requires AllWellFormed(rules)
  {
    && d < DIM
    && (forall e :: 0 <= e < DIM ==> SegCount(rules, e) <= SegCount(rules, d))
    && (forall e :: 0 <= e < d ==> SegCount(rules, e) < SegCount(rules, d))
  }

  // ---------------------------------------------------------------------------
  // Child rule lists

  function ClipLeft(r: Rule, d: nat, c: nat): (q: Rule)
    requires WellFormed(r) && d < DIM && r.lo[d] < c
    ensures WellFormed(q) && q.pri == r.pri
  {
    if r.hi[d] < c then r else r.(hi := r.hi[d := c - 1])
  }

  function ClipRight(r: Rule, d: nat, c: nat): (q: Rule)
    requires WellFormed(r) && d < DIM && c <= r.hi[d]
    ensures WellFormed(q) && q.pri == r.pri
  {
    if c <= r.lo[d] then r else r.(lo := r.lo[d := c])
  }

  /** The rules reaching below c in dimension d, trimmed to that side. */
  function LeftRules(rules: seq<Rule>, d: nat, c: nat): (q: seq<Rule>)
    requires AllWellFormed(rules) && d < DIM
    ensures AllWellFormed(q) && |q| <= |rules|
  {
    if rules == [] then []
    else
      var last := rules[|rules| - 1];
      LeftRules(rules[..|rules| - 1], d, c) + if last.lo[d] < c then [ClipLeft(last, d, c)] else []
  }

  /** The rules reaching c or above in dimension d, trimmed to that side. */
  function RightRules(rules: seq<Rule>, d: nat, c: nat): (q: seq<Rule>)
    requires AllWellFormed(rules) && d < DIM
    ensures AllWellFormed(q) && |q| <= |rules|
  {
    if rules == [] then []
    else
      var last := rules[|rules| - 1];
      RightRules(rules[..|rules| - 1], d, c) + if c <= last.hi[d] then [ClipRight(last, d, c)] else []
  }

  // ---------------------------------------------------------------------------
  // Trees

  /** hs_node_t. `depth` and `numRule` are the 8-bit and 16-bit fields of the node. */
  datatype Tree =
    | Leaf(linear: bool, depth: nat, numRule: nat, rules: seq<nat>)
    | Node(d2s: nat, depth: nat, p2s: Key, left: Tree, right: Tree)

  /** What BuildHSTree may leave below a node for these rules at this recursion depth. */
  ghost predicate IsTree(t: Tree, rules: seq<Rule>, depth: nat)
    requires AllWellFormed(rules)
    decreases t
  {
    match t
    case Leaf(linear, dep, num, pris) =>
      && dep == depth % 256 && num == |rules| % 65536 && pris == Pris(rules)
      && linear == (|rules| <= RULE_NUM_THRESHOLD)
      && (linear || forall d :: 0 <= d < DIM ==> SegCount(rules, d) <= 2)
    case Node(d, dep, p2s, l, r) =>
      && |rules| > RULE_NUM_THRESHOLD
      && dep == depth % 256
      && IsSplitDimension(rules, d) && SegCount(rules, d) >= 3
      && IsMedianCut(rules, d, Val(p2s))
      && IsTree(l, LeftRules(rules, d, Val(p2s)), depth + 1)
      && IsTree(r, RightRules(rules, d, Val(p2s)), depth + 1)
  }

  ghost predicate Usable(t: Tree) {
    t.Node? ==> t.d2s < DIM && Usable(t.left) && Usable(t.right)
  }

  lemma {:induction false} TreesAreUsable(t: Tree, rules: seq<Rule>, depth: nat)
    requires AllWellFormed(rules) && IsTree(t, rules, depth)
    ensures Usable(t)
  {
    if t.Node? {
      TreesAreUsable(t.left, LeftRules(rules, t.d2s, Val(t.p2s)), depth + 1);
      TreesAreUsable(t.right, RightRules(rules, t.d2s, Val(t.p2s)), depth + 1);
    }
  }

  /** LookupPacket's descent: left exactly when the field is below the threshold. */
  ghost function Descend(t: Tree, p: Fields): (leaf: Tree)
    requires Usable(t)
    ensures leaf.Leaf?
  {
    if t.Leaf? then t
    else if p[t.d2s] < Val(t.p2s) then Descend(t.left, p) else Descend(t.right, p)
  }

  /** The trimmed rules the build had in hand at the leaf a packet descends to. */
  ghost function RulesAtLeaf(t: Tree, rules: seq<Rule>, p: Fields): (q: seq<Rule>)
    requires AllWellFormed(rules) && Usable(t)
    ensures AllWellFormed(q)
    decreases t
  {
    if t.Leaf? then rules
    else if p[t.d2s] < Val(t.p2s) then RulesAtLeaf(t.left, LeftRules(rules, t.d2s, Val(t.p2s)), p)
    else RulesAtLeaf(t.right, RightRules(rules, t.d2s, Val(t.p2s)), p)
  }

  ghost function Height(t: Tree): nat {
    if t.Leaf? then 0 else
      var l, r := Height(t.left), Height(t.right);
      1 + if l < r then r else l
  }

  // ---------------------------------------------------------------------------
  // Clipping keeps the matches on its own side

  lemma {:induction false} LeftKeepsMatches(rules: seq<Rule>, d: nat, c: nat, p: Fields)
    requires AllWellFormed(rules) && d < DIM && p[d] < c
    ensures MatchedPris(LeftRules(rules, d, c), p) == MatchedPris(rules, p)
  {
    if rules != [] {
      var front, last := rules[..|rules| - 1], rules[|rules| - 1];
      LeftKeepsMatches(front, d, c, p);
      var q := LeftRules(front, d, c);
      if last.lo[d] < c {
        var k := ClipLeft(last, d, c);
        assert (q + [k])[..|q + [k]| - 1] == q;
        assert Matches(k, p) <==> Matches(last, p) by {
          assert forall e :: 0 <= e < DIM ==> k.lo[e] == last.lo[e] && k.hi[e] <= last.hi[e];
        }
      } else {
        assert LeftRules(rules, d, c) == q;
        assert !Matches(last, p);
      }
    }
  }

  lemma {:induction false} RightKeepsMatches(rules: seq<Rule>, d: nat, c: nat, p: Fields)
    requires AllWellFormed(rules) && d < DIM && c <= p[d]
    ensures MatchedPris(RightRules(rules, d, c), p) == MatchedPris(rules, p)
  {
    if rules != [] {
      var front, last := rules[..|rules| - 1], rules[|rules| - 1];
      RightKeepsMatches(front, d, c, p);
      var q := RightRules(front, d, c);
      if c <= last.hi[d] {
        var k := ClipRight(last, d, c);
        assert (q + [k])[..|q + [k]| - 1] == q;
        assert Matches(k, p) <==> Matches(last, p) by {
          assert forall e :: 0 <= e < DIM ==> k.hi[e] == last.hi[e] && k.lo[e] >= last.lo[e];
        }
      } else {
        assert RightRules(rules, d, c) == q;
        assert !Matches(last, p);
      }
    }
  }

  /** Along the whole descent the matched priorities never change. */
  lemma {:induction false} DescentKeepsMatches(t: Tree, rules: seq<Rule>, depth: nat, p: Fields)
    requires AllWellFormed(rules) && IsTree(t, rules, depth) && Usable(t)
    ensures MatchedPris(RulesAtLeaf(t, rules, p), p) == MatchedPris(rules, p)
    ensures Descend(t, p).rules == Pris(RulesAtLeaf(t, rules, p))
    ensures var q := RulesAtLeaf(t, rules, p);
            Descend(t, p).linear || forall d :: 0 <= d < DIM ==> SegCount(q, d) <= 2
    ensures Descend(t, p).linear == (RulesAtLeaf(t, rules, p) == [])
    decreases t
  {
    if t.Node? {
      var c := Val(t.p2s);
      if p[t.d2s] < c {
        LeftKeepsMatches(rules, t.d2s, c, p);
        DescentKeepsMatches(t.left, LeftRules(rules, t.d2s, c), depth + 1, p);
      } else {
        RightKeepsMatches(rules, t.d2s, c, p);
        DescentKeepsMatches(t.right, RightRules(rules, t.d2s, c), depth + 1, p);
      }
    }
  }

  // ---------------------------------------------------------------------------
  // Leaves: one start and one end per dimension means one common box

  lemma AtMostOne(s: set<nat>, x: nat, y: nat)
    requires |s| <= 1 && x in s && y in s
    ensures x == y
  {
    assert |s - {x}| == |s| - 1;
    assert y !in s - {x};
  }

  lemma NonemptyHasPoints(rules: seq<Rule>, d: nat)
    requires AllWellFormed(rules) && d < DIM && rules != []
    ensures |Starts(rules, d)| >= 1 && |Ends(rules, d)| >= 1
  {
    assert rules[0].lo[d] in Starts(rules, d) && rules[0].hi[d] in Ends(rules, d);
  }

  /** Rules with at most two segment points in every dimension all have the same box. */
  lemma LeafRulesShareOneBox(rules: seq<Rule>, i: nat)
    requires AllWellFormed(rules) && i < |rules|
    requires forall d :: 0 <= d < DIM ==> SegCount(rules, d) <= 2
    ensures rules[i].lo == rules[0].lo && rules[i].hi == rules[0].hi
  {
    forall d | 0 <= d < DIM
      ensures rules[i].lo[d] == rules[0].lo[d] && rules[i].hi[d] == rules[0].hi[d]
    {
      NonemptyHasPoints(rules, d);
      assert rules[i].lo[d] in Starts(rules, d) && rules[0].lo[d] in Starts(rules, d);
      assert rules[i].hi[d] in Ends(rules, d) && rules[0].hi[d] in Ends(rules, d);
      assert SegCount(rules, d) <= 2;
      AtMostOne(Starts(rules, d), rules[i].lo[d], rules[0].lo[d]);
      AtMostOne(Ends(rules, d), rules[i].hi[d], rules[0].hi[d]);
    }
  }

  lemma {:induction false} SameBoxAllOrNothing(rules: seq<Rule>, box: Rule, p: Fields)
    requires AllWellFormed(rules) && WellFormed(box)
    requires forall i :: 0 <= i < |rules| ==> rules[i].lo == box.lo && rules[i].hi == box.hi
    ensures MatchedPris(rules, p) == if Matches(box, p) then Pris(rules) else []
  {
    if rules != [] {
      var n := |rules| - 1;
      SameBoxAllOrNothing(rules[..n], box, p);
      assert rules[n].lo == box.lo && rules[n].hi == box.hi;
      assert Matches(rules[n], p) <==> Matches(box, p);
      assert Pris(rules) == Pris(rules[..n]) + [rules[n].pri];
    }
  }

  // ---------------------------------------------------------------------------
  // Main theorem: the tree agrees with the linear scan

  /**
   The leaf a packet descends to lists exactly the matching rules when the packet lies in the leaf's
   common box, and no rule matches it when it does not.
   */
  lemma LookupAgreesWithScan(t: Tree, rules: seq<Rule>, p: Fields)
    requires AllWellFormed(rules) && rules != [] && IsTree(t, rules, 0)
    ensures Usable(t)
    ensures RulesAtLeaf(t, rules, p) != []
    ensures var box := RulesAtLeaf(t, rules, p)[0];
            MatchedPris(rules, p) == if Matches(box, p) then Descend(t, p).rules else []
    ensures Descend(t, p).rules == MatchedPris(rules, p) <==> MatchedPris(rules, p) != []
    ensures !Descend(t, p).linear
  {
    TreesAreUsable(t, rules, 0);
    DescentKeepsMatches(t, rules, 0, p);
    NoEmptyLeaf(t, rules, 0, p);
    var q := RulesAtLeaf(t, rules, p);
    forall i | 0 <= i < |q| ensures q[i].lo == q[0].lo && q[i].hi == q[0].hi {
      LeafRulesShareOneBox(q, i);
    }
    SameBoxAllOrNothing(q, q[0], p);
  }

  /** With priorities numbered by position, the scan's answer is ascending. */
  lemma {:induction false} MatchedPrisAscend(rules: seq<Rule>, p: Fields)
    requires AllWellFormed(rules)
    requires forall i :: 0 <= i < |rules| ==> rules[i].pri == i
    ensures forall a :: 0 <= a < |MatchedPris(rules, p)| ==>
              MatchedPris(rules, p)[a] < |rules| && Matches(rules[MatchedPris(rules, p)[a]], p)
    ensures forall a, b :: 0 <= a < b < |MatchedPris(rules, p)| ==>
              MatchedPris(rules, p)[a] < MatchedPris(rules, p)[b]
    ensures forall i :: 0 <= i < |rules| && Matches(rules[i], p) ==> i in MatchedPris(rules, p)
  {
    if rules != [] {
      var n := |rules| - 1;
      MatchedPrisAscend(rules[..n], p);
      var front := MatchedPris(rules[..n], p);
      var all := MatchedPris(rules, p);
      assert all == front || all == front + [n];
      forall i | 0 <= i < |rules| && Matches(rules[i], p) ensures i in all {
        if i < n {
          assert rules[..n][i] == rules[i];
          assert i in front;
        } else {
          assert all[|front|] == n;
        }
      }
    }
  }

  /**
   First match: with priorities numbered by position, a packet that matches some rule finds, at the
   head of its leaf, the lowest-numbered rule that matches it.
   */
  lemma FirstEntryIsFirstMatch(t: Tree, rules: seq<Rule>, p: Fields, i: nat)
    requires AllWellFormed(rules) && IsTree(t, rules, 0)
    requires forall j :: 0 <= j < |rules| ==> rules[j].pri == j
    requires i < |rules| && Matches(rules[i], p)
    ensures Usable(t)
    ensures var hit := Descend(t, p).rules;
            hit != [] && hit[0] <= i && hit[0] < |rules| && Matches(rules[hit[0]], p)
  {
    LookupAgreesWithScan(t, rules, p);
    MatchedPrisAscend(rules, p);
    var m := MatchedPris(rules, p);
    assert i in m;
    var k :| 0 <= k < |m| && m[k] == i;
  }

  // ---------------------------------------------------------------------------
  // Cuts: both sides are nonempty and keep a rule

  lemma BelowSplits(s: set<nat>, c: nat)
    ensures |Below(s, c)| + |AtLeast(s, c)| == |s|
  {
    assert s == Below(s, c) + AtLeast(s, c);
    assert Below(s, c) !! AtLeast(s, c);
  }

  lemma SubsetCard(a: set<nat>, b: set<nat>)
    requires a <= b
    ensures |a| <= |b|
  {
    assert b == a + (b - a);
  }

  lemma ProperSubsetCard(a: set<nat>, b: set<nat>, x: nat)
    requires a <= b && x in b && x !in a
    ensures |a| < |b|
  {
    SubsetCard(a, b - {x});
  }

  /**
   A median cut of a dimension with at least three segment points has some rule starting below it
   and some rule ending at or above it.
   */
  lemma CutSeparates(rules: seq<Rule>, d: nat, c: nat)
    requires AllWellFormed(rules) && d < DIM && SegCount(rules, d) >= 3 && IsMedianCut(rules, d, c)
    ensures exists i :: 0 <= i < |rules| && rules[i].lo[d] < c
    ensures exists i :: 0 <= i < |rules| && c <= rules[i].hi[d]
  {
    var s, e := Starts(rules, d), Ends(rules, d);
    BelowSplits(s, c);
    BelowSplits(e, c);
    if Below(s, c) != {} {
      var v :| v in Below(s, c);
    } else {
      var v :| v in Below(e, c);
      var i :| 0 <= i < |rules| && rules[i].hi[d] == v;
      assert rules[i].lo[d] < c;
    }
    if AtLeast(e, c) != {} {
      var v :| v in AtLeast(e, c);
    } else {
      var v :| v in AtLeast(s, c);
      var i :| 0 <= i < |rules| && rules[i].lo[d] == v;
      assert c <= rules[i].hi[d];
    }
  }

  ghost predicate FromLeft(r: Rule, rules: seq<Rule>, d: nat, c: nat)
    requires AllWellFormed(rules) && d < DIM
  {
    exists i :: 0 <= i < |rules| && rules[i].lo[d] < c && r == ClipLeft(rules[i], d, c)
  }

  lemma {:induction false} LeftRulesMembers(rules: seq<Rule>, d: nat, c: nat)
    requires AllWellFormed(rules) && d < DIM
    ensures forall i :: 0 <= i < |rules| && rules[i].lo[d] < c ==>
              ClipLeft(rules[i], d, c) in LeftRules(rules, d, c)
    ensures forall j :: 0 <= j < |LeftRules(rules, d, c)| ==> FromLeft(LeftRules(rules, d, c)[j], rules, d, c)
  {
    if rules != [] {
      var n := |rules| - 1;
      LeftRulesMembers(rules[..n], d, c);
      var q, front := LeftRules(rules, d, c), LeftRules(rules[..n], d, c);
      forall i | 0 <= i < |rules| && rules[i].lo[d] < c ensures ClipLeft(rules[i], d, c) in q {
        if i < n {
          assert rules[..n][i] == rules[i];
          assert ClipLeft(rules[i], d, c) in front;
        } else {
          assert q[|front|] == ClipLeft(rules[i], d, c);
        }
      }
      forall j | 0 <= j < |q|
        ensures FromLeft(q[j], rules, d, c)
      {
        if j < |front| {
          var i :| 0 <= i < n && rules[..n][i].lo[d] < c && front[j] == ClipLeft(rules[..n][i], d, c);
          assert rules[..n][i] == rules[i];
        } else {
          assert q[j] == ClipLeft(rules[n], d, c);
        }
      }
    }
  }

  ghost predicate FromRight(r: Rule, rules: seq<Rule>, d: nat, c: nat)
    requires AllWellFormed(rules) && d < DIM
  {
    exists i :: 0 <= i < |rules| && c <= rules[i].hi[d] && r == ClipRight(rules[i], d, c)
  }

  lemma {:induction false} RightRulesMembers(rules: seq<Rule>, d: nat, c: nat)
    requires AllWellFormed(rules) && d < DIM
    ensures forall i :: 0 <= i < |rules| && c <= rules[i].hi[d] ==>
              ClipRight(rules[i], d, c) in RightRules(rules, d, c)
    ensures forall j :: 0 <= j < |RightRules(rules, d, c)| ==> FromRight(RightRules(rules, d, c)[j], rules, d, c)
  {
    if rules != [] {
      var n := |rules| - 1;
      RightRulesMembers(rules[..n], d, c);
      var q, front := RightRules(rules, d, c), RightRules(rules[..n], d, c);
      forall i | 0 <= i < |rules| && c <= rules[i].hi[d] ensures ClipRight(rules[i], d, c) in q {
        if i < n {
          assert rules[..n][i] == rules[i];
          assert ClipRight(rules[i], d, c) in front;
        } else {
          assert q[|front|] == ClipRight(rules[i], d, c);
        }
      }
      forall j | 0 <= j < |q|
        ensures FromRight(q[j], rules, d, c)
      {
        if j < |front| {
          var i :| 0 <= i < n && c <= rules[..n][i].hi[d] && front[j] == ClipRight(rules[..n][i], d, c);
          assert rules[..n][i] == rules[i];
        } else {
          assert q[j] == ClipRight(rules[n], d, c);
        }
      }
    }
  }

  /** Each side of a median cut keeps at least one rule. */
  lemma ChildrenKeepARule(rules: seq<Rule>, d: nat, c: nat)
    requires AllWellFormed(rules) && d < DIM && SegCount(rules, d) >= 3 && IsMedianCut(rules, d, c)
    ensures LeftRules(rules, d, c) != [] && RightRules(rules, d, c) != []
  {
    CutSeparates(rules, d, c);
    LeftRulesMembers(rules, d, c);
    RightRulesMembers(rules, d, c);
    var i :| 0 <= i < |rules| && rules[i].lo[d] < c;
    var j :| 0 <= j < |rules| && c <= rules[j].hi[d];
    assert ClipLeft(rules[i], d, c) in LeftRules(rules, d, c);
    assert ClipRight(rules[j], d, c) in RightRules(rules, d, c);
  }

  lemma {:induction false} NoEmptyLeaf(t: Tree, rules: seq<Rule>, depth: nat, p: Fields)
    requires AllWellFormed(rules) && rules != [] && IsTree(t, rules, depth) && Usable(t)
    ensures RulesAtLeaf(t, rules, p) != []
    decreases t
  {
    if t.Node? {
      var d, c := t.d2s, Val(t.p2s);
      ChildrenKeepARule(rules, d, c);
      if p[d] < c {
        NoEmptyLeaf(t.left, LeftRules(rules, d, c), depth + 1, p);
      } else {
        NoEmptyLeaf(t.right, RightRules(rules, d, c), depth + 1, p);
      }
    }
  }
}
