/** The command tree and the choice of the child that a typed token matches. */
module CliGrammar {
  import opened Wrappers

  /** What a token-type's match function answers. */
  datatype Verdict = NoMatch | Match(complete: bool)

  /** Keywords match by prefix; the other token types answer through their own match function. */
  datatype Kind = Keyword(word: string) | Parameter(recognise: string -> Verdict)

  datatype Node = Node(kind: Kind, hidden: bool, children: seq<Node>)

  /** cparser_match_fn_tbl: a keyword matches any prefix of it, completely when the whole word is there. */
  function Recognise(n: Node, token: string): Verdict {
    match n.kind
    case Keyword(word) => if token <= word then Match(|token| == |word|) else NoMatch
    case Parameter(recognise) => recognise(token)
  }

  /** What one child answers; hidden nodes answer only in privileged mode. */
  function Answer(privileged: bool, n: Node, token: string): Verdict {
    if privileged || !n.hidden then Recognise(n, token) else NoMatch
  }

  /** Number of the first n children that match. */
  function Count(privileged: bool, kids: seq<Node>, token: string, n: nat): nat
    requires n <= |kids|
  {
    if n == 0 then 0
    else Count(privileged, kids, token, n - 1) + if Answer(privileged, kids[n - 1], token).Match? then 1 else 0
  }

  /** Child i is the choice among the first n: the first complete match, or the first match if none is complete. */
  predicate IsChoice(privileged: bool, kids: seq<Node>, token: string, n: nat, i: nat)
    requires n <= |kids|
  {
    && i < n && Answer(privileged, kids[i], token).Match?
    && if Answer(privileged, kids[i], token).complete then
         forall j :: 0 <= j < i ==> Answer(privileged, kids[j], token) != Match(true)
       else
         (forall j :: 0 <= j < n ==> Answer(privileged, kids[j], token) != Match(true))
         && (forall j :: 0 <= j < i ==> Answer(privileged, kids[j], token) == NoMatch)
  }

  /** The chosen child among the first n, when there is one. */
  function Choice(privileged: bool, kids: seq<Node>, token: string, n: nat): (c: Option<nat>)
    requires n <= |kids|
    ensures c.Some? ==> IsChoice(privileged, kids, token, n, c.value)
    ensures c.None? ==> forall j :: 0 <= j < n ==> Answer(privileged, kids[j], token) == NoMatch
    ensures c.None? <==> Count(privileged, kids, token, n) == 0
  {
    if n == 0 then None
    else
      var c := Choice(privileged, kids, token, n - 1);
      var a := Answer(privileged, kids[n - 1], token);
      if a.Match? && (c.None? || (a.complete && !Answer(privileged, kids[c.value], token).complete)) then Some(n - 1) else c
  }

  lemma ChoiceIsUnique(privileged: bool, kids: seq<Node>, token: string, n: nat, i: nat, j: nat)
    requires n <= |kids| && IsChoice(privileged, kids, token, n, i) && IsChoice(privileged, kids, token, n, j)
    ensures i == j
  {
  }

  /** What cparser_match returns: how many children match, which one is chosen, and whether it is complete. */
  datatype Matched = Matched(count: nat, child: Option<Node>, complete: bool)

  function Lookup(privileged: bool, parent: Node, token: string): (m: Matched)
    ensures m.child.None? <==> m.count == 0
    ensures m.child.Some? ==> m.child.value in parent.children
  {
    var kids := parent.children;
    var c := Choice(privileged, kids, token, |kids|);
    var count := Count(privileged, kids, token, |kids|);
    if c.None? then Matched(count, None, false)
    else
      var n := kids[c.value];
      Matched(count, Some(n), Answer(privileged, n, token).complete || (count == 1 && n.kind.Keyword?))
  }

  /** A keyword answers to exactly its beginnings, completely to the whole word; hidden nodes only when privileged. */
  lemma KeywordAnswers(privileged: bool, n: Node, token: string)
    requires n.kind.Keyword?
    ensures Answer(privileged, n, token).Match? <==> (privileged || !n.hidden) && exists rest :: n.kind.word == token + rest
    ensures Answer(privileged, n, token) == Match(true) <==> (privileged || !n.hidden) && n.kind.word == token
  {
    if token <= n.kind.word {
      assert n.kind.word == token + n.kind.word[|token|..];
    }
  }

  /** Some child matches the token completely. */
  ghost predicate SomeComplete(privileged: bool, kids: seq<Node>, token: string) {
    exists i :: 0 <= i < |kids| && Answer(privileged, kids[i], token) == Match(true)
  }

  /** Child i is the only one that matches. */
  ghost predicate OnlyMatch(privileged: bool, kids: seq<Node>, token: string, i: nat) {
    && i < |kids| && Answer(privileged, kids[i], token).Match?
    && forall j :: 0 <= j < |kids| && j != i ==> Answer(privileged, kids[j], token) == NoMatch
  }

  lemma {:induction false} CountIsZeroIff(privileged: bool, kids: seq<Node>, token: string, n: nat)
    requires n <= |kids|
    ensures Count(privileged, kids, token, n) == 0 <==> forall j :: 0 <= j < n ==> Answer(privileged, kids[j], token) == NoMatch
  {
    if n > 0 {
      CountIsZeroIff(privileged, kids, token, n - 1);
    }
  }

  lemma {:induction false} CountIsOneIff(privileged: bool, kids: seq<Node>, token: string, n: nat, i: nat)
    requires i < n <= |kids| && Answer(privileged, kids[i], token).Match?
    ensures Count(privileged, kids, token, n) == 1 <==>
            forall j :: 0 <= j < n && j != i ==> Answer(privileged, kids[j], token) == NoMatch
    ensures Count(privileged, kids, token, n) >= 1
  {
    CountIsZeroIff(privileged, kids, token, n - 1);
    if i < n - 1 {
      CountIsOneIff(privileged, kids, token, n - 1, i);
    }
  }

  /** A token is complete exactly when some child matches it completely, or one keyword alone matches it. */
  lemma CompleteIff(privileged: bool, parent: Node, token: string)
    ensures var kids := parent.children;
      Lookup(privileged, parent, token).complete <==>
        || SomeComplete(privileged, kids, token)
        || (exists i: nat :: OnlyMatch(privileged, kids, token, i) && kids[i].kind.Keyword?)
  {
    hide Answer;
    var kids := parent.children;
    var c := Choice(privileged, kids, token, |kids|);
    if c.Some? {
      CountIsOneIff(privileged, kids, token, |kids|, c.value);
      if SomeComplete(privileged, kids, token) {
        assert Answer(privileged, kids[c.value], token) == Match(true);
      }
      assert Count(privileged, kids, token, |kids|) == 1 <==> OnlyMatch(privileged, kids, token, c.value);
      assert forall i: nat :: OnlyMatch(privileged, kids, token, i) ==> i == c.value;
    }
  }

  /** cparser_match, scanning the siblings once. */
  method CparserMatch(privileged: bool, token: string, parent: Node) returns (m: Matched)
    ensures m == Lookup(privileged, parent, token)
  {
    var kids := parent.children;
    var count, best, complete := 0, None, false;
    var i := 0;
    while i < |kids|
      invariant 0 <= i <= |kids| && count == Count(privileged, kids, token, i) && best == Choice(privileged, kids, token, i)
      invariant best.Some? ==> complete == Answer(privileged, kids[best.value], token).complete
      invariant best.None? ==> !complete
    {
      if privileged || !kids[i].hidden {
        var rc := Recognise(kids[i], token);
        if rc.Match? {
          count := count + 1;
          if best.None? || (!complete && rc.complete) {
            best, complete := Some(i), rc.complete;
          }
        }
      }
      i := i + 1;
    }
    if best.None? {
      return Matched(count, None, false);
    }
    if count == 1 && kids[best.value].kind.Keyword? {
      complete := true;
    }
    m := Matched(count, Some(kids[best.value]), complete);
  }

  /** Longest chain of nodes below n. */
  function Height(n: Node): nat {
    HeightOf(n.children, |n.children|)
  }

  function HeightOf(kids: seq<Node>, n: nat): nat
    requires n <= |kids|
    decreases kids, 0, n
  {
    if n == 0 then 0 else Max(HeightOf(kids, n - 1), 1 + HeightOf(kids[n - 1].children, |kids[n - 1].children|))
  }

  function Max(a: nat, b: nat): nat { if a < b then b else a }

  lemma {:induction false} ChildIsLower(kids: seq<Node>, n: nat, i: nat)
    requires i < n <= |kids|
    ensures HeightOf(kids, n) >= 1 + Height(kids[i])
  {
    if i < n - 1 {
      ChildIsLower(kids, n - 1, i);
    }
  }
}
