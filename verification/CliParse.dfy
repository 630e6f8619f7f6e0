/** What a line of text means to the command tree: the reference the incremental parser is held to. */
module CliParse {
  import opened Wrappers
  import opened CliGrammar

  const MAX_TOKEN_SIZE := 256

  datatype Grammar = Grammar(root: Node, privileged: bool)

  /** A token closed by a space: where it begins, its text, the node it was matched under and the child chosen. */
  datatype Closed = Closed(begin: nat, text: string, parent: Node, node: Node)

  datatype Open = Open(begin: nat, text: string)

  /** Tokens closed so far, the token being typed, and the node it is matched under. */
  datatype Frame = Frame(closed: seq<Closed>, open: Option<Open>, cur: Node)

  /** The longest prefix that parses, and the length of the text; they differ when the text is in error. */
  datatype Parsed = Parsed(frame: Frame, good: nat, len: nat)

  predicate InError(p: Parsed) { p.good < p.len }

  /** One more character at position `pos`, or None when it is an error. */
  function Extend(g: Grammar, f: Frame, pos: nat, ch: char): Option<Frame> {
    match f.open
    case None =>
      if ch == ' ' then Some(f)
      else if Lookup(g.privileged, f.cur, [ch]).count > 0 then Some(f.(open := Some(Open(pos, [ch]))))
      else None
    case Some(t) =>
      if ch == ' ' then
        var m := Lookup(g.privileged, f.cur, t.text);
        if m.count > 0 && m.complete then
          Some(Frame(f.closed + [Closed(t.begin, t.text, f.cur, m.child.value)], None, m.child.value))
        else None
      else if |t.text| < MAX_TOKEN_SIZE && Lookup(g.privileged, f.cur, t.text + [ch]).count > 0 then
        Some(f.(open := Some(Open(t.begin, t.text + [ch]))))
      else None
  }

  /** Parsing the whole text from scratch; the first error ends it. */
  function Parse(g: Grammar, text: string): (p: Parsed)
    ensures p.good <= p.len == |text|
  {
    if text == "" then Parsed(Frame([], None, g.root), 0, 0)
    else
      var n := |text| - 1;
      var p := Parse(g, text[..n]);
      if InError(p) then p.(len := n + 1)
      else
        match Extend(g, p.frame, n, text[n])
        case None => p.(len := n + 1)
        case Some(f) => Parsed(f, n + 1, n + 1)
  }

  lemma ParseSnoc(g: Grammar, text: string, ch: char)
    ensures var p := Parse(g, text);
      Parse(g, text + [ch]) ==
        if InError(p) then p.(len := |text| + 1)
        else match Extend(g, p.frame, |text|, ch)
          case None => p.(len := |text| + 1)
          case Some(f) => Parsed(f, |text| + 1, |text| + 1)
  {
    assert (text + [ch])[..|text|] == text;
  }

  // ---------------------------------------------------------------------------
  // What parses, without the parser

  /** The words of a text between spaces, and the unfinished one at its end. */
  datatype Words = Words(closed: seq<string>, open: string)

  function Split(text: string): Words {
    if text == "" then Words([], "")
    else
      var w, ch := Split(text[..|text| - 1]), text[|text| - 1];
      if ch != ' ' then w.(open := w.open + [ch])
      else if w.open == "" then w
      else Words(w.closed + [w.open], "")
  }

  /** Every beginning of the word is matched by some child of the node. */
  ghost predicate Typable(g: Grammar, n: Node, word: string) {
    && |word| <= MAX_TOKEN_SIZE
    && forall k :: 0 < k <= |word| ==> Lookup(g.privileged, n, word[..k]).count > 0
  }

  /** The node that a list of words leads to from the root: each typable and complete under the one before. */
  ghost function NodeAfter(g: Grammar, words: seq<string>): Option<Node> {
    if words == [] then Some(g.root)
    else
      var n, word := NodeAfter(g, words[..|words| - 1]), words[|words| - 1];
      if n.Some? && Typable(g, n.value, word) && Lookup(g.privileged, n.value, word).complete
      then Lookup(g.privileged, n.value, word).child
      else None
  }

  /** The words of the text name a path down the tree, the last one possibly unfinished. */
  ghost predicate NamesPath(g: Grammar, w: Words) {
    NodeAfter(g, w.closed).Some? && Typable(g, NodeAfter(g, w.closed).value, w.open)
  }

  lemma TypableOneMore(g: Grammar, n: Node, word: string, ch: char)
    ensures Typable(g, n, word + [ch]) <==>
            Typable(g, n, word) && |word| < MAX_TOKEN_SIZE && Lookup(g.privileged, n, word + [ch]).count > 0
  {
    hide Lookup;
    var longer := word + [ch];
    assert longer[..|word| + 1] == longer;
    forall k | 0 < k <= |word| ensures longer[..k] == word[..k] {}
    if Typable(g, n, longer) {
      forall k | 0 < k <= |word| ensures Lookup(g.privileged, n, word[..k]).count > 0 {
        assert longer[..k] == word[..k];
      }
    }
  }

  /** The parse's frame shows the words: same texts, and the node the closed ones lead to. */
  ghost predicate Shows(g: Grammar, f: Frame, w: Words) {
    && |f.closed| == |w.closed| && (forall i :: 0 <= i < |w.closed| ==> f.closed[i].text == w.closed[i])
    && NodeAfter(g, w.closed) == Some(f.cur)
    && (if w.open == "" then f.open.None? else f.open.Some? && f.open.value.text == w.open)
  }

  /**
   A text parses without error exactly when its words name a path down the command tree; the parse then
   holds those words and stands at the node they lead to.
   */
  lemma {:induction false} ParsesIff(g: Grammar, text: string)
    ensures !InError(Parse(g, text)) <==> NamesPath(g, Split(text))
    ensures !InError(Parse(g, text)) ==> Shows(g, Parse(g, text).frame, Split(text))
  {
    hide Lookup, Typable;
    if text == "" {
      EmptyIsTypable(g, g.root);
    } else {
      var n := |text| - 1;
      ParsesIff(g, text[..n]);
      ParsesOneMore(g, text[..n], text[n]);
      assert text[..n] + [text[n]] == text;
    }
  }

  lemma EmptyIsTypable(g: Grammar, n: Node)
    ensures Typable(g, n, "")
  {
  }

  lemma ParsesOneMore(g: Grammar, text: string, ch: char)
    requires !InError(Parse(g, text)) <==> NamesPath(g, Split(text))
    requires !InError(Parse(g, text)) ==> Shows(g, Parse(g, text).frame, Split(text))
    ensures !InError(Parse(g, text + [ch])) <==> NamesPath(g, Split(text + [ch]))
    ensures !InError(Parse(g, text + [ch])) ==> Shows(g, Parse(g, text + [ch]).frame, Split(text + [ch]))
  {
    hide Lookup, Typable, Parse;
    var w := Split(text);
    assert (text + [ch])[..|text|] == text;
    ParseSnoc(g, text, ch);
    var f := Parse(g, text).frame;
    var v := Split(text + [ch]);
    if ch != ' ' {
      assert v == w.(open := w.open + [ch]);
      if NodeAfter(g, w.closed).Some? {
        TypableOneMore(g, NodeAfter(g, w.closed).value, w.open, ch);
      }
      assert "" + [ch] == [ch];
    } else if w.open != "" {
      assert v == Words(w.closed + [w.open], "");
      assert v.closed[..|v.closed| - 1] == w.closed;
      if NodeAfter(g, v.closed).Some? {
        EmptyIsTypable(g, NodeAfter(g, v.closed).value);
      }
      if NodeAfter(g, w.closed).Some? {
        LookupFacts(g, NodeAfter(g, w.closed).value, w.open);
      }
    }
  }

  lemma LookupFacts(g: Grammar, n: Node, word: string)
    ensures var m := Lookup(g.privileged, n, word); (m.complete ==> m.count > 0) && (m.child.Some? <==> m.count > 0)
  {
  }

  /** An ambiguous abbreviation is an error: a space after a word two children match, none completely. */
  lemma AmbiguousWordIsError(g: Grammar, text: string, i: nat, j: nat)
    requires !InError(Parse(g, text)) && Parse(g, text).frame.open.Some?
    requires var f := Parse(g, text).frame; var kids, word := f.cur.children, f.open.value.text;
      && i < j < |kids| && Answer(g.privileged, kids[i], word).Match? && Answer(g.privileged, kids[j], word).Match?
      && !SomeComplete(g.privileged, kids, word)
    ensures InError(Parse(g, text + [' ']))
  {
    hide Lookup, Parse, Answer;
    var f := Parse(g, text).frame;
    ParseSnoc(g, text, ' ');
    CompleteIff(g.privileged, f.cur, f.open.value.text);
  }

  // ---------------------------------------------------------------------------
  // Where tokens lie

  /** The open token ends where the good text ends; closed ones end before a space within it. */
  predicate WellPlaced(p: Parsed) {
    && (p.frame.open.Some? ==>
          p.frame.open.value.text != "" && |p.frame.open.value.text| <= MAX_TOKEN_SIZE
          && p.frame.open.value.begin + |p.frame.open.value.text| == p.good)
    && (forall i :: 0 <= i < |p.frame.closed| ==>
          p.frame.closed[i].text != "" && |p.frame.closed[i].text| <= MAX_TOKEN_SIZE
          && p.frame.closed[i].begin + |p.frame.closed[i].text| < p.good)
  }

  lemma {:induction false} ParseIsWellPlaced(g: Grammar, text: string)
    ensures WellPlaced(Parse(g, text))
  {
    hide Lookup;
    if text != "" {
      ParseIsWellPlaced(g, text[..|text| - 1]);
    }
  }

  predicate StandsAt(text: string, begin: nat, t: string) {
    begin + |t| <= |text| && text[begin..begin + |t|] == t
  }

  lemma StandsInLonger(text: string, n: nat, begin: nat, t: string)
    requires n < |text| && StandsAt(text[..n], begin, t)
    ensures StandsAt(text, begin, t)
    ensures begin + |t| == n ==> StandsAt(text, begin, t + [text[n]])
  {
    assert text[begin..begin + |t|] == text[..n][begin..begin + |t|];
  }

  /** Every token's text is the text of the line where it stands. */
  lemma {:induction false} TokensAreTheText(g: Grammar, text: string)
    ensures var f := Parse(g, text).frame;
      && (forall i :: 0 <= i < |f.closed| ==> StandsAt(text, f.closed[i].begin, f.closed[i].text))
      && (f.open.Some? ==> StandsAt(text, f.open.value.begin, f.open.value.text))
  {
    hide Lookup, StandsAt;
    if text != "" {
      var n := |text| - 1;
      TokensAreTheText(g, text[..n]);
      ParseIsWellPlaced(g, text[..n]);
      var f := Parse(g, text[..n]).frame;
      forall i | 0 <= i < |f.closed| ensures StandsAt(text, f.closed[i].begin, f.closed[i].text) {
        StandsInLonger(text, n, f.closed[i].begin, f.closed[i].text);
      }
      if f.open.Some? {
        StandsInLonger(text, n, f.open.value.begin, f.open.value.text);
      } else {
        OneStands(text, n);
      }
    }
  }

  lemma OneStands(text: string, n: nat)
    requires n < |text|
    ensures StandsAt(text, n, [text[n]])
  {
  }

  // ---------------------------------------------------------------------------
  // The tokens walk down the tree

  /** Closed tokens form a path from the root: each was matched under the node the previous one chose. */
  ghost predicate IsPath(root: Node, closed: seq<Closed>, cur: Node) {
    if closed == [] then cur == root
    else
      var last := closed[|closed| - 1];
      cur == last.node && last.node in last.parent.children && IsPath(root, closed[..|closed| - 1], last.parent)
  }

  lemma {:induction false} ParseIsPath(g: Grammar, text: string)
    ensures IsPath(g.root, Parse(g, text).frame.closed, Parse(g, text).frame.cur)
  {
    if text != "" {
      var n := |text| - 1;
      ParseIsPath(g, text[..n]);
      var p, q := Parse(g, text[..n]).frame, Parse(g, text).frame;
      if q.closed != p.closed {
        assert q.closed[..|q.closed| - 1] == p.closed;
      }
    }
  }

  lemma {:induction false} PathFitsHeight(root: Node, closed: seq<Closed>, cur: Node)
    requires IsPath(root, closed, cur)
    ensures |closed| + Height(cur) <= Height(root)
  {
    if closed != [] {
      var last := closed[|closed| - 1];
      PathFitsHeight(root, closed[..|closed| - 1], last.parent);
      var i :| 0 <= i < |last.parent.children| && last.parent.children[i] == last.node;
      ChildIsLower(last.parent.children, |last.parent.children|, i);
    }
  }

  /** No text closes more tokens than the tree is high. */
  lemma TokensWithinHeight(g: Grammar, text: string)
    ensures |Parse(g, text).frame.closed| <= Height(g.root)
  {
    ParseIsPath(g, text);
    PathFitsHeight(g.root, Parse(g, text).frame.closed, Parse(g, text).frame.cur);
  }

  // ---------------------------------------------------------------------------
  // The bound is sharp

  /** A tree of n nested one-letter keywords. */
  function Chain(n: nat): Node {
    Node(Keyword("a"), false, if n == 0 then [] else [Chain(n - 1)])
  }

  function ChainText(n: nat): string {
    if n == 0 then "" else ChainText(n - 1) + "a "
  }

  lemma ChainLookup(n: nat)
    requires n > 0
    ensures Lookup(false, Chain(n), "a") == Matched(1, Some(Chain(n - 1)), true)
  {
    var kids := [Chain(n - 1)];
    assert Answer(false, kids[0], "a") == Match(true);
    assert Count(false, kids, "a", 1) == Count(false, kids, "a", 0) + 1;
    assert Choice(false, kids, "a", 0) == None;
    assert Choice(false, kids, "a", 1) == Some(0);
  }

  lemma ChainTextSnoc(k: nat)
    requires k > 0
    ensures ChainText(k) == ChainText(k - 1) + ['a'] + [' ']
  {
  }

  /** Typing one more keyword of the chain and a space closes one more token. */
  lemma ChainStep(g: Grammar, text: string, m: nat)
    requires m > 0 && !g.privileged
    requires var p := Parse(g, text); !InError(p) && p.frame.open == None && p.frame.cur == Chain(m)
    ensures var p, q := Parse(g, text), Parse(g, text + ['a'] + [' ']);
      !InError(q) && |q.frame.closed| == |p.frame.closed| + 1 && q.frame.open == None && q.frame.cur == Chain(m - 1)
  {
    hide Lookup, Chain, Parse;
    ChainLookup(m);
    ParseSnoc(g, text, 'a');
    ParseSnoc(g, text + ['a'], ' ');
  }

  /** A tree n high has a text that closes n tokens: the limit on token_tos is really needed. */
  lemma {:induction false} ChainClosesItsHeight(n: nat, k: nat)
    requires k <= n
    ensures var p := Parse(Grammar(Chain(n), false), ChainText(k));
      !InError(p) && |p.frame.closed| == k && p.frame.open == None && p.frame.cur == Chain(n - k)
  {
    hide Lookup, Chain;
    if k > 0 {
      ChainClosesItsHeight(n, k - 1);
      ChainStep(Grammar(Chain(n), false), ChainText(k - 1), n - k + 1);
      ChainTextSnoc(k);
    }
  }

  lemma {:induction false} ChainHeight(n: nat)
    ensures Height(Chain(n)) == n
  {
    if n > 0 {
      ChainHeight(n - 1);
      assert HeightOf(Chain(n).children, 0) == 0;
    }
  }
}
