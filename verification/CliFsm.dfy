/** The incremental parser: three states, a token stack, and a backspace that undoes. */
module CliFsm {
  import opened Wrappers
  import opened CliGrammar
  import opened CliParse

  const MAX_NUM_TOKENS := 32
  const MAX_LINE_SIZE := 383

  const BS := '\U{0008}'
  const DEL := '\U{007F}'

  datatype Mode = Whitespace | Token | Error

  /** cparser_token_t; `text` is the part of `buf` below token_len. */
  datatype Slot = Slot(begin: int, text: string, parent: Option<Node>, node: Option<Node>)

  const Empty := Slot(-1, "", None, None)

  predicate Clean(t: Slot) {
    t.begin == -1 && t.text == "" && t.parent.None?
  }

  /** The slot of the token being typed: its `node` may be left over from before it was reopened. */
  ghost predicate HoldsOpen(t: Slot, open: Option<Open>) {
    if open.None? then Clean(t)
    else t.begin == open.value.begin && t.text == open.value.text && t.parent.None?
  }

  ghost predicate HoldsClosed(t: Slot, c: Closed) {
    t == Slot(c.begin, c.text, Some(c.parent), Some(c.node))
  }

  function ModeOf(p: Parsed): Mode {
    if InError(p) then Error else if p.frame.open.Some? then Token else Whitespace
  }

  function IsErase(ch: char): bool { ch == BS || ch == DEL }

  /** The erased text's parse, seen from the text's: what the undo has to restore. */
  lemma ParseOfPrefix(g: Grammar, text: string)
    requires text != ""
    ensures var n := |text| - 1; var p, q := Parse(g, text[..n]), Parse(g, text);
      && WellPlaced(p) && WellPlaced(q) && p.len == n
      && (if InError(p) then q == p.(len := n + 1)
          else match Extend(g, p.frame, n, text[n])
            case None => q == p.(len := n + 1)
            case Some(f) => q == Parsed(f, n + 1, n + 1))
  {
    ParseIsWellPlaced(g, text);
    ParseIsWellPlaced(g, text[..|text| - 1]);
  }

  /** The text's closed tokens leave a slot for the next one. */
  ghost predicate StackHolds(g: Grammar, text: string) {
    |Parse(g, text).frame.closed| < MAX_NUM_TOKENS
  }

  /** No assertion of the code fails on this input after this text. */
  ghost predicate InputIsSafe(g: Grammar, text: string, ch: char) {
    if IsErase(ch) then text != "" else |text| >= MAX_LINE_SIZE - 1 || StackHolds(g, text + [ch])
  }

  function AfterInput(text: string, ch: char): string
    requires IsErase(ch) ==> text != ""
  {
    if IsErase(ch) then text[..|text| - 1] else if |text| < MAX_LINE_SIZE - 1 then text + [ch] else text
  }

  /** No text the parser can be given overflows the token stack. */
  ghost predicate Shallow(g: Grammar) {
    forall text: string :: |text| < MAX_LINE_SIZE ==> StackHolds(g, text)
  }

  /** Trees lower than the stack are shallow; so is any tree whose deep nodes no text reaches. */
  lemma LowTreesAreShallow(g: Grammar)
    requires Height(g.root) < MAX_NUM_TOKENS
    ensures Shallow(g)
  {
    hide Parse;
    forall text: string ensures StackHolds(g, text) {
      TokensWithinHeight(g, text);
    }
  }

  /** A tree 32 keywords deep is not: at the last space of its text the stack assertion fails. */
  lemma DeepChainOverflows()
    ensures var g := Grammar(Chain(MAX_NUM_TOKENS), false); var text := ChainText(MAX_NUM_TOKENS);
      |text| < MAX_LINE_SIZE && !StackHolds(g, text) && !Shallow(g)
  {
    hide Parse, Chain, ChainText;
    ChainClosesItsHeight(MAX_NUM_TOKENS, MAX_NUM_TOKENS);
    ChainTextLength(MAX_NUM_TOKENS);
  }

  lemma {:induction false} ChainTextLength(n: nat)
    ensures |ChainText(n)| == 2 * n
  {
    if n > 0 {
      ChainTextLength(n - 1);
    }
  }

  /** Height alone does not decide: a tree of parameters that match nothing is shallow however high. */
  function Mute(n: nat): Node {
    Node(Parameter(token => NoMatch), false, if n == 0 then [] else [Mute(n - 1)])
  }

  lemma {:induction false} MuteTreesAreShallow(n: nat, text: string)
    ensures Parse(Grammar(Mute(n), false), text).frame == Frame([], None, Mute(n))
    ensures Height(Mute(n)) == n
  {
    MuteHeight(n);
    hide Mute, Lookup;
    if text != "" {
      MuteTreesAreShallow(n, text[..|text| - 1]);
      MuteMatchesNothing(n, [text[|text| - 1]]);
    }
  }

  lemma {:induction false} MuteHeight(n: nat)
    ensures Height(Mute(n)) == n
  {
    if n > 0 {
      MuteHeight(n - 1);
      assert HeightOf(Mute(n).children, 0) == 0;
    }
  }

  lemma MuteMatchesNothing(n: nat, token: string)
    ensures Lookup(false, Mute(n), token).count == 0
  {
    var kids := Mute(n).children;
    assert Count(false, kids, token, 0) == 0;
    if n > 0 {
      var kid := Mute(n - 1);
      assert kids == [kid] && !kid.hidden;
      assert Recognise(kid, token) == NoMatch;
      assert Count(false, kids, token, 1) == 0;
    }
  }

  class Fsm {
    const grammar: Grammar
    var mode: Mode
    var tos: nat
    var pos: nat
    var lastGood: int
    var cur: Node
    var tokens: seq<Slot>

    /** The token stack and the current node are those of a parse. */
    ghost predicate Holds(f: Frame)
      reads this`tokens, this`tos, this`cur
    {
      && |tokens| == MAX_NUM_TOKENS && tos < MAX_NUM_TOKENS && cur == f.cur && tos == |f.closed|
      && (forall i :: 0 <= i < tos ==> HoldsClosed(tokens[i], f.closed[i]))
      && HoldsOpen(tokens[tos], f.open)
      && (forall i :: tos < i < MAX_NUM_TOKENS ==> Clean(tokens[i]))
    }

    /** The whole parser state is the one a fresh parse of `text` gives. */
    ghost predicate Represents(text: string)
      reads this
    {
      var p := Parse(grammar, text);
      Holds(p.frame) && pos == |text| && lastGood == p.good - 1 && mode == ModeOf(p)
    }

    lemma RepresentedTextFits(text: string)
      requires Represents(text)
      ensures StackHolds(grammar, text)
    {
    }

    constructor (g: Grammar)
      ensures grammar == g && Represents("")
    {
      grammar := g;
      mode, tos, pos, lastGood, cur := Whitespace, 0, 0, -1, g.root;
      tokens := seq(MAX_NUM_TOKENS, i => Empty);
    }

    /** cparser_fsm_reset */
    method Reset()
      requires |tokens| == MAX_NUM_TOKENS
      modifies this
      ensures Represents("")
    {
      lastGood, pos, tos := -1, 0, 0;
      var n := 0;
      while n < MAX_NUM_TOKENS
        invariant n <= MAX_NUM_TOKENS && |tokens| == MAX_NUM_TOKENS && lastGood == -1 && pos == 0 && tos == 0
        invariant forall i :: 0 <= i < n ==> tokens[i] == Empty
      {
        tokens := tokens[n := Empty];
        n := n + 1;
      }
      cur, mode := grammar.root, Whitespace;
    }

    /** A backspace in WHITESPACE: reopen the token whose closing space is erased, or drop a space. */
    method WsErase(ghost text: string) returns (m: Mode)
      requires Represents(text) && mode.Whitespace? && text != ""
      modifies this`tokens, this`tos, this`cur, this`pos
      ensures var p := Parse(grammar, text[..|text| - 1]); Holds(p.frame) && pos == p.len && m == ModeOf(p)
    {
      hide Parse, Lookup;
      ParseOfPrefix(grammar, text);
      pos := pos - 1;
      if tos > 0 && tokens[tos - 1].begin + |tokens[tos - 1].text| >= pos {
        cur := tokens[tos - 1].parent.value;
        tokens := tokens[tos - 1 := tokens[tos - 1].(parent := None)][tos := Empty];
        tos := tos - 1;
        return Token;
      }
      return Whitespace;
    }

    /** A character in WHITESPACE opens a token if some child can begin with it. */
    method WsChar(ch: char, ghost text: string) returns (m: Mode)
      requires Represents(text) && mode.Whitespace? && ch != ' '
      modifies this`tokens
      ensures var p := Parse(grammar, text + [ch]); Holds(p.frame) && m == ModeOf(p) && (m.Error? <==> p.good == |text|)
    {
      hide Parse, Lookup;
      ParseSnoc(grammar, text, ch);
      var found := CparserMatch(grammar.privileged, [ch], cur);
      if found.count == 0 {
        return Error;
      }
      tokens := tokens[tos := tokens[tos].(begin := pos, text := tokens[tos].text + [ch])];
      return Token;
    }

    /** A backspace in TOKEN shortens the token; the last character leaves WHITESPACE. */
    method TokErase(ghost text: string) returns (m: Mode)
      requires Represents(text) && mode.Token? && text != ""
      modifies this`tokens, this`pos
      ensures var p := Parse(grammar, text[..|text| - 1]); Holds(p.frame) && pos == p.len && m == ModeOf(p)
    {
      hide Parse, Lookup;
      ParseOfPrefix(grammar, text);
      var t := tokens[tos];
      var len := if |t.text| > 0 then |t.text| - 1 else 0;
      pos := pos - 1;
      if len == 0 {
        tokens := tokens[tos := t.(text := "", begin := -1)];
        return Whitespace;
      }
      tokens := tokens[tos := t.(text := t.text[..len])];
      return Token;
    }

    /**
     A space in TOKEN closes a complete token. `ok` is false where the code's assertion on the token stack
     fails: exactly when the text would close more tokens than the stack holds below its top.
     */
    method TokSpace(ghost text: string) returns (m: Mode, ok: bool)
      requires Represents(text) && mode.Token?
      modifies this`tokens, this`tos, this`cur
      ensures ok <==> StackHolds(grammar, text + [' '])
      ensures ok ==> var p := Parse(grammar, text + [' ']); Holds(p.frame) && m == ModeOf(p) && (m.Error? <==> p.good == |text|)
    {
      hide Parse, Lookup;
      ParseSnoc(grammar, text, ' ');
      var found := CparserMatch(grammar.privileged, tokens[tos].text, cur);
      if found.count >= 1 && found.complete {
        tokens := tokens[tos := tokens[tos].(parent := Some(cur), node := found.child)];
        tos := tos + 1;
        if !(MAX_NUM_TOKENS > tos) {
          return Error, false;
        }
        assert tokens[tos].begin == -1;
        assert tokens[tos].text == "";
        assert tokens[tos].parent.None?;
        cur := found.child.value;
        return Whitespace, true;
      }
      return Error, true;
    }

    /** A character in TOKEN: kept if the longer token still matches, else taken back. */
    method TokChar(ch: char, ghost text: string) returns (m: Mode)
      requires Represents(text) && mode.Token? && ch != ' '
      modifies this`tokens
      ensures var p := Parse(grammar, text + [ch]); Holds(p.frame) && m == ModeOf(p) && (m.Error? <==> p.good == |text|)
    {
      hide Parse, Lookup;
      ParseSnoc(grammar, text, ch);
      var t := tokens[tos];
      if |t.text| >= MAX_TOKEN_SIZE {
        return Error;
      }
      tokens := tokens[tos := t.(text := t.text + [ch])];
      var found := CparserMatch(grammar.privileged, tokens[tos].text, cur);
      if found.count == 0 {
        tokens := tokens[tos := t.(text := tokens[tos].text[..|tokens[tos].text| - 1])];
        return Error;
      }
      return Token;
    }

    /** A backspace in ERROR: leave the state when the last bad character goes. */
    method ErrErase(ghost text: string) returns (m: Mode)
      requires Represents(text) && mode.Error?
      modifies this`pos
      ensures text != "" && var p := Parse(grammar, text[..|text| - 1]); Holds(p.frame) && pos == p.len && m == ModeOf(p)
    {
      hide Parse, Lookup;
      assert 0 < pos;
      ParseOfPrefix(grammar, text);
      pos := pos - 1;
      if lastGood + 1 == pos {
        if tokens[tos].begin + |tokens[tos].text| >= pos {
          return Token;
        }
        return Whitespace;
      }
      return Error;
    }

    /**
     cparser_fsm_input: an erase undoes the last character, anything else is parsed until the line is full.
     `ok` is false exactly where an assertion of the code fails: an erase with nothing before it, or a
     space that would overflow the token stack.
     */
    method Input(ch: char, ghost text: string) returns (ok: bool)
      requires Represents(text)
      modifies this
      ensures ok <==> InputIsSafe(grammar, text, ch)
      ensures ok ==> Represents(AfterInput(text, ch))
    {
      hide Parse, Lookup, Holds;
      var m: Mode;
      ok := true;
      if IsErase(ch) {
        if !(0 < pos) {
          return false;
        }
        ParseOfPrefix(grammar, text);
        match mode {
          case Whitespace => m := WsErase(text);
          case Token => m := TokErase(text);
          case Error => m := ErrErase(text);
        }
        mode := m;
        if m != Error {
          lastGood := pos - 1;
        }
      } else {
        if pos >= MAX_LINE_SIZE - 1 {
          return;
        }
        ParseSnoc(grammar, text, ch);
        RepresentedTextFits(text);
        match mode {
          case Whitespace =>
            if ch == ' ' {
              m := Whitespace;
            } else {
              m := WsChar(ch, text);
            }
          case Token =>
            if ch == ' ' {
              m, ok := TokSpace(text);
              if !ok {
                return;
              }
            } else {
              m := TokChar(ch, text);
            }
          case Error => m := Error;
        }
        mode := m;
        pos := pos + 1;
        if m != Error {
          lastGood := pos - 1;
        }
      }
    }
  }
}
