/** The editing keys, keeping the parser in step with the text before the cursor. */
module CliEditor {
  import opened Wrappers
  import opened CliGrammar
  import opened CliParse
  import opened CliFsm
  import opened CliLine

  const MAX_LINES := 10

  /** The parser takes no more characters than this. */
  const LIMIT := MAX_LINE_SIZE - 1

  /** Erase and delete arrive as Typed; newline, tab and '?' are commands, not edits. */
  datatype Key = Typed(ch: char) | Left | Right | First | Last | Up | Down

  predicate Editing(k: Key) {
    k.Typed? ==> k.ch != '\t' && k.ch != '?' && k.ch != '\n'
  }

  /** The history and the line being edited. */
  datatype Screen = Screen(docs: seq<Doc>, cur: nat, max: nat)

  predicate ValidScreen(s: Screen) {
    |s.docs| == MAX_LINES && s.cur <= s.max < MAX_LINES && forall i :: 0 <= i < MAX_LINES ==> ValidDoc(s.docs[i])
  }

  function Current(s: Screen): (d: Doc)
    requires ValidScreen(s)
    ensures ValidDoc(d)
  {
    s.docs[s.cur]
  }

  /** What each key does to the text and the cursor. */
  function Edit(s: Screen, k: Key): Screen
    requires ValidScreen(s)
  {
    var d := Current(s);
    match k
    case Typed(ch) => s.(docs := s.docs[s.cur := if IsErase(ch) then EraseAt(d) else InsertAt(d, ch)])
    case Left => s.(docs := s.docs[s.cur := d.(cursor := if d.cursor == 0 then 0 else d.cursor - 1)])
    case Right => s.(docs := s.docs[s.cur := d.(cursor := if d.cursor == |d.text| then d.cursor else d.cursor + 1)])
    case First => s.(docs := s.docs[s.cur := d.(cursor := 0)])
    case Last => s.(docs := s.docs[s.cur := d.(cursor := |d.text|)])
    case Up => s.(cur := if s.cur == 0 then s.max else s.cur - 1)
    case Down => s.(cur := if s.cur == s.max then 0 else s.cur + 1)
  }

  /** Exactly when a key pressed in step leaves the parser in step. */
  predicate KeepsStep(s: Screen, k: Key)
    requires ValidScreen(s)
  {
    var d := Current(s);
    match k
    case Typed(ch) =>
      || IsErase(ch)
      || (if ch == NUL || |d.text| == MAX_LINE_SIZE then d.cursor == LIMIT else d.cursor < LIMIT)
    case Left => true
    case First => true
    case Right => d.cursor == |d.text| || d.cursor < LIMIT
    case Last => |d.text| <= LIMIT
    case Up => s.docs[Edit(s, Up).cur].cursor <= LIMIT
    case Down => s.docs[Edit(s, Down).cur].cursor <= LIMIT
  }

  lemma EditKeepsValid(s: Screen, k: Key)
    requires ValidScreen(s)
    ensures ValidScreen(Edit(s, k))
  {
    hide Plain;
    if k.Typed? {
      EditsStayPlain(Current(s), k.ch);
    }
  }

  /** Up shows the line before, the last one from the first; Down is its inverse; neither changes a line. */
  lemma HistoryKeys(s: Screen)
    requires ValidScreen(s)
    ensures ValidScreen(Edit(s, Up)) && ValidScreen(Edit(s, Down))
    ensures Current(Edit(s, Up)) == s.docs[if s.cur > 0 then s.cur - 1 else s.max]
    ensures Current(Edit(s, Down)) == s.docs[if s.cur < s.max then s.cur + 1 else 0]
    ensures Edit(Edit(s, Up), Down) == s && Edit(Edit(s, Down), Up) == s
    ensures Edit(s, Up).docs == Edit(s, Down).docs == s.docs
  {
    hide ValidDoc;
  }

  /** Left and Right are inverse inside the line; First and Last reach its ends; none changes the text. */
  lemma CursorKeys(s: Screen, k: Key)
    requires ValidScreen(s) && (k.Left? || k.Right? || k.First? || k.Last?)
    ensures ValidScreen(Edit(s, k)) && Current(Edit(s, k)).text == Current(s).text
    ensures var c, n := Current(s).cursor, |Current(s).text|;
      && (k.Left? && c > 0 ==> Edit(Edit(s, k), Right) == s) && (k.Right? && c < n ==> Edit(Edit(s, k), Left) == s)
      && (k.First? ==> Current(Edit(s, k)).cursor == 0) && (k.Last? ==> Current(Edit(s, k)).cursor == n)
  {
    hide Plain;
    var d := Current(s);
    assert s.docs[s.cur := d] == s.docs;
    assert Edit(s, k).docs[s.cur := d] == s.docs;
  }

  /** All lines have at most 382 characters. */
  predicate Short(s: Screen) {
    forall i :: 0 <= i < |s.docs| ==> |s.docs[i].text| <= LIMIT
  }

  /** On lines of at most 382 characters every editing key keeps step. */
  lemma ShortLinesKeepStep(s: Screen, k: Key)
    requires ValidScreen(s) && Short(s) && Short(Edit(s, k)) && k != Typed(NUL)
    ensures KeepsStep(s, k)
  {
    hide Plain;
    var d := Current(s);
    if k.Typed? && !IsErase(k.ch) {
      assert Edit(s, k).docs[s.cur] == InsertAt(d, k.ch);
    }
  }

  function After(s: Screen, keys: seq<Key>): (t: Screen)
    requires ValidScreen(s)
    ensures ValidScreen(t)
    decreases |keys|
  {
    if keys == [] then s
    else
      var t := After(s, keys[..|keys| - 1]);
      EditKeepsValid(t, keys[|keys| - 1]);
      Edit(t, keys[|keys| - 1])
  }

  class Editor {
    const fsm: Fsm
    const lines: seq<Line>
    var curLine: nat
    var maxLine: nat

    ghost function Buffers(): set<array<char>> {
      set i | 0 <= i < |lines| :: lines[i].buf
    }

    ghost predicate Valid()
      reads this, fsm, lines, Buffers()
    {
      && |lines| == MAX_LINES && curLine <= maxLine < MAX_LINES && |fsm.tokens| == MAX_NUM_TOKENS
      && Shallow(fsm.grammar)
      && (forall i :: 0 <= i < MAX_LINES ==> lines[i].Valid())
      && (forall i, j :: 0 <= i < j < MAX_LINES ==> lines[i] != lines[j] && lines[i].buf != lines[j].buf)
    }

    ghost function View(): (s: Screen)
      reads this, fsm, lines, Buffers()
      requires Valid()
      ensures ValidScreen(s)
    {
      Screen(seq(MAX_LINES, i requires 0 <= i < MAX_LINES reads this, fsm, lines, Buffers() requires Valid() => lines[i].Contents()), curLine, maxLine)
    }

    /** The parser is in the state of a fresh parse of the text before the cursor. */
    ghost predicate InStep()
      reads this, fsm, lines, Buffers()
      requires Valid()
    {
      var d := Current(View());
      d.cursor <= LIMIT && fsm.Represents(d.text[..d.cursor])
    }

    /** cparser_init */
    constructor (g: Grammar)
      requires Shallow(g)
      ensures Valid() && fsm.grammar == g && InStep()
      ensures View() == Blank
      ensures fresh(fsm) && forall i :: 0 <= i < |lines| ==> fresh(lines[i]) && fresh(lines[i].buf)
    {
      hide Parse, Shallow, Plain;
      curLine, maxLine := 0, 0;
      var made: seq<Line> := [];
      while |made| < MAX_LINES
        invariant |made| <= MAX_LINES
        invariant forall i :: 0 <= i < |made| ==>
          fresh(made[i]) && fresh(made[i].buf) && made[i].Valid() && made[i].Contents() == Doc("", 0)
        invariant forall i, j :: 0 <= i < j < |made| ==> made[i] != made[j] && made[i].buf != made[j].buf
      {
        var line := new Line();
        made := made + [line];
      }
      lines := made;
      fsm := new Fsm(g);
      PlainEmpty();
    }

    /** A character goes into the line and into the parser, each with its own limit. */
    method Type(ch: char)
      requires Valid() && InStep() && !IsErase(ch)
      modifies fsm, lines[curLine], lines[curLine].buf
      ensures Valid() && View() == Edit(old(View()), Typed(ch))
      ensures InStep() <==> KeepsStep(old(View()), Typed(ch))
      ensures ch != NUL && |Current(old(View())).text| < MAX_LINE_SIZE ==> Trails()
    {
      hide Plain, Parse, Shallow;
      ghost var d := Current(View());
      PrefixAfterInsert(d, ch);
      lines[curLine].Insert(ch);
      ShallowIsSafe(fsm.grammar, d.text[..d.cursor], ch);
      var ok := fsm.Input(ch, d.text[..d.cursor]);
      assert ok;
      assert fsm.pos == if d.cursor < LIMIT then d.cursor + 1 else d.cursor;
    }

    method Erase(ch: char)
      requires Valid() && InStep() && IsErase(ch)
      modifies fsm, lines[curLine], lines[curLine].buf
      ensures Valid() && View() == Edit(old(View()), Typed(ch)) && InStep()
    {
      hide Plain, Parse, Shallow;
      ghost var d := Current(View());
      PrefixAfterErase(d);
      var erased := lines[curLine].Delete();
      if erased {
        var ok := fsm.Input(ch, d.text[..d.cursor]);
        assert ok;
      }
    }

    method MoveLeft() returns (moved: bool)
      requires Valid() && InStep()
      modifies fsm, lines[curLine]
      ensures Valid() && View() == Edit(old(View()), Left) && InStep() && moved == (old(lines[curLine].current) > 0)
    {
      hide Plain, Parse, Shallow;
      ghost var d := Current(View());
      PrefixAfterErase(d);
      var ch := lines[curLine].PrevChar();
      moved := ch != NUL;
      if moved {
        var ok := fsm.Input(ch, d.text[..d.cursor]);
        assert ok;
      }
    }

    method MoveRight() returns (moved: bool)
      requires Valid() && InStep()
      modifies fsm, lines[curLine]
      ensures Valid() && View() == Edit(old(View()), Right)
      ensures InStep() <==> KeepsStep(old(View()), Right)
      ensures moved == (old(lines[curLine].current) < lines[curLine].last)
    {
      hide Plain, Parse, Shallow, IsErase;
      ghost var d := Current(View());
      var ch := lines[curLine].NextChar();
      moved := ch != NUL;
      if moved {
        assert ch == d.text[d.cursor] && d.text[..d.cursor + 1] == d.text[..d.cursor] + [ch];
        ShallowIsSafe(fsm.grammar, d.text[..d.cursor], ch);
        var ok := fsm.Input(ch, d.text[..d.cursor]);
        assert ok;
        assert fsm.pos == if d.cursor < LIMIT then d.cursor + 1 else d.cursor;
      }
    }

    /** What the parser knows of the first n characters of a line: it stops taking them at its limit. */
    ghost predicate Took(text: string, n: nat)
      requires n <= |text|
      reads fsm
    {
      fsm.Represents(text[..if n < LIMIT then n else LIMIT])
    }

    /** The parser holds as much of the text before the cursor as it takes; InStep says it holds all of it. */
    ghost predicate Trails()
      requires Valid()
      reads this, fsm, lines, Buffers()
    {
      var d := Current(View());
      Took(d.text, d.cursor)
    }

    /**
     Back over every character, undoing each in the parser. `ok` is false where the code's assertion that
     there is something to erase fails: exactly when the cursor stood past the parser's limit.
     */
    method MoveFirst() returns (ok: bool)
      requires Valid() && Trails()
      modifies fsm, lines[curLine]
      ensures ok <==> Current(old(View())).cursor <= LIMIT
      ensures ok ==> Valid() && View() == Edit(old(View()), First) && InStep()
    {
      hide Plain, Parse, Shallow;
      ghost var s := View();
      ghost var text, from := Current(s).text, Current(s).cursor;
      ghost var k := if from < LIMIT then from else LIMIT;
      var line := lines[curLine];
      var ch := line.PrevChar();
      while ch != NUL
        invariant Valid() && line.last == |text| && line.buf[..line.last] == text
        invariant k + from - (if from < LIMIT then from else LIMIT) == line.current + (if ch == NUL then 0 else 1)
        invariant 0 <= k <= |text| && fsm.Represents(text[..k]) && (ch == NUL ==> line.current == 0) && (ch == NUL || ch == BS)
        decreases line.current, if ch == NUL then 0 else 1
      {
        ok := fsm.Input(ch, text[..k]);
        if !ok {
          return;
        }
        assert text[..k][..k - 1] == text[..k - 1];
        k := k - 1;
        ch := line.PrevChar();
      }
      ok := true;
      assert View().docs[curLine] == Doc(text, 0);
    }

    /** Forward over every character, feeding each to the parser. */
    method MoveLast()
      requires Valid() && InStep()
      modifies fsm, lines[curLine]
      ensures Valid() && View() == Edit(old(View()), Last)
      ensures InStep() <==> KeepsStep(old(View()), Last)
    {
      hide Plain, Parse, Shallow, IsErase;
      ghost var s := View();
      ghost var text := Current(s).text;
      var line := lines[curLine];
      var moved := true;
      while moved
        invariant Valid() && line.last == |text| && line.buf[..line.last] == text && Took(text, line.current)
        invariant !moved ==> line.current == |text|
        decreases line.last - line.current, moved
      {
        ghost var n := line.current;
        var ch := line.NextChar();
        moved := ch != NUL;
        if moved {
          Feed(ch, text, n);
        }
      }
      assert View().docs[curLine] == Doc(text, |text|);
    }

    /** One more character of the line for the parser. */
    method Feed(ch: char, ghost text: string, ghost n: nat)
      requires n < |text| && ch == text[n] && !IsErase(ch) && Took(text, n) && Shallow(fsm.grammar)
      modifies fsm
      ensures Took(text, n + 1)
    {
      hide Parse, Shallow;
      ghost var k := if n < LIMIT then n else LIMIT;
      ShallowIsSafe(fsm.grammar, text[..k], ch);
      var ok := fsm.Input(ch, text[..k]);
      assert ok;
      if n < LIMIT {
        assert text[..n] + [ch] == text[..n + 1];
      }
    }

    /** Reset the parser and re-enter the text before the cursor of the line just recalled. */
    method Replay()
      requires Valid()
      modifies fsm
      ensures Valid() && View() == old(View())
      ensures InStep() <==> Current(View()).cursor <= LIMIT
    {
      hide Parse, Shallow;
      ghost var text := Current(View()).text;
      var line := lines[curLine];
      fsm.Reset();
      var n := 0;
      while n < line.current
        invariant Valid() && n <= line.current && View() == old(View()) && Took(text, n)
      {
        assert line.buf[n] == text[n];
        Feed(line.buf[n], text, n);
        n := n + 1;
      }
    }

    method PreviousLine()
      requires Valid()
      modifies this`curLine, fsm
      ensures Valid() && View() == Edit(old(View()), Up)
      ensures InStep() <==> KeepsStep(old(View()), Up)
    {
      hide Plain, Parse, Shallow;
      curLine := if curLine == 0 then maxLine else curLine - 1;
      Replay();
    }

    method NextLine()
      requires Valid()
      modifies this`curLine, fsm
      ensures Valid() && View() == Edit(old(View()), Down)
      ensures InStep() <==> KeepsStep(old(View()), Down)
    {
      hide Plain, Parse, Shallow;
      curLine := if maxLine < curLine + 1 then 0 else curLine + 1;
      Replay();
    }

    /** cparser_input for editing keys: the text changes as specified, and step is kept exactly when stated. */
    method Press(k: Key)
      requires Valid() && InStep() && Editing(k)
      modifies this`curLine, fsm, lines, Buffers()
      ensures Valid() && View() == Edit(old(View()), k)
      ensures InStep() <==> KeepsStep(old(View()), k)
    {
      hide Plain, Parse, Shallow;
      match k
      case Typed(ch) =>
        if IsErase(ch) {
          Erase(ch);
        } else {
          Type(ch);
        }
      case Left => var _ := MoveLeft();
      case Right => var _ := MoveRight();
      case First => var ok := MoveFirst(); assert ok;
      case Last => MoveLast();
      case Up => PreviousLine();
      case Down => NextLine();
    }

    /** Any sequence of keys that each keep step leaves the parser in the state of a fresh parse. */
    method PressAll(keys: seq<Key>)
      requires Valid() && InStep()
      requires forall i :: 0 <= i < |keys| ==> Editing(keys[i]) && KeepsStep(After(View(), keys[..i]), keys[i])
      modifies this`curLine, fsm, lines, Buffers()
      ensures Valid() && View() == After(old(View()), keys) && InStep()
    {
      hide Plain, Parse, Shallow, KeepsStep, Edit;
      ghost var s := View();
      var i := 0;
      while i < |keys|
        invariant 0 <= i <= |keys| && Valid() && InStep() && View() == After(s, keys[..i])
      {
        Press(keys[i]);
        assert keys[..i + 1][..i] == keys[..i];
        i := i + 1;
      }
      assert keys[..i] == keys;
    }
  }

  lemma AfterOneMore(s: Screen, keys: seq<Key>, i: nat)
    requires ValidScreen(s) && i < |keys|
    ensures After(s, keys[..i + 1]) == Edit(After(s, keys[..i]), keys[i])
  {
    hide ValidScreen, Edit;
    assert keys[..i + 1][..i] == keys[..i];
  }

  // ---------------------------------------------------------------------------
  // Longer lines do lose step

  const Blank := Screen(seq(MAX_LINES, i => Doc("", 0)), 0, 0)

  function Letters(n: nat): string { seq(n, i => 'a') }

  function LetterKeys(n: nat): seq<Key> { seq(n, i => Typed('a')) }

  lemma {:induction false} TypedLetters(n: nat)
    requires n <= MAX_LINE_SIZE
    ensures ValidScreen(Blank) && After(Blank, LetterKeys(n)) == Blank.(docs := Blank.docs[0 := Doc(Letters(n), n)])
  {
    if n > 0 {
      TypedLetters(n - 1);
      assert LetterKeys(n)[..n - 1] == LetterKeys(n - 1);
      assert InsertAt(Doc(Letters(n - 1), n - 1), 'a').text == Letters(n);
    } else {
      assert Letters(0) == "";
      assert Blank.docs[0 := Doc("", 0)] == Blank.docs;
    }
  }

  /** After 382 letters the parser is still in step; the 383rd goes into the line but not into the parser. */
  lemma LongLineLosesStep()
    ensures ValidScreen(Blank)
    ensures !KeepsStep(After(Blank, LetterKeys(LIMIT)), Typed('a'))
    ensures forall i :: 0 <= i < LIMIT ==> KeepsStep(After(Blank, LetterKeys(i)), Typed('a'))
  {
    TypedLetters(LIMIT);
    forall i | 0 <= i < LIMIT ensures KeepsStep(After(Blank, LetterKeys(i)), Typed('a')) {
      TypedLetters(i);
    }
  }

  /** Keys typed on lines that never exceed 382 characters meet PressAll's condition. */
  lemma ShortRunsKeepStep(s: Screen, keys: seq<Key>)
    requires ValidScreen(s) && forall i :: 0 <= i <= |keys| ==> Short(After(s, keys[..i]))
    requires forall i :: 0 <= i < |keys| ==> keys[i] != Typed(NUL)
    ensures forall i :: 0 <= i < |keys| ==> KeepsStep(After(s, keys[..i]), keys[i])
  {
    hide ValidScreen, Edit, KeepsStep, Short, After;
    forall i | 0 <= i < |keys| ensures KeepsStep(After(s, keys[..i]), keys[i]) {
      AfterOneMore(s, keys, i);
      assert Short(After(s, keys[..i + 1]));
      ShortLinesKeepStep(After(s, keys[..i]), keys[i]);
    }
  }

  /** Typing 383 letters and then the key for the beginning of the line makes the code's assertion fail. */
  method LongLineHome(g: Grammar) returns (ok: bool)
    requires Shallow(g)
    ensures !ok
  {
    hide Parse, Shallow, Plain, Letters, Editor.InStep, Editor.Trails;
    var e := new Editor(g);
    BlankIsNoLetters();
    var i := 0;
    while i < MAX_LINE_SIZE
      invariant 0 <= i <= MAX_LINE_SIZE && e.Valid() && (i > LIMIT || e.InStep()) && (i > 0 ==> e.Trails())
      invariant fresh(e.fsm) && forall j :: 0 <= j < |e.lines| ==> fresh(e.lines[j]) && fresh(e.lines[j].buf)
      invariant e.View() == Blank.(docs := Blank.docs[0 := Doc(Letters(i), i)])
    {
      OneMoreLetter(i);
      e.Type('a');
      i := i + 1;
    }
    ok := e.MoveFirst();
  }

  lemma PlainEmpty()
    ensures Plain("")
  {
  }

  lemma BlankIsNoLetters()
    ensures Blank == Blank.(docs := Blank.docs[0 := Doc(Letters(0), 0)])
  {
    assert Letters(0) == "";
    assert Blank.docs[0 := Doc("", 0)] == Blank.docs;
  }

  lemma OneMoreLetter(i: nat)
    requires i < MAX_LINE_SIZE
    ensures |Letters(i)| == i && InsertAt(Doc(Letters(i), i), 'a') == Doc(Letters(i + 1), i + 1)
  {
    assert Letters(i)[..i] + ['a'] + Letters(i)[i..] == Letters(i + 1);
  }

  lemma ShallowIsSafe(g: Grammar, text: string, ch: char)
    requires Shallow(g) && !IsErase(ch)
    ensures InputIsSafe(g, text, ch)
  {
    hide Parse;
  }

  lemma PrefixAfterInsert(d: Doc, ch: char)
    requires ValidDoc(d)
    ensures var e := InsertAt(d, ch);
      && e.text[..e.cursor] == (if ch == NUL || |d.text| == MAX_LINE_SIZE then d.text[..d.cursor] else d.text[..d.cursor] + [ch])
      && e.text[..d.cursor] == d.text[..d.cursor]
  {
  }

  lemma PrefixAfterErase(d: Doc)
    requires ValidDoc(d)
    ensures var e := EraseAt(d);
      d.cursor > 0 ==> e.text[..e.cursor] == d.text[..d.cursor][..d.cursor - 1] == d.text[..d.cursor - 1]
  {
  }
}
