/** The line buffer: characters shifted in place around a cursor. */
module CliLine {
  import opened Wrappers
  import opened CliFsm

  const NUL := '\0'

  /** A line as text and cursor. */
  datatype Doc = Doc(text: string, cursor: nat)

  /** Characters a line may hold: the parser must not take one for an erase, nor a scan for the end. */
  predicate Plain(text: string) {
    forall i :: 0 <= i < |text| ==> text[i] != NUL && !IsErase(text[i])
  }

  predicate ValidDoc(d: Doc) {
    d.cursor <= |d.text| <= MAX_LINE_SIZE && Plain(d.text)
  }

  function InsertAt(d: Doc, ch: char): Doc
    requires d.cursor <= |d.text|
  {
    if ch == NUL || |d.text| >= MAX_LINE_SIZE then d
    else Doc(d.text[..d.cursor] + [ch] + d.text[d.cursor..], d.cursor + 1)
  }

  function EraseAt(d: Doc): Doc
    requires d.cursor <= |d.text|
  {
    if d.cursor == 0 then d else Doc(d.text[..d.cursor - 1] + d.text[d.cursor..], d.cursor - 1)
  }

  lemma EditsStayPlain(d: Doc, ch: char)
    requires ValidDoc(d)
    ensures ValidDoc(EraseAt(d))
    ensures !IsErase(ch) ==> ValidDoc(InsertAt(d, ch))
  {
  }

  /** Erasing takes back an insertion, and inserting the character again takes back an erasure. */
  lemma InsertEraseInverse(d: Doc, ch: char)
    requires ValidDoc(d)
    ensures ch != NUL && |d.text| < MAX_LINE_SIZE ==> EraseAt(InsertAt(d, ch)) == d
    ensures d.cursor > 0 ==> InsertAt(EraseAt(d), d.text[d.cursor - 1]) == d
  {
    if ch != NUL && |d.text| < MAX_LINE_SIZE {
      var e := InsertAt(d, ch);
      assert e.text[..e.cursor - 1] == d.text[..d.cursor] && e.text[e.cursor..] == d.text[d.cursor..];
      assert d.text == d.text[..d.cursor] + d.text[d.cursor..];
    }
    if d.cursor > 0 {
      var e := EraseAt(d);
      assert e.text[..e.cursor] == d.text[..d.cursor - 1] && e.text[e.cursor..] == d.text[d.cursor..];
      assert d.text == d.text[..d.cursor - 1] + [d.text[d.cursor - 1]] + d.text[d.cursor..];
    }
  }

  /** Move buf[from..to] up by one place, last character first. */
  method ShiftUp(buf: array<char>, from: nat, to: nat)
    requires from <= to < buf.Length
    modifies buf
    ensures buf[..from] == old(buf[..from]) && buf[from + 1..to + 1] == old(buf[from..to])
  {
    var n := to;
    while n > from
      invariant from <= n <= to
      invariant buf[..n] == old(buf[..n]) && buf[n + 1..to + 1] == old(buf[n..to])
    {
      buf[n] := buf[n - 1];
      n := n - 1;
    }
  }

  /** Move buf[from..to] down by one place, first character first. */
  method ShiftDown(buf: array<char>, from: nat, to: nat)
    requires 0 < from <= to < buf.Length
    modifies buf
    ensures buf[..from - 1] == old(buf[..from - 1]) && buf[from - 1..to - 1] == old(buf[from..to])
  {
    var n := from;
    while n < to
      invariant from <= n <= to && buf[..from - 1] == old(buf[..from - 1])
      invariant buf[from - 1..n - 1] == old(buf[from..n]) && buf[n..to] == old(buf[n..to])
    {
      assert buf[n] == buf[n..to][0] == old(buf[n..to])[0];
      buf[n - 1] := buf[n];
      n := n + 1;
    }
  }

  class Line {
    var last: nat
    var current: nat
    const buf: array<char>

    ghost predicate Valid()
      reads this, buf
    {
      buf.Length == MAX_LINE_SIZE + 1 && current <= last <= MAX_LINE_SIZE && buf[last] == NUL && Plain(buf[..last])
    }

    function Contents(): Doc
      requires last <= buf.Length
      reads this, buf
    {
      Doc(buf[..last], current)
    }

    /** cparser_line_reset */
    constructor ()
      ensures Valid() && fresh(buf) && Contents() == Doc("", 0)
    {
      last, current := 0, 0;
      buf := new char[MAX_LINE_SIZE + 1](i => NUL);
    }

    /** cparser_line_insert: shift the tail up by one and write the character at the cursor. */
    method Insert(ch: char)
      requires Valid() && !IsErase(ch)
      modifies this, buf
      ensures Valid() && Contents() == InsertAt(old(Contents()), ch)
    {
      hide Plain;
      if ch == NUL || MAX_LINE_SIZE <= last {
        return;
      }
      EditsStayPlain(Contents(), ch);
      ghost var text := buf[..last];
      ShiftUp(buf, current, last);
      last := last + 1;
      buf[last] := NUL;
      buf[current] := ch;
      current := current + 1;
      assert buf[..last] == text[..current - 1] + [ch] + text[current - 1..];
    }

    /** cparser_line_delete: shift the tail down by one over the character before the cursor. */
    method Delete() returns (erased: bool)
      requires Valid()
      modifies this, buf
      ensures Valid() && Contents() == EraseAt(old(Contents())) && erased == (old(current) > 0)
    {
      hide Plain;
      if last == 0 || current == 0 {
        return false;
      }
      EditsStayPlain(Contents(), NUL);
      ghost var text := buf[..last];
      ShiftDown(buf, current, last);
      current := current - 1;
      last := last - 1;
      buf[last] := NUL;
      assert buf[..last] == text[..current] + text[current + 1..];
      return true;
    }

    /** cparser_line_next_char: NUL at the end of the line. */
    method NextChar() returns (ch: char)
      requires Valid()
      modifies this`current
      ensures Valid()
      ensures if old(current) == last then ch == NUL && current == old(current)
              else ch == buf[old(current)] != NUL && !IsErase(ch) && current == old(current) + 1
    {
      if last == current {
        return NUL;
      }
      ch := buf[current];
      assert ch == buf[..last][current];
      current := current + 1;
    }

    /** cparser_line_prev_char: a backspace, or NUL at the beginning of the line. */
    method PrevChar() returns (ch: char)
      requires Valid()
      modifies this`current
      ensures Valid()
      ensures if old(current) == 0 then ch == NUL && current == 0 else ch == BS && current == old(current) - 1
    {
      if current == 0 {
        return NUL;
      }
      current := current - 1;
      return BS;
    }
  }
}
