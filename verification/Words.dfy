/**
 Multi-word unsigned numbers as the classifier stores them: 32-bit words, most significant word
 first. `Val` gives the number a word sequence denotes; the operations below are proved to be
 exact integer order, decrement and increment on it.
 */
module Words {

  const RADIX: nat := 0x1_0000_0000
  const WORD_MAX: Word := 0xFFFF_FFFF

  newtype Word = x: int | 0 <= x < 0x1_0000_0000

  /** A dimension's value: big-endian words. */
  type Key = seq<Word>

  function Val(k: Key): nat {
    if |k| == 0 then 0 else Val(k[..|k| - 1]) * RADIX + k[|k| - 1] as nat
  }

  function Power(n: nat): nat {
    if n == 0 then 1 else Power(n - 1) * RADIX
  }

  /** A key of n words denotes a number below RADIX^n. */
  lemma {:induction false} ValBound(k: Key)
    ensures Val(k) < Power(|k|)
  {
    if |k| > 0 {
      ValBound(k[..|k| - 1]);
    }
  }

  /** Order is decided at the first differing word, whatever follows it. */
  lemma {:induction false} FirstDifferenceDecides(a: Key, b: Key, i: nat)
    requires |a| == |b| && i < |a|
    requires a[..i] == b[..i] && a[i] < b[i]
    ensures Val(a) < Val(b)
  {
    var n := |a| - 1;
    if i < n {
      assert a[..n][..i] == a[..i] == b[..i] == b[..n][..i];
      FirstDifferenceDecides(a[..n], b[..n], i);
    }
  }

  /** Leading zero words do not change the number. */
  lemma {:induction false} LeadingZeros(n: nat, k: Key)
    ensures Val(seq(n, i => 0 as Word) + k) == Val(k)
    decreases |k|, n
  {
    var z := seq(n, i => 0 as Word);
    if |k| > 0 {
      LeadingZeros(n, k[..|k| - 1]);
      assert (z + k)[..|z + k| - 1] == z + k[..|k| - 1];
    } else if n > 0 {
      assert z + k == z;
      assert z[..n - 1] == seq(n - 1, i => 0 as Word) + k;
      LeadingZeros(n - 1, k);
    }
  }

  /** A number below RADIX^n held in more than n words has only zeros in the leading ones. */
  lemma {:induction false} LeadingWordsAreZero(k: Key, n: nat)
    requires n <= |k| && Val(k) < Power(n)
    ensures Val(k[|k| - n..]) == Val(k)
  {
    var m := |k| - 1;
    if n == 0 {
      assert k[|k|..] == [];
    } else {
      var front := k[..m];
      assert Val(front) < Power(n - 1);
      LeadingWordsAreZero(front, n - 1);
      assert k[|k| - n..][..n - 1] == front[m - (n - 1)..];
    }
  }

  /** The n low words are the number's remainder modulo RADIX^n. */
  lemma {:induction false} LowWordsSplit(k: Key, n: nat)
    requires n <= |k|
    ensures Val(k) == Val(k[..|k| - n]) * Power(n) + Val(k[|k| - n..])
  {
    if n == 0 {
      assert k[..|k|] == k && k[|k|..] == [];
    } else {
      var front := k[..|k| - 1];
      LowWordsSplit(front, n - 1);
      var m := |k| - n;
      assert |front| - (n - 1) == m && front[..m] == k[..m];
      assert k[m..][..n - 1] == k[m..|k| - 1] == front[m..];
      SplitArithmetic(Val(k[..m]), Power(n - 1), Val(front[m..]));
    }
  }

  lemma SplitArithmetic(h: nat, p: nat, l: nat)
    ensures (h * p + l) * RADIX == h * (p * RADIX) + l * RADIX
  {
  }

  /** Equal numbers of equal width are equal word for word. */
  lemma {:induction false} ValInjective(a: Key, b: Key)
    requires |a| == |b| && Val(a) == Val(b)
    ensures a == b
  {
    if |a| > 0 {
      var n := |a| - 1;
      ValInjective(a[..n], b[..n]);
      assert a == a[..n] + [a[n]] && b == b[..n] + [b[n]];
    }
  }

  /** SegPointCompare*: scans from the most significant word and answers -1, 0 or 1. */
  method Compare(a: Key, b: Key) returns (r: int)
    requires |a| == |b|
    ensures -1 <= r <= 1
    ensures r < 0 <==> Val(a) < Val(b)
    ensures r == 0 <==> a == b
    ensures r == 0 <==> Val(a) == Val(b)
    ensures r > 0 <==> Val(a) > Val(b)
  {
    for i := 0 to |a|
      invariant a[..i] == b[..i]
    {
      if a[i] < b[i] {
        FirstDifferenceDecides(a, b, i);
        return -1;
      } else if a[i] > b[i] {
        FirstDifferenceDecides(b, a, i);
        return 1;
      }
    }
    assert a[..|a|] == a && b[..|b|] == b;
    return 0;
  }

  /** What a completed borrow leaves: one word decremented, every later zero word turned to all ones. */
  ghost predicate Borrowed(before: Key, after: Key, i: nat)
    requires |before| == |after| && i <= |before|
  {
    forall j :: i <= j < |before| ==> before[j] == 0 && after[j] == WORD_MAX
  }

  lemma {:induction false} BorrowAll(s: Key, t: Key)
    requires |s| == |t| && Borrowed(s, t, 0)
    ensures Val(s) == 0 && Val(t) == Power(|t|) - 1
  {
    if |s| > 0 {
      BorrowAll(s[..|s| - 1], t[..|t| - 1]);
    }
  }

  lemma {:induction false} BorrowStopped(s: Key, t: Key, i: nat)
    requires |s| == |t| && i < |s| && s[..i] == t[..i]
    requires s[i] > 0 && t[i] == s[i] - 1 && Borrowed(s, t, i + 1)
    ensures Val(t) == Val(s) - 1
  {
    var n := |s| - 1;
    if i < n {
      assert s[..n][..i] == s[..i] == t[..i] == t[..n][..i];
      BorrowStopped(s[..n], t[..n], i);
    }
  }

  /** Subtract: decrement in place; zero wraps to all ones. */
  method Subtract(a: array<Word>)
    modifies a
    ensures old(Val(a[..])) > 0 ==> Val(a[..]) == old(Val(a[..])) - 1
    ensures old(Val(a[..])) == 0 ==> Val(a[..]) == Power(a.Length) - 1
  {
    ghost var s := a[..];
    var i := a.Length;
    while i > 0
      invariant 0 <= i <= a.Length
      invariant a[..i] == s[..i]
      invariant Borrowed(s, a[..], i)
    {
      i := i - 1;
      if a[i] == 0 {
        a[i] := WORD_MAX;
      } else {
        a[i] := a[i] - 1;
        BorrowStopped(s, a[..], i);
        return;
      }
    }
    BorrowAll(s, a[..]);
  }

  /** Add: increment in place; answers 0 exactly when every word was all ones and wrapped to 0. */
  method Add(a: array<Word>) returns (r: int)
    modifies a
    ensures old(Val(a[..])) < Power(a.Length) - 1 ==> r == 1 && Val(a[..]) == old(Val(a[..])) + 1
    ensures old(Val(a[..])) == Power(a.Length) - 1 ==> r == 0 && Val(a[..]) == 0
  {
    ghost var s := a[..];
    var i := a.Length;
    while i > 0
      invariant 0 <= i <= a.Length
      invariant a[..i] == s[..i]
      invariant Borrowed(a[..], s, i)
    {
      i := i - 1;
      a[i] := if a[i] == WORD_MAX then 0 else a[i] + 1;
      if a[i] > 0 {
        BorrowStopped(a[..], s, i);
        ValBound(a[..]);
        return 1;
      }
    }
    BorrowAll(a[..], s);
    return 0;
  }

  /** Assign_DiffBits: copy a narrow key into a wide one, high words cleared. */
  method AssignDiffBits(dst: array<Word>, src: Key)
    requires |src| <= dst.Length
    modifies dst
    ensures Val(dst[..]) == Val(src)
  {
    var shift := dst.Length - |src|;
    for i := 0 to shift
      invariant forall j :: 0 <= j < i ==> dst[j] == 0
    {
      dst[i] := 0;
    }
    for i := shift to dst.Length
      invariant forall j :: 0 <= j < shift ==> dst[j] == 0
      invariant forall j :: shift <= j < i ==> dst[j] == src[j - shift]
    {
      dst[i] := src[i - shift];
    }
    assert dst[..] == seq(shift, i => 0 as Word) + src;
    LeadingZeros(shift, src);
  }
}
