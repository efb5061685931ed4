/**
 * Small string utilities that the timer script gets from JavaScript itself:
 * decimal rendering of integers (template literals), `Array.prototype.join`
 * with a single space, and the searching the regular-expression engine does.
 * Each comes with the inverse or the characterisation the other modules use.
 */
module Text {
  import opened Wrappers

  /** Index of the first occurrence of `c` in `s`, or `|s|` when there is none. */
  function IndexOf(s: string, c: char): (i: nat)
    ensures i <= |s|
    ensures i < |s| ==> s[i] == c
    ensures forall j :: 0 <= j < i ==> s[j] != c
  {
    if |s| == 0 then 0
    else if s[0] == c then 0
    else 1 + IndexOf(s[1..], c)
  }

  /** The first `c` in `w + s` is the one that starts `s` when `w` has none. */
  lemma IndexOfAfter(w: string, s: string, c: char)
    requires c !in w && |s| > 0 && s[0] == c
    ensures IndexOf(w + s, c) == |w|
  {
    assert (w + s)[|w|] == c;
    assert forall j :: 0 <= j < |w| ==> (w + s)[j] == w[j];
  }

  /** With no `c` in `w`, the search runs to the end of `w`. */
  lemma IndexOfNone(w: string, c: char)
    requires c !in w
    ensures IndexOf(w, c) == |w|
  {
  }

  /** The text before the first `c` holds no `c`. */
  lemma BeforeIndexOf(s: string, c: char)
    ensures c !in s[..IndexOf(s, c)]
  {
    var i := IndexOf(s, c);
    forall j | 0 <= j < i ensures s[..i][j] != c {
      assert s[..i][j] == s[j];
    }
  }

  /** The text from the first `c` on is empty or starts with `c`. */
  lemma FromIndexOf(s: string, c: char)
    ensures var i := IndexOf(s, c); s[i..] == [] || s[i..][0] == c
  {
  }

  /** A text cut in two at `n`. */
  lemma TakeDrop(s: string, n: nat)
    requires n <= |s|
    ensures s == s[..n] + s[n..]
  {
  }

  /** A text that starts with `p`. */
  lemma PrefixRest(s: string, p: string)
    requires p <= s
    ensures s == p + s[|p|..]
  {
  }

  /** Left-nested concatenation of six texts, nested to the right. */
  lemma Regroup(a: string, b: string, c: string, d: string, e: string, f: string)
    ensures (a + b) + c + d + e + f == a + (b + (c + (d + (e + f))))
  {
  }

  /** A text cut around an occurrence of `p` at position `t`. */
  lemma SplitAround(s: string, p: string, t: nat)
    requires t <= |s| && p <= s[t..]
    ensures s == s[..t] + (p + s[t + |p|..])
  {
    assert s[t..] == p + s[t + |p|..];
  }

  predicate IsDigit(c: char) {
    '0' <= c <= '9'
  }

  function DigitChar(d: nat): (c: char)
    requires d < 10
    ensures IsDigit(c)
  {
    "0123456789"[d]
  }

  function DigitValue(c: char): (d: nat)
    requires IsDigit(c)
    ensures d < 10 && DigitChar(d) == c
  {
    (c as int - '0' as int) as nat
  }

  /** Decimal digits of a natural number, without leading zeros, as `${n}` writes it. */
  function Show(n: nat): (s: string)
    ensures |s| >= 1
    ensures forall i :: 0 <= i < |s| ==> IsDigit(s[i])
  {
    if n < 10 then [DigitChar(n)] else Show(n / 10) + [DigitChar(n % 10)]
  }

  /** `${i}` for an integer: a minus sign before the digits of a negative number. */
  function ShowInt(i: int): (s: string)
    ensures |s| >= 1 && ' ' !in s
  {
    if i < 0 then "-" + Show(-i) else Show(i)
  }

  /** Reads a non-empty run of decimal digits back into the number it denotes. */
  function ReadNat(s: string): (r: Option<nat>)
    ensures r.Some? ==> |s| >= 1
  {
    if |s| == 0 || !IsDigit(s[|s| - 1]) then None
    else if |s| == 1 then Some(DigitValue(s[0]))
    else match ReadNat(s[..|s| - 1])
      case None => None
      case Some(high) => Some(high * 10 + DigitValue(s[|s| - 1]))
  }

  /** Reading the decimal text of a number gives the number back. */
  lemma {:induction false} ReadShow(n: nat)
    ensures ReadNat(Show(n)) == Some(n)
  {
    if n >= 10 {
      var s := Show(n);
      assert s[..|s| - 1] == Show(n / 10);
      ReadShow(n / 10);
    }
  }

  /** Joins the words with one space between neighbours, as `words.join(' ')` does. */
  function Join(words: seq<string>): (s: string)
    ensures |words| >= 1 ==> words[0] <= s
    ensures |words| >= 1 ==>
      var last := words[|words| - 1];
      |last| <= |s| && s[|s| - |last|..] == last
    ensures |words| == 1 ==> s == words[0]
  {
    if |words| == 0 then ""
    else if |words| == 1 then words[0]
    else words[0] + " " + Join(words[1..])
  }

  /** Cuts a text at every space; the inverse of `Join` for words without spaces. */
  function Split(s: string): (words: seq<string>)
    ensures |words| >= 1
    decreases |s|
  {
    var i := IndexOf(s, ' ');
    if i == |s| then [s] else [s[..i]] + Split(s[i + 1..])
  }

  predicate Spaceless(words: seq<string>) {
    forall i :: 0 <= i < |words| ==> ' ' !in words[i]
  }

  /** A space-free word before a space is split off as the first word. */
  lemma SplitFirst(w: string, rest: string)
    requires ' ' !in w
    ensures Split(w + " " + rest) == [w] + Split(rest)
  {
    var s := w + " " + rest;
    assert s[|w|] == ' ';
    assert forall j :: 0 <= j < |w| ==> s[j] == w[j];
    assert IndexOf(s, ' ') == |w|;
    assert s[..|w|] == w && s[|w| + 1..] == rest;
  }

  /** Splitting a joined list of space-free words recovers the list. */
  lemma {:induction false} SplitJoin(words: seq<string>)
    requires |words| >= 1 && Spaceless(words)
    ensures Split(Join(words)) == words
  {
    if |words| == 1 {
      IndexOfNone(words[0], ' ');
    } else {
      assert Join(words) == words[0] + " " + Join(words[1..]);
      SplitFirst(words[0], Join(words[1..]));
      SplitJoin(words[1..]);
      assert words == [words[0]] + words[1..];
    }
  }
}
