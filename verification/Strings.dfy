/** The string operations of the source language that the components share:
    whitespace, `strip`, `split`, `splitlines`, `join`, `replace` and substring tests,
    with the facts about them the other modules need.  A string is a sequence of
    Unicode scalar values. */
module Strings {

  datatype Option<+T> = None | Some(value: T)

  // ---------------------------------------------------------------- characters

  /** `str.isspace`, which is also what `\s` matches. */
  predicate IsSpace(c: char) {
    || c == ' ' || '\t' <= c <= '\r' || '\U{1C}' <= c <= '\U{1F}'
    || c == '\U{85}' || c == '\U{A0}' || c == '\U{1680}' || '\U{2000}' <= c <= '\U{200A}'
    || c == '\U{2028}' || c == '\U{2029}' || c == '\U{202F}' || c == '\U{205F}' || c == '\U{3000}'
  }

  /** Where `str.splitlines` ends a line. */
  predicate IsLineBreak(c: char) {
    || '\n' <= c <= '\r' || '\U{1C}' <= c <= '\U{1E}'
    || c == '\U{85}' || c == '\U{2028}' || c == '\U{2029}'
  }

  predicate IsQuote(c: char) { c == '"' || c == '\'' }

  predicate IsBackslash(c: char) { c == '\\' }

  predicate IsDigit(c: char) { '0' <= c <= '9' }

  function DigitValue(c: char): nat
    requires IsDigit(c)
  {
    c as int - '0' as int
  }

  predicate IsAsciiLetter(c: char) { 'a' <= c <= 'z' || 'A' <= c <= 'Z' }

  function LowerChar(c: char): char {
    if 'A' <= c <= 'Z' then c - 'A' + 'a' else c
  }

  function LowerAscii(s: string): string {
    seq(|s|, i requires 0 <= i < |s| => LowerChar(s[i]))
  }

  predicate NoBreaks(s: string) {
    forall i | 0 <= i < |s| :: !IsLineBreak(s[i])
  }

  predicate NoSpaces(s: string) {
    forall i | 0 <= i < |s| :: !IsSpace(s[i])
  }

  predicate AreLines(lines: seq<string>) {
    forall i | 0 <= i < |lines| :: NoBreaks(lines[i])
  }

  // ---------------------------------------------------------------- strip

  function TrimLeft(s: string, drop: char -> bool): (r: string)
    ensures |r| <= |s| && r == s[|s| - |r|..]
    ensures r == "" || !drop(r[0])
    ensures s == "" || !drop(s[0]) ==> r == s
  {
    if s != "" && drop(s[0]) then TrimLeft(s[1..], drop) else s
  }

  function TrimRight(s: string, drop: char -> bool): (r: string)
    ensures |r| <= |s| && r == s[..|r|]
    ensures r == "" || !drop(r[|r| - 1])
    ensures s == "" || !drop(s[|s| - 1]) ==> r == s
  {
    if s != "" && drop(s[|s| - 1]) then TrimRight(s[..|s| - 1], drop) else s
  }

  function StripBy(s: string, drop: char -> bool): (r: string)
    ensures |r| <= |s|
    ensures r == "" || (!drop(r[0]) && !drop(r[|r| - 1]))
    ensures s == "" || (!drop(s[0]) && !drop(s[|s| - 1])) ==> r == s
  {
    TrimRight(TrimLeft(s, drop), drop)
  }

  /** `str.strip` without arguments. */
  function Strip(s: string): (r: string)
    ensures |r| <= |s|
    ensures Trimmed(r)
    ensures Trimmed(s) ==> r == s
  {
    StripBy(s, IsSpace)
  }

  /** No whitespace at either end. */
  predicate Trimmed(s: string) {
    s == "" || (!IsSpace(s[0]) && !IsSpace(s[|s| - 1]))
  }

  lemma StripBySlice(s: string, drop: char -> bool) returns (a: nat, b: nat)
    ensures a <= b <= |s| && StripBy(s, drop) == s[a..b]
  {
    var t := TrimLeft(s, drop);
    a := |s| - |t|;
    b := a + |TrimRight(t, drop)|;
  }

  lemma StripSlice(s: string) returns (a: nat, b: nat)
    ensures a <= b <= |s| && Strip(s) == s[a..b]
  {
    a, b := StripBySlice(s, IsSpace);
  }

  /** Trimming stops at text that ends in a character to keep. */
  lemma {:induction false} TrimRightConcat(x: string, v: string, drop: char -> bool)
    requires x != "" && !drop(x[|x| - 1])
    ensures TrimRight(x + v, drop) == x + TrimRight(v, drop)
    decreases |v|
  {
    var s := x + v;
    if v == "" {
      assert s == x;
    } else {
      assert s[|s| - 1] == v[|v| - 1];
      if drop(v[|v| - 1]) {
        assert s[..|s| - 1] == x + v[..|v| - 1];
        TrimRightConcat(x, v[..|v| - 1], drop);
      }
    }
  }

  // ---------------------------------------------------------------- characters replaced

  /** `s.replace(a, b)` for single characters. */
  function ReplaceChar(s: string, a: char, b: char): (r: string)
    ensures |r| == |s|
  {
    seq(|s|, i requires 0 <= i < |s| => if s[i] == a then b else s[i])
  }

  function ForwardSlashes(s: string): (r: string)
    ensures |r| == |s|
  {
    ReplaceChar(s, '\\', '/')
  }

  // ---------------------------------------------------------------- substrings

  predicate Occurs(w: string, s: string, i: nat) {
    i + |w| <= |s| && s[i..i + |w|] == w
  }

  predicate Contains(s: string, w: string) {
    exists i: nat | i <= |s| :: Occurs(w, s, i)
  }

  predicate StartsWith(s: string, w: string) {
    Occurs(w, s, 0)
  }

  lemma OccursInSlice(s: string, a: nat, b: nat, w: string, i: nat)
    requires a <= b <= |s|
    requires i + |w| <= b - a
    ensures Occurs(w, s[a..b], i) <==> Occurs(w, s, a + i)
  {
    var x, y := s[a..b][i..i + |w|], s[a + i..a + i + |w|];
    assert forall k | 0 <= k < |w| :: x[k] == y[k] by {
      assert forall k | 0 <= k < |w| :: x[k] == s[a..b][i + k] == s[a + i + k] == y[k];
    }
    assert x == y;
  }

  /** A character that is not in the pattern is not in an occurrence of it. */
  lemma OccurrenceAvoids(s: string, w: string, i: nat, k: nat)
    requires Occurs(w, s, i) && k < |s| && s[k] !in w
    ensures k < i || i + |w| <= k
  {
    assert forall j | 0 <= j < |w| :: w[j] == s[i + j] && w[j] in w;
  }

  lemma ContainsInSlice(s: string, a: nat, b: nat, w: string)
    requires a <= b <= |s|
    requires Contains(s[a..b], w)
    ensures Contains(s, w)
  {
    var i: nat :| i <= b - a && Occurs(w, s[a..b], i);
    OccursInSlice(s, a, b, w, i);
  }

  // ---------------------------------------------------------------- lines

  function FirstBreak(s: string): (n: nat)
    ensures n <= |s|
    ensures NoBreaks(s[..n])
    ensures n < |s| ==> IsLineBreak(s[n])
  {
    if s == "" || IsLineBreak(s[0]) then 0
    else
      var n := 1 + FirstBreak(s[1..]);
      assert s[..n] == [s[0]] + s[1..][..n - 1];
      n
  }

  /** `str.splitlines`: no final empty line, and CR LF counts once. */
  function SplitLines(s: string): (lines: seq<string>)
    ensures AreLines(lines)
    decreases |s|
  {
    if s == "" then []
    else
      var n := FirstBreak(s);
      if n == |s| then assert s[..n] == s; [s]
      else
        var skip := if s[n] == '\r' && n + 1 < |s| && s[n + 1] == '\n' then 2 else 1;
        [s[..n]] + SplitLines(s[n + skip..])
  }

  /** Every line followed by a newline. */
  function Unlines(lines: seq<string>): string {
    if lines == [] then "" else lines[0] + "\n" + Unlines(lines[1..])
  }

  lemma {:induction false} FirstBreakOf(l: string, c: char, rest: string)
    requires NoBreaks(l) && IsLineBreak(c)
    ensures FirstBreak(l + [c] + rest) == |l|
  {
    var s := l + [c] + rest;
    if l != "" {
      assert s[0] == l[0] && l[0] in l;
      assert s[1..] == l[1..] + [c] + rest;
      FirstBreakOf(l[1..], c, rest);
    }
  }

  lemma {:induction false} SplitLinesFirst(l: string, rest: string)
    requires NoBreaks(l)
    ensures SplitLines(l + "\n" + rest) == [l] + SplitLines(rest)
  {
    FirstBreakOf(l, '\n', rest);
    var s := l + "\n" + rest;
    assert s[..|l|] == l && s[|l| + 1..] == rest;
  }

  /** Splitting undoes joining: what a line-by-line reader of a written file sees. */
  lemma {:induction false} SplitLinesUnlines(lines: seq<string>)
    requires AreLines(lines)
    ensures SplitLines(Unlines(lines)) == lines
  {
    if lines != [] {
      SplitLinesUnlines(lines[1..]);
      SplitLinesFirst(lines[0], Unlines(lines[1..]));
    }
  }

  lemma {:induction false} UnlinesConcat(a: seq<string>, b: seq<string>)
    ensures Unlines(a + b) == Unlines(a) + Unlines(b)
  {
    if a == [] {
      assert a + b == b;
    } else {
      UnlinesConcat(a[1..], b);
      assert (a + b)[1..] == a[1..] + b;
    }
  }

  // ---------------------------------------------------------------- join and split

  function Join(sep: string, parts: seq<string>): string {
    if parts == [] then ""
    else if |parts| == 1 then parts[0]
    else parts[0] + sep + Join(sep, parts[1..])
  }

  /** `str.split(sep)`: leftmost, non-overlapping. */
  function SplitOn(s: string, sep: string): (parts: seq<string>)
    requires sep != ""
    ensures |parts| >= 1
    ensures |parts[0]| <= |s| && parts[0] == s[..|parts[0]|]
    decreases |s|
  {
    if s == "" then [""]
    else if StartsWith(s, sep) then [""] + SplitOn(s[|sep|..], sep)
    else
      var rest := SplitOn(s[1..], sep);
      [[s[0]] + rest[0]] + rest[1..]
  }

  /** A separator of one character that the first part does not contain. */
  lemma SplitOnStep(s: string, c: char)
    requires s != ""
    ensures SplitOn(s, [c]) == if s[0] == c then [""] + SplitOn(s[1..], [c])
      else [[s[0]] + SplitOn(s[1..], [c])[0]] + SplitOn(s[1..], [c])[1..]
  {
    assert s[..1] == [s[0]];
  }

  lemma {:induction false} SplitOnFirst(l: string, c: char, rest: string)
    requires c !in l
    ensures SplitOn(l + [c] + rest, [c]) == [l] + SplitOn(rest, [c])
  {
    var s := l + [c] + rest;
    if l == "" {
      assert s[..1] == [c] && s[1..] == rest;
    } else {
      assert s[0] == l[0] && l[0] in l;
      assert s[1..] == l[1..] + [c] + rest;
      assert !StartsWith(s, [c]) by { assert s[0..1] == [l[0]]; }
      SplitOnFirst(l[1..], c, rest);
      assert [l[0]] + l[1..] == l;
    }
  }

  lemma {:induction false} SplitOnNone(l: string, c: char)
    requires c !in l
    ensures SplitOn(l, [c]) == [l]
  {
    if l != "" {
      assert l[0] in l && l[0..1] == [l[0]];
      assert !StartsWith(l, [c]);
      SplitOnNone(l[1..], c);
      assert [l[0]] + l[1..] == l;
    }
  }

  lemma {:induction false} SplitOnJoin(parts: seq<string>, c: char)
    requires parts != []
    requires forall p | p in parts :: c !in p
    ensures SplitOn(Join([c], parts), [c]) == parts
  {
    hide SplitOn;
    assert parts[0] in parts && parts == [parts[0]] + parts[1..];
    if |parts| == 1 {
      SplitOnNone(parts[0], c);
    } else {
      SplitOnJoin(parts[1..], c);
      SplitOnFirst(parts[0], c, Join([c], parts[1..]));
    }
  }

  lemma {:induction false} SplitOnConcat(a: string, c: char, b: string)
    ensures SplitOn(a + [c] + b, [c]) == SplitOn(a, [c]) + SplitOn(b, [c])
  {
    var s := a + [c] + b;
    if a == "" {
      assert s[..1] == [c] && s[1..] == b;
    } else {
      assert s[0] == a[0] && s[1..] == a[1..] + [c] + b;
      assert s[..1] == a[..1] == [a[0]];
      SplitOnConcat(a[1..], c, b);
      assert StartsWith(s, [c]) == StartsWith(a, [c]);
    }
  }

  /** The parts avoid the separator and take their characters from the string. */
  lemma {:induction false} SplitOnParts(s: string, c: char, k: nat)
    requires k < |SplitOn(s, [c])|
    ensures c !in SplitOn(s, [c])[k]
    ensures forall d | d in SplitOn(s, [c])[k] :: d in s
  {
    if s != "" {
      assert s[..1] == [s[0]];
      if StartsWith(s, [c]) {
        if k > 0 { SplitOnParts(s[1..], c, k - 1); }
      } else {
        SplitOnParts(s[1..], c, k);
      }
    }
  }

  lemma {:induction false} JoinSplit(s: string, c: char)
    ensures Join([c], SplitOn(s, [c])) == s
  {
    if s != "" {
      JoinSplit(s[1..], c);
      assert s[..1] == [s[0]] && s == [s[0]] + s[1..];
      var rest := SplitOn(s[1..], [c]);
      if s[0] == c {
        assert SplitOn(s, [c]) == [""] + rest && ([""] + rest)[1..] == rest;
        assert Join([c], [""] + rest) == "" + [c] + Join([c], rest);
      } else {
        JoinHead([c], [s[0]], rest);
      }
    }
  }

  /** Text in front of the first part is text in front of the joined parts. */
  lemma JoinHead(sep: string, head: string, parts: seq<string>)
    requires parts != []
    ensures Join(sep, [head + parts[0]] + parts[1..]) == head + Join(sep, parts)
  {
    var all := [head + parts[0]] + parts[1..];
    assert all[1..] == parts[1..];
    if |parts| > 1 {
      assert head + (parts[0] + sep + Join(sep, parts[1..])) == head + parts[0] + sep + Join(sep, parts[1..]);
    }
  }

  // ---------------------------------------------------------------- words

  function WordLen(s: string): (n: nat)
    ensures n <= |s|
    ensures NoSpaces(s[..n])
    ensures n < |s| ==> IsSpace(s[n])
  {
    if s == "" || IsSpace(s[0]) then 0
    else
      var n := 1 + WordLen(s[1..]);
      assert s[..n] == [s[0]] + s[1..][..n - 1];
      n
  }

  predicate AreWords(ws: seq<string>) {
    forall i | 0 <= i < |ws| :: ws[i] != "" && NoSpaces(ws[i])
  }

  /** `str.split()`: the maximal runs of characters that are not whitespace. */
  function Words(s: string): (ws: seq<string>)
    ensures AreWords(ws)
    decreases |s|
  {
    var t := TrimLeft(s, IsSpace);
    if t == "" then []
    else
      var n := WordLen(t);
      [t[..n]] + Words(t[n..])
  }

  lemma {:induction false} WordLenOf(w: string, rest: string)
    requires NoSpaces(w)
    requires rest == "" || IsSpace(rest[0])
    ensures WordLen(w + rest) == |w|
  {
    if w == "" {
      assert w + rest == rest;
    } else {
      assert w[0] in w;
      assert (w + rest)[1..] == w[1..] + rest;
      WordLenOf(w[1..], rest);
    }
  }

  lemma {:induction false} WordsFirst(w: string, rest: string)
    requires w != "" && NoSpaces(w)
    requires rest == "" || IsSpace(rest[0])
    ensures Words(w + rest) == [w] + Words(rest)
  {
    WordLenOf(w, rest);
    assert w[0] in w;
    assert (w + rest)[..|w|] == w && (w + rest)[|w|..] == rest;
  }

  /** Joining words with single spaces and splitting again gives the words back. */
  lemma {:induction false} WordsJoin(ws: seq<string>)
    requires AreWords(ws)
    ensures Words(Join(" ", ws)) == ws
  {
    hide Words, NoSpaces;
    if |ws| == 0 {
      WordsNone();
    } else if |ws| == 1 {
      WordsOne(ws[0]);
    } else {
      WordsJoin(ws[1..]);
      WordsCons(ws[0], Join(" ", ws[1..]));
    }
  }

  lemma WordsNone()
    ensures Words("") == []
  {
  }

  lemma WordsOne(w: string)
    requires w != "" && NoSpaces(w)
    ensures Words(w) == [w]
  {
    hide Words, NoSpaces;
    WordsFirst(w, "");
    WordsNone();
    assert w + "" == w;
  }

  lemma WordsCons(w: string, rest: string)
    requires w != "" && NoSpaces(w)
    ensures Words(w + " " + rest) == [w] + Words(rest)
  {
    assert w + " " + rest == w + (" " + rest);
    WordsFirst(w, " " + rest);
    WordsLeadingSpace(' ', rest);
  }

  lemma WordsLeadingSpace(c: char, s: string)
    requires IsSpace(c)
    ensures Words([c] + s) == Words(s)
  {
    assert ([c] + s)[1..] == s;
  }

  lemma FirstWord(s: string)
    requires s != "" && !IsSpace(s[0])
    ensures Words(s) != [] && Words(s)[0] != "" && Words(s)[0][0] == s[0]
    ensures Words(s)[0] == s[..WordLen(s)]
  {
  }

  /** A pattern without whitespace occurs in a string exactly when it occurs in one of its words. */
  lemma {:induction false} ContainsByWords(s: string, w: string)
    requires w != "" && NoSpaces(w)
    ensures Contains(s, w) <==> exists t | t in Words(s) :: Contains(t, w)
    decreases |s|
  {
    var t := TrimLeft(s, IsSpace);
    ContainsTrimLeft(s, w);
    if t == "" {
      assert !Contains(t, w);
    } else {
      var n := WordLen(t);
      ContainsByWords(t[n..], w);
      ContainsHeadOrRest(t, n, w);
      assert Words(s) == [t[..n]] + Words(t[n..]);
      forall u | u in Words(s) ensures u == t[..n] || u in Words(t[n..]) {}
      assert t[..n] in Words(s);
    }
  }

  lemma ContainsHeadOrRest(t: string, n: nat, w: string)
    requires n <= |t| && (n < |t| ==> IsSpace(t[n]))
    requires w != "" && NoSpaces(w)
    ensures Contains(t, w) <==> Contains(t[..n], w) || Contains(t[n..], w)
  {
    if Contains(t, w) {
      var i: nat :| i <= |t| && Occurs(w, t, i);
      if i >= n {
        assert t[n..|t|] == t[n..];
        OccursInSlice(t, n, |t|, w, i - n);
      } else {
        if n < |t| { OccurrenceAvoids(t, w, i, n); }
        OccursInSlice(t, 0, n, w, i);
        assert t[0..n] == t[..n];
      }
    }
    if Contains(t[..n], w) { assert t[0..n] == t[..n]; ContainsInSlice(t, 0, n, w); }
    if Contains(t[n..], w) { assert t[n..|t|] == t[n..]; ContainsInSlice(t, n, |t|, w); }
  }

  lemma {:induction false} ContainsTrimLeft(s: string, w: string)
    requires w != "" && NoSpaces(w)
    ensures Contains(s, w) <==> Contains(TrimLeft(s, IsSpace), w)
  {
    hide Contains, IsSpace, NoSpaces;
    if s != "" && IsSpace(s[0]) {
      ContainsTrimLeft(s[1..], w);
      ContainsAfterSpace(s, w);
    }
  }

  lemma ContainsAfterSpace(s: string, w: string)
    requires s != "" && IsSpace(s[0]) && w != "" && NoSpaces(w)
    ensures Contains(s, w) <==> Contains(s[1..], w)
  {
    hide IsSpace;
    assert s[1..|s|] == s[1..];
    if Contains(s, w) {
      var i: nat :| i <= |s| && Occurs(w, s, i);
      OccurrenceAvoids(s, w, i, 0);
      OccursInSlice(s, 1, |s|, w, i - 1);
    }
    if Contains(s[1..], w) { ContainsInSlice(s, 1, |s|, w); }
  }

  // ---------------------------------------------------------------- numbers

  /** `str(n)` for a natural number. */
  function Decimal(n: nat): (s: string)
    ensures s != "" && forall i | 0 <= i < |s| :: IsDigit(s[i])
  {
    (if n < 10 then "" else Decimal(n / 10)) + [(n % 10) as char + '0']
  }
}
