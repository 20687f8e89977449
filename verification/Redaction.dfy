/** Removing the home directory and the account name from text (devrepro/privacy/gate.py):
    replacement passes that leave nothing behind. */
module Redaction {
  import opened Strings

  /** A literal to look for, anywhere or only where no name character adjoins it. */
  datatype Pattern = Pattern(word: string, whole: bool)

  /** The characters the username pass refuses next to a match. */
  predicate IsNameChar(c: char) { IsAsciiLetter(c) || IsDigit(c) || c == '_' }

  predicate Bounded(text: string, i: nat, j: nat)
    requires i <= j <= |text|
  {
    (i == 0 || !IsNameChar(text[i - 1])) && (j == |text| || !IsNameChar(text[j]))
  }

  predicate MatchesAt(p: Pattern, text: string, i: nat) {
    Occurs(p.word, text, i) && (p.whole ==> Bounded(text, i, i + |p.word|))
  }

  /** Leftmost, non-overlapping replacement from position i on; lookbehind sees the original text. */
  function Substitute(p: Pattern, marker: string, text: string, i: nat): string
    requires p.word != "" && i <= |text|
    decreases |text| - i
  {
    if i == |text| then ""
    else if MatchesAt(p, text, i) then marker + Substitute(p, marker, text, i + |p.word|)
    else [text[i]] + Substitute(p, marker, text, i + 1)
  }

  /** `text.replace(old, new)`. */
  function Replace(text: string, old_: string, new_: string): string
    requires old_ != ""
  {
    Substitute(Pattern(old_, false), new_, text, 0)
  }

  /** The username pass. */
  function ReplaceUser(text: string, user: string): string
    requires user != ""
  {
    Substitute(Pattern(user, true), "<user>", text, 0)
  }

  // ---------------------------------------------------------------- the gate

  predicate IsMark(c: char) { c == '~' || c == '<' || c == '>' || c == '\\' }

  /** How the platform folds a path: not at all, or to lower-case backslash form. */
  datatype Casing = Posix | Windows(lower: char -> char) {
    function NormCase(s: string): (r: string)
      ensures |r| == |s|
    {
      match this
      case Posix => s
      case Windows(lower) =>
        seq(|s|, i requires 0 <= i < |s| => lower(if s[i] == '/' then '\\' else s[i]))
    }

    /** Folding case neither makes nor removes the characters the passes turn on. */
    ghost predicate KeepsMarks() {
      Windows? ==> forall c: char :: IsMark(c) || IsMark(lower(c)) ==> lower(c) == c
    }
  }

  function HomeVariants(casing: Casing, home: string): set<string> {
    {home, ReplaceChar(home, '\\', '/'), ReplaceChar(home, '/', '\\'), casing.NormCase(home)}
  }

  /** An order the variant loop may take them in: each once, longest first. */
  ghost predicate IsLoopOrder(order: seq<string>, variants: set<string>) {
    && (forall i, j | 0 <= i < j < |order| :: order[i] != order[j] && |order[i]| >= |order[j]|)
    && (forall i | 0 <= i < |order| :: order[i] in variants)
    && (forall v | v in variants :: v in order)
  }

  function HomeLoop(order: seq<string>, text: string): string {
    if order == [] then text
    else
      var v := order[0];
      HomeLoop(order[1..], if v != "" && Contains(text, v) then Replace(text, v, "~") else text)
  }

  function Redact(order: seq<string>, user: string, text: string): string {
    var out := HomeLoop(order, text);
    if user == "" then out else ReplaceUser(out, user)
  }

  method RedactLoop(order: seq<string>, user: string, text: string) returns (out: string)
    ensures out == Redact(order, user, text)
  {
    hide Contains, Replace, ReplaceUser;
    out := text;
    for i := 0 to |order|
      invariant HomeLoop(order[i..], out) == HomeLoop(order, text)
    {
      var variant := order[i];
      assert order[i..][1..] == order[i + 1..];
      if variant != "" && Contains(out, variant) {
        out := Replace(out, variant, "~");
      }
    }
    if user != "" {
      out := ReplaceUser(out, user);
    }
  }

  // ---------------------------------------------------------------- where output comes from

  /** The string holds neither end of the marker, so it cannot reach out of one. */
  predicate Avoids(marker: string, w: string) {
    && marker != "" && w != ""
    && marker[0] !in w && marker[|marker| - 1] !in w
  }

  /** An occurrence at j of the output from i was copied from k: nothing in it was a match, and on
      either side stands the text's own character or a match. */
  ghost predicate Copied(p: Pattern, text: string, i: nat, out: string, w: string, j: nat, k: nat) {
    && i <= k && Occurs(w, text, k) && j + |w| <= |out|
    && (forall q: nat | k <= q < k + |w| :: !MatchesAt(p, text, q))
    && (j == 0 ==> k == i)
    && (j > 0 ==> (k > i && (out[j - 1] == text[k - 1] || MatchBefore(p, text, k))))
    && (j + |w| == |out| ==> k + |w| == |text|)
    && (j + |w| < |out| ==>
         (k + |w| < |text| && (out[j + |w|] == text[k + |w|] || MatchesAt(p, text, k + |w|))))
  }

  predicate MatchBefore(p: Pattern, text: string, k: nat) {
    k >= |p.word| && MatchesAt(p, text, k - |p.word|)
  }

  /** An occurrence at j of the output lies inside a marker, at its offset o. */
  predicate InMarker(marker: string, out: string, w: string, j: nat, o: nat) {
    && 0 < o <= j && o + |w| < |marker| && j + |w| < |out|
    && marker[o..o + |w|] == w
    && out[j - 1] == marker[o - 1] && out[j + |w|] == marker[o + |w|]
  }

  lemma {:induction false} PrefixOrigin(p: Pattern, marker: string, text: string, i: nat, w: string)
    requires p.word != "" && i <= |text| && w != "" && marker != "" && marker[0] !in w
    requires Occurs(w, Substitute(p, marker, text, i), 0)
    ensures Occurs(w, text, i)
    ensures forall q: nat | i <= q < i + |w| :: !MatchesAt(p, text, q)
    ensures Substitute(p, marker, text, i)[|w|..] == Substitute(p, marker, text, i + |w|)
    decreases |w|
  {
    hide MatchesAt;
    var out := Substitute(p, marker, text, i);
    assert w[0] == out[0] && w[0] in w;
    assert !MatchesAt(p, text, i);
    var rest := Substitute(p, marker, text, i + 1);
    assert out == [text[i]] + rest;
    if |w| > 1 {
      TailOccurs(out, rest, w);
      PrefixOrigin(p, marker, text, i + 1, w[1..]);
      ConsOccurs(text, i, w);
    }
  }

  lemma TailOccurs(out: string, rest: string, w: string)
    requires |w| > 1 && out != "" && out == [out[0]] + rest && Occurs(w, out, 0)
    ensures Occurs(w[1..], rest, 0) && out[|w|..] == rest[|w| - 1..]
  {
    assert out[0..|w|][1..] == rest[0..|w| - 1];
  }

  lemma ConsOccurs(text: string, i: nat, w: string)
    requires |w| > 1 && i < |text| && text[i] == w[0] && Occurs(w[1..], text, i + 1)
    ensures Occurs(w, text, i)
  {
    assert text[i..i + |w|] == [text[i]] + text[i + 1..i + |w|];
  }

  lemma CopiedHere(p: Pattern, marker: string, text: string, i: nat, w: string)
    requires p.word != "" && i <= |text| && w != "" && marker != "" && marker[0] !in w
    requires Occurs(w, Substitute(p, marker, text, i), 0)
    ensures Copied(p, text, i, Substitute(p, marker, text, i), w, 0, i)
  {
    hide MatchesAt;
    PrefixOrigin(p, marker, text, i, w);
    var out, rest := Substitute(p, marker, text, i), Substitute(p, marker, text, i + |w|);
    if |w| < |out| { assert out[|w|] == rest[0]; }
  }

  /** Facts about an occurrence carry over from the rest of the output to the whole. */
  lemma CopiedLater(p: Pattern, text: string, i: nat, head: string, n: nat, rest: string, w: string, j: nat, k: nat)
    requires head != "" && n > 0 && j >= |head|
    requires Copied(p, text, i + n, rest, w, j - |head|, k)
    requires j == |head| && i + n <= |text| ==>
      head[|head| - 1] == text[i + n - 1] || MatchBefore(p, text, i + n)
    ensures Copied(p, text, i, head + rest, w, j, k)
  {
    hide MatchesAt, MatchBefore;
  }

  lemma InMarkerLater(marker: string, head: string, rest: string, w: string, j: nat, o: nat)
    requires j >= |head| && InMarker(marker, rest, w, j - |head|, o)
    ensures InMarker(marker, head + rest, w, j, o)
  {
  }

  /** Where an occurrence in the output comes from: position k of the text, or, when o > 0, the
      inside of a marker. */
  lemma {:induction false} Origin(p: Pattern, marker: string, text: string, i: nat, w: string, j: nat)
    returns (k: nat, o: nat)
    requires p.word != "" && i <= |text| && Avoids(marker, w)
    requires Occurs(w, Substitute(p, marker, text, i), j)
    ensures o == 0 ==> Copied(p, text, i, Substitute(p, marker, text, i), w, j, k)
    ensures o > 0 ==> InMarker(marker, Substitute(p, marker, text, i), w, j, o)
    decreases |text| - i
  {
    hide MatchesAt, Copied, InMarker;
    var out := Substitute(p, marker, text, i);
    k, o := 0, 0;
    if MatchesAt(p, text, i) {
      MatchFits(p, text, i);
      var rest := Substitute(p, marker, text, i + |p.word|);
      assert out == marker + rest;
      if j < |marker| {
        StartsInMarker(marker, rest, w, j);
        o := j;
      } else {
        OccursLater(marker, rest, w, j);
        k, o := Origin(p, marker, text, i + |p.word|, w, j - |marker|);
        if o == 0 {
          CopiedLater(p, text, i, marker, |p.word|, rest, w, j, k);
        } else {
          InMarkerLater(marker, marker, rest, w, j, o);
        }
      }
    } else if j == 0 {
      CopiedHere(p, marker, text, i, w);
      k := i;
    } else {
      var rest := Substitute(p, marker, text, i + 1);
      assert out == [text[i]] + rest;
      OccursLater([text[i]], rest, w, j);
      k, o := Origin(p, marker, text, i + 1, w, j - 1);
      if o == 0 {
        CopiedLater(p, text, i, [text[i]], 1, rest, w, j, k);
      } else {
        InMarkerLater(marker, [text[i]], rest, w, j, o);
      }
    }
  }

  lemma MatchFits(p: Pattern, text: string, i: nat)
    requires MatchesAt(p, text, i)
    ensures i + |p.word| <= |text|
  {
  }

  lemma OccursLater(head: string, rest: string, w: string, j: nat)
    requires j >= |head| && Occurs(w, head + rest, j)
    ensures Occurs(w, rest, j - |head|)
  {
    assert rest[j - |head|..j - |head| + |w|] == (head + rest)[j..j + |w|];
  }

  lemma StartsInMarker(marker: string, rest: string, w: string, j: nat)
    requires Avoids(marker, w) && Occurs(w, marker + rest, j) && j < |marker|
    ensures InMarker(marker, marker + rest, w, j, j)
  {
    var out, last := marker + rest, |marker| - 1;
    OccurrenceAvoids(out, w, j, 0);
    OccurrenceAvoids(out, w, j, last);
    assert marker[j..j + |w|] == out[j..j + |w|];
  }

  // ---------------------------------------------------------------- home paths

  lemma TildeOrigin(text: string, v: string, w: string, j: nat) returns (k: nat)
    requires v != "" && w != "" && '~' !in w && Occurs(w, Replace(text, v, "~"), j)
    ensures Occurs(w, text, k) && !MatchesAt(Pattern(v, false), text, k)
  {
    hide Substitute, MatchesAt;
    var o: nat;
    k, o := Origin(Pattern(v, false), "~", text, 0, w, j);
  }

  /** Replacing by a tilde brings no string without one into the text. */
  lemma ReplaceAdds(text: string, v: string, w: string)
    requires v != "" && w != "" && '~' !in w && !Contains(text, w)
    ensures !Contains(Replace(text, v, "~"), w)
  {
    hide Substitute, MatchesAt;
    var out := Replace(text, v, "~");
    if Contains(out, w) {
      var j: nat :| j <= |out| && Occurs(w, out, j);
      var k := TildeOrigin(text, v, w, j);
    }
  }

  /** A replaced string without a tilde is gone. */
  lemma ReplaceRemoves(text: string, v: string)
    requires v != "" && '~' !in v
    ensures !Contains(Replace(text, v, "~"), v)
  {
    hide Substitute;
    var out := Replace(text, v, "~");
    if Contains(out, v) {
      var j: nat :| j <= |out| && Occurs(v, out, j);
      var k := TildeOrigin(text, v, v, j);
    }
  }

  predicate NoTildes(order: seq<string>) {
    forall i | 0 <= i < |order| :: '~' !in order[i]
  }

  predicate NoneLeft(order: seq<string>, text: string) {
    forall i | 0 <= i < |order| :: order[i] == "" || !Contains(text, order[i])
  }

  lemma {:induction false} HomeLoopAdds(order: seq<string>, text: string, w: string)
    requires NoTildes(order) && w != "" && '~' !in w && !Contains(text, w)
    ensures !Contains(HomeLoop(order, text), w)
  {
    hide Contains, Replace;
    if order != [] {
      var v := order[0];
      if v != "" && Contains(text, v) {
        ReplaceAdds(text, v, w);
        HomeLoopAdds(order[1..], Replace(text, v, "~"), w);
      } else {
        HomeLoopAdds(order[1..], text, w);
      }
    }
  }

  /** No variant of the home directory survives the loop, whatever order ties are taken in. */
  lemma {:induction false} HomeLoopRemoves(order: seq<string>, text: string)
    requires NoTildes(order)
    ensures NoneLeft(order, HomeLoop(order, text))
  {
    hide Contains, Replace;
    if order != [] {
      var v := order[0];
      var next := if v != "" && Contains(text, v) then Replace(text, v, "~") else text;
      if v != "" {
        if Contains(text, v) { ReplaceRemoves(text, v); }
        HomeLoopAdds(order[1..], next, v);
      }
      HomeLoopRemoves(order[1..], next);
      assert forall i | 0 < i < |order| :: order[i] == order[1..][i - 1];
    }
  }

  lemma {:induction false} HomeLoopIdle(order: seq<string>, text: string)
    requires NoneLeft(order, text)
    ensures HomeLoop(order, text) == text
  {
    hide Contains;
    if order != [] {
      assert forall i | 0 < i < |order| :: order[i] == order[1..][i - 1];
      HomeLoopIdle(order[1..], text);
    }
  }

  /** A second pass over the text changes nothing. */
  lemma HomeLoopIdempotent(order: seq<string>, text: string)
    requires NoTildes(order)
    ensures HomeLoop(order, HomeLoop(order, text)) == HomeLoop(order, text)
  {
    HomeLoopRemoves(order, text);
    HomeLoopIdle(order, HomeLoop(order, text));
  }

  // ---------------------------------------------------------------- when a tilde is in the home path

  lemma {:induction false} CopyUntil(p: Pattern, marker: string, text: string, i: nat, k: nat)
    requires p.word != "" && i <= k <= |text|
    requires forall q | i <= q < k :: !MatchesAt(p, text, q)
    ensures Substitute(p, marker, text, i) == text[i..k] + Substitute(p, marker, text, k)
    decreases k - i
  {
    hide MatchesAt;
    if i == k {
      assert text[i..k] == "";
    } else {
      CopyUntil(p, marker, text, i + 1, k);
      assert text[i..k] == [text[i]] + text[i + 1..k];
    }
  }

  function FirstTilde(v: string): (k: nat)
    requires '~' in v
    ensures k < |v| && v[k] == '~' && '~' !in v[..k]
  {
    if v[0] == '~' then 0
    else
      var k := 1 + FirstTilde(v[1..]);
      assert v[..k] == [v[0]] + v[1..][..k - 1];
      k
  }

  /** The text a path with a tilde is not removed from: the path with itself in place of its first tilde. */
  function Nested(v: string): string
    requires '~' in v
  {
    v[..FirstTilde(v)] + v + v[FirstTilde(v) + 1..]
  }

  /** Replacing puts the path back together. */
  lemma NestedSurvives(v: string)
    requires '~' in v
    ensures Replace(Nested(v), v, "~") == v && Contains(Nested(v), v)
  {
    hide MatchesAt, Contains, Substitute, Nested, FirstTilde;
    var k, n, t, p := FirstTilde(v), |v|, Nested(v), Pattern(v, false);
    NestedParts(v);
    forall q: nat | q < k ensures !MatchesAt(p, t, q) {
      NestedNotBefore(v, q);
    }
    NestedAt(v);
    forall q: nat | k + n <= q < |t| ensures !MatchesAt(p, t, q) {
      TooShortToMatch(p, t, q);
    }
    OneMatch(p, "~", t, k);
    assert v == v[..k] + "~" + v[k + 1..];
  }

  /** A text with a single match. */
  lemma OneMatch(p: Pattern, marker: string, text: string, k: nat)
    requires p.word != "" && MatchesAt(p, text, k) && k + |p.word| <= |text|
    requires forall q: nat | q < k :: !MatchesAt(p, text, q)
    requires forall q: nat | k + |p.word| <= q < |text| :: !MatchesAt(p, text, q)
    ensures Substitute(p, marker, text, 0) == text[0..k] + marker + text[k + |p.word|..|text|]
  {
    hide MatchesAt, Substitute;
    CopyUntil(p, marker, text, 0, k);
    SubstituteMatch(p, marker, text, k);
    CopyUntil(p, marker, text, k + |p.word|, |text|);
    SubstituteEnd(p, marker, text);
    assert text[k + |p.word|..|text|] + "" == text[k + |p.word|..|text|];
  }

  lemma NestedParts(v: string)
    requires '~' in v
    ensures var k, t := FirstTilde(v), Nested(v);
      |t| == 2 * |v| - 1 && t[0..k] == v[..k] && t[k + |v|..|t|] == v[k + 1..]
  {
  }

  lemma SubstituteEnd(p: Pattern, marker: string, text: string)
    requires p.word != ""
    ensures Substitute(p, marker, text, |text|) == ""
  {
  }

  lemma SubstituteMatch(p: Pattern, marker: string, text: string, i: nat)
    requires p.word != "" && MatchesAt(p, text, i)
    ensures i + |p.word| <= |text|
    ensures Substitute(p, marker, text, i) == marker + Substitute(p, marker, text, i + |p.word|)
  {
  }

  lemma TooShortToMatch(p: Pattern, text: string, q: nat)
    requires q + |p.word| > |text|
    ensures !MatchesAt(p, text, q)
  {
  }

  lemma NestedAt(v: string)
    requires '~' in v
    ensures MatchesAt(Pattern(v, false), Nested(v), FirstTilde(v)) && Contains(Nested(v), v)
  {
    var k, t := FirstTilde(v), Nested(v);
    assert t[k..k + |v|] == v;
    assert Occurs(v, t, k);
  }

  lemma NestedNotBefore(v: string, q: nat)
    requires '~' in v && q < FirstTilde(v)
    ensures !MatchesAt(Pattern(v, false), Nested(v), q)
  {
    hide FirstTilde;
    var k, t := FirstTilde(v), Nested(v);
    assert v[..k][q] != '~';
    assert t[k + q] == v[q];
    assert t[q + k] != v[k];
    OccursIndex(v, t, q, k);
  }

  lemma OccursIndex(w: string, s: string, i: nat, k: nat)
    requires k < |w| && i + k < |s| && s[i + k] != w[k]
    ensures !Occurs(w, s, i)
  {
  }

  /** For variants of one length the loop removes every variant from every text exactly when none
      contains a tilde. */
  lemma HomeLoopExact(order: seq<string>)
    requires order != [] && order[0] != ""
    requires forall i, j | 0 <= i < j < |order| :: order[i] != order[j]
    requires forall i | 0 <= i < |order| :: |order[i]| == |order[0]| && ('~' in order[i] <==> '~' in order[0])
    ensures (forall text :: NoneLeft(order, HomeLoop(order, text))) <==> NoTildes(order)
  {
    hide Contains, Replace, HomeLoop;
    if NoTildes(order) {
      forall text ensures NoneLeft(order, HomeLoop(order, text)) { HomeLoopRemoves(order, text); }
    } else {
      var v := order[0];
      assert '~' in v;
      TildeStays(order);
      assert Contains(v, v) by { ContainsItself(v); }
      assert !NoneLeft(order, HomeLoop(order, Nested(v)));
    }
  }

  lemma ContainsItself(v: string)
    ensures Contains(v, v)
  {
    assert Occurs(v, v, 0);
  }

  lemma TildeStays(order: seq<string>)
    requires order != [] && '~' in order[0]
    requires forall i, j | 0 <= i < j < |order| :: order[i] != order[j]
    requires forall i | 0 <= i < |order| :: |order[i]| == |order[0]|
    ensures HomeLoop(order, Nested(order[0])) == order[0]
  {
    hide Contains, Replace, Nested;
    var v := order[0];
    NestedSurvives(v);
    forall i | 0 <= i < |order| - 1 ensures !Contains(v, order[1..][i]) {
      OtherSameLength(v, order[1..][i]);
    }
    HomeLoopIdle(order[1..], v);
  }

  lemma OtherSameLength(v: string, w: string)
    requires |v| == |w| && v != w
    ensures !Contains(v, w)
  {
    assert v[0..|v|] == v;
  }

  /** Characters that are no slash are where they were in every variant. */
  lemma VariantMarks(casing: Casing, home: string, v: string, m: char)
    requires casing.KeepsMarks() && v in HomeVariants(casing, home) && IsMark(m) && m != '\\'
    ensures |v| == |home| && (m in v <==> m in home)
  {
    assert forall i | 0 <= i < |home| :: v[i] == m <==> home[i] == m by {
      if v == casing.NormCase(home) && casing.Windows? {
        forall i | 0 <= i < |home| ensures v[i] == m <==> home[i] == m {
          var c := if home[i] == '/' then '\\' else home[i];
          assert v[i] == casing.lower(c);
          assert IsMark(c) || IsMark(casing.lower(c)) ==> casing.lower(c) == c;
        }
      }
    }
  }

  lemma VariantSeparators(casing: Casing, home: string, v: string)
    requires casing.KeepsMarks() && v in HomeVariants(casing, home)
    requires '/' in home || '\\' in home
    ensures '/' in v || '\\' in v
  {
    var i :| 0 <= i < |home| && (home[i] == '/' || home[i] == '\\');
    if v == casing.NormCase(home) && casing.Windows? {
      assert v[i] == casing.lower('\\') == '\\';
    }
    assert v[i] == '/' || v[i] == '\\';
  }

  /** The gate hides its home directory from every text, in any loop order, exactly when the
      directory has no tilde in it. */
  lemma HomeHiddenExactly(casing: Casing, home: string, order: seq<string>)
    requires casing.KeepsMarks() && home != "" && IsLoopOrder(order, HomeVariants(casing, home))
    ensures (forall text :: NoneLeft(order, HomeLoop(order, text))) <==> '~' !in home
  {
    hide NoneLeft, HomeLoop;
    forall v | v in HomeVariants(casing, home) ensures |v| == |home| && ('~' in v <==> '~' in home) {
      VariantMarks(casing, home, v, '~');
    }
    assert home in order;
    HomeLoopExact(order);
  }

  // ---------------------------------------------------------------- the username

  /** A whole-word occurrence: one the username pass would replace. */
  predicate ContainsWhole(text: string, word: string) {
    exists i: nat | i <= |text| :: MatchesAt(Pattern(word, true), text, i)
  }

  /** A name without the marker's brackets. */
  predicate IsUserName(user: string) {
    user != "" && '<' !in user && '>' !in user
  }

  /** Both ends of the name are name characters, or neither is. */
  predicate EndsAlike(user: string)
    requires user != ""
  {
    IsNameChar(user[0]) <==> IsNameChar(user[|user| - 1])
  }

  /** A name the pass can hide. */
  predicate IsHideable(user: string) {
    IsUserName(user) && EndsAlike(user) && user != "user"
  }

  /** No whole word of the output is the user's name, unless the name is the marker's own word. */
  lemma NoWholeUser(text: string, user: string, j: nat)
    requires IsHideable(user)
    ensures !MatchesAt(Pattern(user, true), ReplaceUser(text, user), j)
  {
    hide Substitute, Copied, InMarker, EndsAlike;
    var p, out := Pattern(user, true), ReplaceUser(text, user);
    if MatchesAt(p, out, j) {
      var k, o := Origin(p, "<user>", text, 0, user, j);
      if o > 0 {
        NotInUserMarker(out, user, j, o);
      } else {
        CopiedIsNoMatch(p, text, out, j, k);
        CopiedWholeMatches(p, text, out, j, k);
      }
    }
  }

  lemma NotInUserMarker(out: string, user: string, j: nat, o: nat)
    requires user != "" && InMarker("<user>", out, user, j, o) && Bounded(out, j, j + |user|)
    ensures user == "user"
  {
    assert o == 1 && |user| == 4;
    assert "<user>"[1..5] == "user";
  }

  lemma CopiedIsNoMatch(p: Pattern, text: string, out: string, j: nat, k: nat)
    requires p.word != "" && Copied(p, text, 0, out, p.word, j, k)
    ensures !MatchesAt(p, text, k)
  {
  }

  /** A name copied from the text that is a whole word in the output was one in the text. */
  lemma CopiedWholeMatches(p: Pattern, text: string, out: string, j: nat, k: nat)
    requires p.whole && IsUserName(p.word) && EndsAlike(p.word) && Copied(p, text, 0, out, p.word, j, k)
    ensures Bounded(out, j, j + |p.word|) ==> MatchesAt(p, text, k)
  {
    hide IsNameChar, Occurs;
    var w := p.word;
    OccurrenceEnds(w, text, k);
    if j > 0 && MatchBefore(p, text, k) { OccurrenceEnds(w, text, k - |w|); }
    if j + |w| < |out| && MatchesAt(p, text, k + |w|) { OccurrenceEnds(w, text, k + |w|); }
  }

  lemma OccurrenceEnds(w: string, text: string, k: nat)
    requires w != "" && Occurs(w, text, k)
    ensures k + |w| <= |text| && text[k] == w[0] && text[k + |w| - 1] == w[|w| - 1]
  {
    assert text[k..k + |w|] == w;
  }

  /** An occurrence of a string in its own double, away from both copies, starts with its first character. */
  lemma DoubleOverlap(w: string, q: nat)
    requires 0 < q < |w| && Occurs(w, w + w, q)
    ensures w[q] == w[0]
  {
    assert (w + w)[q..q + |w|][0] == (w + w)[q];
  }

  /** When only one end of the name is a name character, the pass leaves a whole copy of a name written twice. */
  lemma DoubledNameStays(user: string)
    requires IsUserName(user) && !EndsAlike(user)
    ensures ContainsWhole(ReplaceUser(user + user, user), user)
  {
    hide IsNameChar, Substitute;
    assert !IsNameChar('<') && !IsNameChar('>') by { BracketsBound(); }
    if IsNameChar(user[0]) { SecondCopyGoes(user); } else { FirstCopyGoes(user); }
  }

  lemma BracketsBound()
    ensures !IsNameChar('<') && !IsNameChar('>')
  {
  }

  lemma DoubleParts(user: string)
    ensures Occurs(user, user + user, 0) && Occurs(user, user + user, |user|)
    ensures forall q | 0 <= q < |user| :: (user + user)[q] == user[q] && (user + user)[|user| + q] == user[q]
  {
    assert (user + user)[0..|user|] == user;
    assert (user + user)[|user|..|user| + |user|] == user;
  }

  lemma SecondCopyGoes(user: string)
    requires IsUserName(user) && IsNameChar(user[0]) && !IsNameChar(user[|user| - 1]) && !IsNameChar('<')
    ensures ContainsWhole(ReplaceUser(user + user, user), user)
  {
    hide IsNameChar, Substitute;
    var p, text, n := Pattern(user, true), user + user, |user|;
    DoubleParts(user);
    forall q: nat | q < n ensures !MatchesAt(p, text, q) {
      if q > 0 && Occurs(user, text, q) { DoubleOverlap(user, q); }
      assert text[q + n] == user[q];
    }
    assert MatchesAt(p, text, n);
    OneMatch(p, "<user>", text, n);
    var out := ReplaceUser(text, user);
    assert text[0..n] == user && text[n + n..|text|] == "";
    assert out == user + "<user>";
    assert out[0..n] == user && out[n] == '<';
    assert MatchesAt(p, out, 0);
  }

  lemma FirstCopyGoes(user: string)
    requires IsUserName(user) && !IsNameChar(user[0]) && IsNameChar(user[|user| - 1]) && !IsNameChar('>')
    ensures ContainsWhole(ReplaceUser(user + user, user), user)
  {
    hide IsNameChar, Substitute;
    var p, text, n := Pattern(user, true), user + user, |user|;
    DoubleParts(user);
    assert MatchesAt(p, text, 0);
    forall q: nat | n <= q < |text| ensures !MatchesAt(p, text, q) {
      if q > n { TooShortToMatch(p, text, q); } else { assert text[q - 1] == user[n - 1]; }
    }
    OneMatch(p, "<user>", text, 0);
    var out := ReplaceUser(text, user);
    assert text[0..0] == "" && text[n..|text|] == user;
    assert out == "<user>" + user;
    assert out[6..6 + n] == user && out[5] == '>';
    assert MatchesAt(p, out, 6);
  }

  /** The username pass leaves no whole-word username in any text, exactly when the name is not "user"
      itself and its two ends are alike: both name characters, or neither. */
  lemma UserHiddenExactly(user: string)
    requires IsUserName(user)
    ensures (forall text :: !ContainsWhole(ReplaceUser(text, user), user)) <==> user != "user" && EndsAlike(user)
  {
    hide MatchesAt, ReplaceUser, EndsAlike;
    if user == "user" {
      UserInMarker();
    } else if !EndsAlike(user) {
      DoubledNameStays(user);
    } else {
      forall text, j: nat ensures !MatchesAt(Pattern(user, true), ReplaceUser(text, user), j) {
        NoWholeUser(text, user, j);
      }
    }
  }

  lemma UserInMarker()
    ensures ContainsWhole(ReplaceUser("user", "user"), "user")
  {
    hide Substitute;
    var p := Pattern("user", true);
    assert "user"[0..4] == "user" && MatchesAt(p, "user", 0);
    OneMatch(p, "<user>", "user", 0);
    assert ReplaceUser("user", "user") == "<user>";
    assert "<user>"[1..5] == "user";
    assert MatchesAt(p, "<user>", 1);
  }

  /** A path without angle brackets that is no part of the marker's word is not brought back by the
      username pass. */
  lemma UserPassAdds(text: string, user: string, w: string)
    requires user != "" && w != "" && '<' !in w && '>' !in w && !Contains("user", w)
    requires !Contains(text, w)
    ensures !Contains(ReplaceUser(text, user), w)
  {
    hide Substitute, MatchesAt;
    var out := ReplaceUser(text, user);
    if Contains(out, w) {
      var j: nat :| j <= |out| && Occurs(w, out, j);
      var k, o := Origin(Pattern(user, true), "<user>", text, 0, w, j);
      if o > 0 {
        assert "<user>"[1..5] == "user";
        OccursInSlice("<user>", 1, 5, w, o - 1);
      }
    }
  }

  lemma SeparatorOutsideUser(w: string, c: char)
    requires c in w && (c == '/' || c == '\\')
    ensures !Contains("user", w)
  {
  }

  /** A path as the gate would replace it: it has a separator and no tilde or angle bracket. */
  predicate IsHomePath(v: string) {
    ('/' in v || '\\' in v) && '~' !in v && '<' !in v && '>' !in v
  }

  /** After both passes neither a form of the home directory nor the user's name as a word is left. */
  lemma RedactRemovesBoth(order: seq<string>, user: string, text: string)
    requires forall i | 0 <= i < |order| :: IsHomePath(order[i])
    requires user == "" || IsHideable(user)
    ensures NoneLeft(order, Redact(order, user, text))
    ensures user != "" ==> !ContainsWhole(Redact(order, user, text), user)
  {
    hide Contains, HomeLoop, ReplaceUser, MatchesAt;
    var home := HomeLoop(order, text);
    HomeLoopRemoves(order, text);
    if user != "" {
      forall i | 0 <= i < |order| ensures !Contains(ReplaceUser(home, user), order[i]) {
        SeparatorOutsideUser(order[i], if '/' in order[i] then '/' else '\\');
        UserPassAdds(home, user, order[i]);
      }
      forall j: nat ensures !MatchesAt(Pattern(user, true), ReplaceUser(home, user), j) {
        NoWholeUser(home, user, j);
      }
    }
  }

  lemma UserIdle(text: string, user: string)
    requires user != "" && !ContainsWhole(text, user)
    ensures ReplaceUser(text, user) == text
  {
    hide MatchesAt, Substitute;
    CopyUntil(Pattern(user, true), "<user>", text, 0, |text|);
    SubstituteEnd(Pattern(user, true), "<user>", text);
    assert text[0..|text|] == text;
  }

  /** The passes leave a text alone exactly when there is nothing in it to hide. */
  lemma UnchangedExactly(order: seq<string>, user: string, text: string)
    requires forall i | 0 <= i < |order| :: IsHomePath(order[i])
    requires user == "" || IsHideable(user)
    ensures Redact(order, user, text) == text
      <==> NoneLeft(order, text) && (user != "" ==> !ContainsWhole(text, user))
  {
    hide NoneLeft, ContainsWhole, HomeLoop, ReplaceUser, IsHomePath, IsHideable;
    RedactRemovesBoth(order, user, text);
    if NoneLeft(order, text) && (user != "" ==> !ContainsWhole(text, user)) {
      HomeLoopIdle(order, text);
      if user != "" { UserIdle(text, user); }
    }
  }

  lemma {:induction false} SubstituteIsSplitJoin(text: string, v: string, marker: string, i: nat)
    requires v != "" && i <= |text|
    ensures Substitute(Pattern(v, false), marker, text, i) == Join(marker, SplitOn(text[i..], v))
    decreases |text| - i
  {
    hide Join, SplitOn, Occurs;
    var p := Pattern(v, false);
    SplitTail(text, v, i);
    if i == |text| {
      JoinOne(marker, "");
    } else if Occurs(v, text, i) {
      MatchFits(p, text, i);
      SubstituteIsSplitJoin(text, v, marker, i + |v|);
      JoinMore(marker, "", SplitOn(text[i + |v|..], v));
    } else {
      SubstituteIsSplitJoin(text, v, marker, i + 1);
      JoinHead(marker, [text[i]], SplitOn(text[i + 1..], v));
    }
  }

  lemma SplitTail(text: string, v: string, i: nat)
    requires v != "" && i <= |text|
    ensures i == |text| ==> SplitOn(text[i..], v) == [""]
    ensures i < |text| && Occurs(v, text, i) ==> i + |v| <= |text| && SplitOn(text[i..], v) == [""] + SplitOn(text[i + |v|..], v)
    ensures i < |text| && !Occurs(v, text, i) ==>
      SplitOn(text[i..], v) == [[text[i]] + SplitOn(text[i + 1..], v)[0]] + SplitOn(text[i + 1..], v)[1..]
  {
    hide SplitOn, Occurs;
    var tail := text[i..];
    SplitStep(tail, v);
    if i < |text| {
      OccursInTail(text, v, i);
      assert tail[1..] == text[i + 1..] && tail[0] == text[i];
      if StartsWith(tail, v) {
        StartFits(tail, v);
        assert tail[|v|..] == text[i + |v|..];
      }
    }
  }

  lemma SplitStep(s: string, v: string)
    requires v != ""
    ensures s == "" ==> SplitOn(s, v) == [""]
    ensures s != "" && StartsWith(s, v) ==> |v| <= |s| && SplitOn(s, v) == [""] + SplitOn(s[|v|..], v)
    ensures s != "" && !StartsWith(s, v) ==>
      SplitOn(s, v) == [[s[0]] + SplitOn(s[1..], v)[0]] + SplitOn(s[1..], v)[1..]
  {
  }

  lemma StartFits(s: string, v: string)
    requires StartsWith(s, v)
    ensures |v| <= |s|
  {
  }

  lemma OccursInTail(text: string, v: string, i: nat)
    requires i <= |text|
    ensures StartsWith(text[i..], v) <==> Occurs(v, text, i)
  {
    assert text[i..|text|] == text[i..];
    if i + |v| <= |text| { OccursInSlice(text, i, |text|, v, 0); }
  }

  lemma JoinOne(sep: string, part: string)
    ensures Join(sep, [part]) == part
  {
  }

  lemma JoinMore(sep: string, part: string, parts: seq<string>)
    requires parts != []
    ensures Join(sep, [part] + parts) == part + sep + Join(sep, parts)
  {
    assert ([part] + parts)[1..] == parts;
  }

  /** Replacement cuts the text at the variant and joins the pieces with the marker: nothing else is lost. */
  lemma ReplaceIsSplitJoin(text: string, v: string, marker: string)
    requires v != ""
    ensures Replace(text, v, marker) == Join(marker, SplitOn(text, v))
  {
    hide Substitute, Join, SplitOn;
    SubstituteIsSplitJoin(text, v, marker, 0);
    assert text[0..] == text;
  }

  /** The gate as built from its home directory and user name, whatever order the loop takes. */
  lemma GateLeavesNothing(casing: Casing, home: string, user: string, order: seq<string>, text: string)
    requires casing.KeepsMarks() && IsHomePath(home) && IsLoopOrder(order, HomeVariants(casing, home))
    requires user == "" || IsHideable(user)
    ensures forall v | v in HomeVariants(casing, home) :: !Contains(Redact(order, user, text), v)
    ensures user != "" ==> !ContainsWhole(Redact(order, user, text), user)
  {
    hide Redact, HomeVariants, Contains, ContainsWhole;
    forall i | 0 <= i < |order| ensures IsHomePath(order[i]) {
      VariantMarks(casing, home, order[i], '~');
      VariantMarks(casing, home, order[i], '<');
      VariantMarks(casing, home, order[i], '>');
      VariantSeparators(casing, home, order[i]);
    }
    RedactRemovesBoth(order, user, text);
  }

  // ---------------------------------------------------------------- which spellings, and in what order

  /** The directory written with forward slashes, with backslashes, or as the platform folds it. */
  predicate IsForward(home: string, s: string) {
    |s| == |home| && forall i | 0 <= i < |home| :: s[i] == if home[i] == '\\' then '/' else home[i]
  }

  predicate IsBackward(home: string, s: string) {
    |s| == |home| && forall i | 0 <= i < |home| :: s[i] == if home[i] == '/' then '\\' else home[i]
  }

  predicate IsFolded(casing: Casing, home: string, s: string) {
    && casing.Windows? && |s| == |home|
    && forall i | 0 <= i < |home| :: s[i] == casing.lower(if home[i] == '/' then '\\' else home[i])
  }

  /** The spellings the gate looks for are those, and no others. */
  lemma VariantsExactly(casing: Casing, home: string, s: string)
    ensures s in HomeVariants(casing, home) <==> s == home || IsForward(home, s) || IsBackward(home, s) || IsFolded(casing, home, s)
  {
    var forward, backward := ReplaceChar(home, '\\', '/'), ReplaceChar(home, '/', '\\');
    assert IsForward(home, s) <==> s == forward;
    assert IsBackward(home, s) <==> s == backward;
    assert casing.Windows? ==> (IsFolded(casing, home, s) <==> s == casing.NormCase(home));
  }

  /** None of the spellings is left, whichever way the slashes go. */
  lemma GateHidesSpellings(casing: Casing, home: string, user: string, order: seq<string>, text: string, s: string)
    requires casing.KeepsMarks() && IsHomePath(home) && IsLoopOrder(order, HomeVariants(casing, home))
    requires user == "" || IsHideable(user)
    requires s == home || IsForward(home, s) || IsBackward(home, s) || IsFolded(casing, home, s)
    ensures !Contains(Redact(order, user, text), s)
  {
    hide Redact, HomeVariants, Contains, IsHomePath, IsHideable, IsForward, IsBackward, IsFolded, IsLoopOrder;
    VariantsExactly(casing, home, s);
    GateLeavesNothing(casing, home, user, order, text);
  }

  lemma SameLengthContains(s: string, w: string)
    requires |s| == |w| && s != w
    ensures !Contains(s, w)
  {
    assert s[0..|w|] == s;
  }

  lemma {:induction false} OnlyOneOfLength(order: seq<string>, home: string)
    requires home != "" && home in order && NoTildes(order)
    requires forall i | 0 <= i < |order| :: |order[i]| == |home|
    ensures HomeLoop(order, home) == "~"
  {
    hide Contains;
    var v, rest := order[0], order[1..];
    assert forall i | 0 <= i < |rest| :: rest[i] == order[i + 1];
    if v == home {
      ContainsItself(home);
      WholeReplaced(home);
      NoneInTilde(rest);
      HomeLoopIdle(rest, "~");
    } else {
      SameLengthContains(home, v);
      OnlyOneOfLength(rest, home);
    }
  }

  lemma WholeReplaced(home: string)
    requires home != ""
    ensures Replace(home, home, "~") == "~"
  {
    var p := Pattern(home, false);
    assert home[0..|home|] == home && MatchesAt(p, home, 0);
    SubstituteMatch(p, "~", home, 0);
    SubstituteEnd(p, "~", home);
    assert "~" + "" == "~";
  }

  lemma NoneInTilde(order: seq<string>)
    requires NoTildes(order)
    ensures NoneLeft(order, "~")
  {
    forall i | 0 <= i < |order| && order[i] != "" ensures !Contains("~", order[i]) { NotInTilde(order[i]); }
  }

  lemma NotInTilde(w: string)
    requires w != "" && '~' !in w
    ensures forall k: nat | k <= 1 :: !Occurs(w, "~", k)
  {
    assert w[0] in w;
    assert "~"[0..1] == "~" && (|w| == 1 ==> w == [w[0]]);
  }

  /** The directory is looked for before the name in it: a home directory becomes the tilde alone. */
  lemma HomeComesFirst(casing: Casing, home: string, user: string, order: seq<string>)
    requires casing.KeepsMarks() && IsHomePath(home) && IsLoopOrder(order, HomeVariants(casing, home))
    requires user == "" || '~' !in user
    ensures Redact(order, user, home) == "~"
  {
    hide HomeVariants, Contains, HomeLoop, ReplaceUser;
    forall i | 0 <= i < |order| ensures '~' !in order[i] && |order[i]| == |home| { VariantMarks(casing, home, order[i], '~'); }
    assert home in order by { HomeIsVariant(casing, home); }
    OnlyOneOfLength(order, home);
    if user != "" {
      NotInTilde(user);
      UserIdle("~", user);
    }
  }

  lemma HomeIsVariant(casing: Casing, home: string)
    ensures home in HomeVariants(casing, home)
  {
  }

  // ---------------------------------------------------------------- what the name pass keeps

  /** The text from a position on, cut at the leftmost whole-word occurrences of the name: before each the
      part has none. */
  ghost predicate IsCutAt(text: string, user: string, at: nat, parts: seq<string>)
    decreases |parts|, 0
  {
    && parts != [] && at + |parts[0]| <= |text| && text[at..at + |parts[0]|] == parts[0]
    && HasNone(text, user, at, at + |parts[0]|)
    && IsCutFrom(text, user, at + |parts[0]|, parts[1..])
  }

  ghost predicate HasNone(text: string, user: string, from: nat, to: nat) {
    forall q: nat | from <= q < to :: !MatchesAt(Pattern(user, true), text, q)
  }

  /** The end of the text, or an occurrence and the parts after it. */
  ghost predicate IsCutFrom(text: string, user: string, at: nat, parts: seq<string>)
    decreases |parts|, 1
  {
    if parts == [] then at == |text|
    else MatchesAt(Pattern(user, true), text, at) && IsCutAt(text, user, at + |user|, parts)
  }

  /** The name pass puts the marker in place of each of those occurrences and keeps the rest as it is. */
  lemma {:induction false} UserPassCuts(text: string, user: string, at: nat) returns (parts: seq<string>)
    requires user != "" && at <= |text|
    ensures IsCutAt(text, user, at, parts)
    ensures Substitute(Pattern(user, true), "<user>", text, at) == Join("<user>", parts)
    decreases |text| - at
  {
    hide MatchesAt;
    var p := Pattern(user, true);
    if at == |text| {
      parts := [""];
    } else if MatchesAt(p, text, at) {
      MatchFits(p, text, at);
      var rest := UserPassCuts(text, user, at + |user|);
      parts := [""] + rest;
      assert parts[1..] == rest;
      JoinMore("<user>", "", rest);
    } else {
      var rest := UserPassCuts(text, user, at + 1);
      parts := [[text[at]] + rest[0]] + rest[1..];
      LongerCut(text, user, at, rest);
      JoinHead("<user>", [text[at]], rest);
    }
  }

  lemma LongerCut(text: string, user: string, at: nat, rest: seq<string>)
    requires at < |text| && IsCutAt(text, user, at + 1, rest) && !MatchesAt(Pattern(user, true), text, at)
    ensures IsCutAt(text, user, at, [[text[at]] + rest[0]] + rest[1..])
  {
    hide MatchesAt, IsCutFrom, HasNone;
    var parts := [[text[at]] + rest[0]] + rest[1..];
    var to := at + 1 + |rest[0]|;
    assert parts[1..] == rest[1..] && |parts[0]| == |rest[0]| + 1;
    assert text[at..to] == [text[at]] + text[at + 1..to];
    LongerHasNone(text, user, at, to);
  }

  lemma LongerHasNone(text: string, user: string, at: nat, to: nat)
    requires HasNone(text, user, at + 1, to) && !MatchesAt(Pattern(user, true), text, at)
    ensures HasNone(text, user, at, to)
  {
    hide MatchesAt;
  }

  lemma UserPassExactly(text: string, user: string) returns (parts: seq<string>)
    requires user != ""
    ensures IsCutAt(text, user, 0, parts) && ReplaceUser(text, user) == Join("<user>", parts)
  {
    hide Substitute, IsCutAt, IsCutFrom;
    parts := UserPassCuts(text, user, 0);
  }

  /** A name that a letter, a digit or an underscore follows is part of a longer word and stays. */
  lemma LongerWordStays(user: string, c: char)
    requires user != "" && (IsAsciiLetter(user[0]) || IsDigit(user[0]) || user[0] == '_')
    requires IsAsciiLetter(c) || IsDigit(c) || c == '_'
    ensures ReplaceUser(user + [c], user) == user + [c]
  {
    hide Occurs, Substitute;
    var text := user + [c];
    assert !ContainsWhole(text, user) by {
      forall i: nat | i <= |text| ensures !MatchesAt(Pattern(user, true), text, i) {
        if i == 1 { assert text[0] == user[0]; }
        if i > 1 { TooShortToMatch(Pattern(user, true), text, i); }
      }
    }
    UserIdle(text, user);
  }

  /** A name that anything else follows is a word and goes. */
  lemma WordGoes(user: string, c: char)
    requires user != "" && !(IsAsciiLetter(c) || IsDigit(c) || c == '_')
    requires IsAsciiLetter(user[0]) || IsDigit(user[0]) || user[0] == '_'
    ensures ReplaceUser(user + [c], user) == "<user>" + [c]
  {
    hide Substitute;
    var p, text, n := Pattern(user, true), user + [c], |user|;
    assert text[0..n] == user && text[n] == c;
    assert MatchesAt(p, text, 0);
    forall q: nat | n <= q < |text| ensures !MatchesAt(p, text, q) {
      assert q == n;
      if n > 1 { TooShortToMatch(p, text, q); } else { OneCharNext(user, c); }
    }
    OneMatch(p, "<user>", text, 0);
    assert text[0..0] == "" && text[n..|text|] == [c];
  }

  lemma OneCharNext(user: string, c: char)
    requires |user| == 1 && user[0] != c
    ensures !MatchesAt(Pattern(user, true), user + [c], 1)
  {
    assert (user + [c])[1..2] == [c];
  }
}
