/** What the command splitter and the command key promise: a command that came out of the
    splitter is not split again, and a key depends only on the words of a command. */
module CommandLaws {
  import opened Strings
  import opened AgentManifest

  // ---------------------------------------------------------------- pieces

  predicate NoSeparators(s: string) {
    forall i | 0 <= i < |s| ::
      && s[i] != ';'
      && (i + 1 < |s| ==> !(s[i] == '&' && s[i + 1] == '&') && !(s[i] == '|' && s[i + 1] == '|'))
  }

  predicate NoComment(s: string) {
    forall i | 0 <= i < |s| - 1 :: !(s[i] == ' ' && s[i + 1] == '#')
  }

  /** What every command out of the splitter is. */
  predicate IsPiece(p: string) {
    p != "" && Trimmed(p) && NoSeparators(p) && NoComment(p) && NoBreaks(p)
  }

  predicate ArePieces(ps: seq<string>) {
    forall i | 0 <= i < |ps| :: IsPiece(ps[i])
  }

  /** A string without a separator or a comment: every part of it is another. */
  predicate IsPlain(s: string) { NoSeparators(s) && NoComment(s) && NoBreaks(s) }

  lemma {:induction false} SplitShellPart(s: string, k: nat) returns (a: nat, b: nat)
    requires k < |SplitShell(s)|
    ensures a <= b <= |s| && SplitShell(s)[k] == s[a..b]
    ensures NoSeparators(SplitShell(s)[k])
    decreases |s|
  {
    hide SeparatorLen, NoSeparators;
    NoSeparatorsInNothing();
    SeparatorFits(s);
    var n := if s == "" then 0 else SeparatorLen(s);
    if k == 0 && (s == "" || n > 0) {
      a, b := 0, 0;
    } else if n > 0 {
      a, b := SplitShellPart(s[n..], k - 1);
      SliceOfTail(s, n, a, b);
      a, b := a + n, b + n;
    } else {
      a, b := SplitShellPart(s[1..], k);
      SliceOfTail(s, 1, a, b);
      a, b := a + 1, b + 1;
      if k == 0 {
        a, b := 0, 1 + |SplitShell(s[1..])[0]|;
        NoSeparatorAtStart(s);
        ConsSlice(s, b);
        NoSeparatorsCons(s, b);
      }
    }
  }

  lemma SliceOfTail(s: string, n: nat, a: nat, b: nat)
    requires n <= |s| && a <= b <= |s| - n
    ensures s[n..][a..b] == s[a + n..b + n]
  {
  }

  lemma ConsSlice(s: string, b: nat)
    requires 0 < b <= |s|
    ensures s[1..][..b - 1] == s[1..b] && [s[0]] + s[1..b] == s[0..b] && s[0..b] == s[..b]
  {
  }

  lemma NoSeparatorsInNothing()
    ensures NoSeparators("")
  {
  }

  lemma SeparatorFits(s: string)
    ensures SeparatorLen(s) <= |s|
  {
  }

  lemma NoSeparatorsCons(s: string, b: nat)
    requires 0 < b <= |s| && NoSeparators(s[1..b])
    requires s[0] != ';'
    requires |s| > 1 ==> !(s[0] == '&' && s[1] == '&') && !(s[0] == '|' && s[1] == '|')
    ensures NoSeparators(s[..b])
  {
    assert forall i | 0 < i < b :: s[..b][i] == s[1..b][i - 1];
  }

  lemma NoSeparatorAtStart(s: string)
    requires s != "" && SeparatorLen(s) == 0
    ensures s[0] != ';'
    ensures |s| > 1 ==> !(s[0] == '&' && s[1] == '&') && !(s[0] == '|' && s[1] == '|')
  {
    assert s[0..1] == [s[0]];
    if |s| > 1 { assert s[0..2] == [s[0], s[1]]; }
  }

  lemma {:induction false} SplitShellPlain(s: string)
    requires NoSeparators(s)
    ensures SplitShell(s) == [s]
  {
    if s != "" {
      assert SeparatorLen(s) == 0 by {
        assert !StartsWith(s, ";") by { assert s[0] != ';'; }
        if |s| > 1 { assert s[0..2][1] == s[1]; }
      }
      SplitShellPlain(s[1..]);
      assert [s[0]] + s[1..] == s;
    }
  }

  lemma {:induction false} DropCommentClean(s: string)
    ensures NoComment(DropComment(s))
  {
    if s != "" && !StartsWith(s, " #") {
      DropCommentClean(s[1..]);
      var r := DropComment(s);
      if |r| > 1 { assert s[0..2] == [r[0], r[1]]; }
    }
  }

  lemma NoCommentIsAbsence(s: string)
    ensures NoComment(s) <==> !Contains(s, " #")
  {
    if !NoComment(s) {
      var i :| 0 <= i < |s| - 1 && s[i] == ' ' && s[i + 1] == '#';
      assert s[i..i + 2] == " #";
      assert Occurs(" #", s, i);
    }
    if Contains(s, " #") {
      var i: nat :| i <= |s| && Occurs(" #", s, i);
      assert s[i..i + 2][0] == s[i] && s[i..i + 2][1] == s[i + 1];
    }
  }

  /** The text the splitter works on once prompt, comment and continuation are gone. */
  lemma CommandTextClean(stripped: string)
    requires NoBreaks(stripped)
    ensures NoComment(CommandText(stripped)) && NoBreaks(CommandText(stripped))
  {
    hide Strip, TrimRight, DropComment, Contains, NoComment, NoBreaks;
    var cut := TrimRight(stripped, IsBackslash);
    var bare := Strip(cut);
    SliceNoBreaks(stripped, 0, |cut|);
    var a, b := StripSlice(cut);
    SliceNoBreaks(cut, a, b);
    NoCommentIsAbsence(bare);
    if Contains(bare, " #") {
      DropCommentClean(bare);
      var kept := DropComment(bare);
      SliceNoBreaks(bare, 0, |kept|);
      var c, d := StripSlice(kept);
      SliceNoBreaks(kept, c, d);
      SliceNoComment(kept, c, d);
    }
  }

  lemma SliceNoBreaks(s: string, a: nat, b: nat)
    requires a <= b <= |s| && NoBreaks(s)
    ensures NoBreaks(s[a..b]) && (a == 0 ==> NoBreaks(s[..b]))
  {
  }

  lemma SliceNoComment(s: string, a: nat, b: nat)
    requires a <= b <= |s| && NoComment(s)
    ensures NoComment(s[a..b])
  {
    assert forall i | 0 <= i < b - a :: s[a..b][i] == s[a + i];
  }

  lemma {:induction false} StripNonemptyPieces(parts: seq<string>, text: string)
    requires NoComment(text) && NoBreaks(text)
    requires forall i | 0 <= i < |parts| :: NoSeparators(parts[i]) && IsSliceOf(parts[i], text)
    ensures ArePieces(StripNonempty(parts))
  {
    hide NoSeparators, NoComment, NoBreaks, IsSliceOf, Strip, IsPiece;
    if parts != [] {
      StripNonemptyPieces(parts[1..], text);
      assert NoSeparators(parts[0]) && IsSliceOf(parts[0], text);
      StripPart(parts[0], text);
    }
  }

  lemma StripPart(p: string, text: string)
    requires NoComment(text) && NoBreaks(text) && NoSeparators(p) && IsSliceOf(p, text)
    ensures Strip(p) != "" ==> IsPiece(Strip(p))
  {
    hide NoSeparators, NoComment, NoBreaks, IsSliceOf, Strip;
    var a, b := StripSlice(p);
    SliceIsPlain(p, text, a, b);
  }

  predicate IsSliceOf(p: string, s: string) {
    exists a: nat, b: nat | a <= b <= |s| :: p == s[a..b]
  }

  lemma SliceIsPlain(p: string, text: string, a: nat, b: nat)
    requires NoComment(text) && NoBreaks(text) && NoSeparators(p) && IsSliceOf(p, text)
    requires a <= b <= |p|
    ensures IsPlain(p[a..b])
  {
    var c: nat, d: nat :| c <= d <= |text| && p == text[c..d];
    var q := p[a..b];
    assert forall i | 0 <= i < |q| :: q[i] == p[a + i] == text[c + a + i];
  }

  /** Every command the splitter yields is a piece. */
  lemma SplitYieldsPieces(line: string)
    requires NoBreaks(line)
    ensures ArePieces(SplitCommandLine(line))
  {
    hide Strip, DropPrompt, CommandText, SplitShell, StripNonempty, IsPiece;
    var stripped := Strip(DropPrompt(line));
    var a, b := StripSlice(DropPrompt(line));
    if stripped != "" && stripped[0] != '#' {
      CommandTextClean(stripped);
      var command := CommandText(stripped);
      forall i | 0 <= i < |SplitShell(command)|
        ensures NoSeparators(SplitShell(command)[i]) && IsSliceOf(SplitShell(command)[i], command)
      {
        var c, d := SplitShellPart(command, i);
      }
      StripNonemptyPieces(SplitShell(command), command);
    }
  }

  // ---------------------------------------------------------------- reading a piece again

  /** What a piece printed on a line of its own comes back as; "" for nothing at all. */
  function ReadBack(p: string): string {
    var stripped := Strip(DropPrompt(p));
    if stripped == "" || stripped[0] == '#' then ""
    else Strip(TrimRight(stripped, IsBackslash))
  }

  /** None of the splitter's rewrites applies to the piece. */
  predicate IsStable(p: string) {
    p != "" && !HasPrompt(p) && p[0] != '#' && p[|p| - 1] != '\\'
  }

  lemma StableReadsBack(p: string)
    requires IsPiece(p) && IsStable(p)
    ensures ReadBack(p) == p
  {
  }

  /** A piece is never split again: the splitter run on its own output yields at most one command. */
  lemma PieceReread(p: string)
    requires IsPiece(p)
    ensures SplitCommandLine(p) == if ReadBack(p) == "" then [] else [ReadBack(p)]
  {
    hide Strip, DropPrompt, TrimRight, SplitShell, Contains;
    var start := DropPrompt(p);
    var stripped := Strip(start);
    PlainSlice(p, |p| - |start|, |p|);
    assert p[|p| - |start|..|p|] == start;
    var a, b := StripSlice(start);
    PlainSlice(start, a, b);
    if stripped != "" && stripped[0] != '#' {
      var cut := TrimRight(stripped, IsBackslash);
      PlainSlice(stripped, 0, |cut|);
      assert stripped[0..|cut|] == cut;
      var c, d := StripSlice(cut);
      PlainSlice(cut, c, d);
      var bare := Strip(cut);
      NoCommentIsAbsence(bare);
      SplitShellPlain(bare);
      assert StripNonempty([bare]) == (if bare != "" then [bare] else []) + StripNonempty([]);
    }
  }

  lemma PlainSlice(s: string, a: nat, b: nat)
    requires IsPlain(s) && a <= b <= |s|
    ensures IsPlain(s[a..b])
  {
    var q := s[a..b];
    assert forall i | 0 <= i < |q| :: q[i] == s[a + i];
  }

  // ---------------------------------------------------------------- keys

  /** Commands with the same words have the same key, however they are spaced. */
  lemma KeyOfWords(u: Alphabet, a: string, b: string)
    requires Words(a) == Words(b)
    ensures CommandKey(u, a) == CommandKey(u, b)
  {
    hide KeyTokens, KeyOfTokens, Words, Contains;
    ContainsByWords(a, "$(");
    ContainsByWords(b, "$(");
  }

  lemma {:induction false} TrimLeftKeeps(s: string, drop: char -> bool, c: char)
    requires c in s && !drop(c)
    ensures c in TrimLeft(s, drop)
  {
    if drop(s[0]) {
      TrimLeftKeeps(s[1..], drop, c);
    }
  }

  lemma {:induction false} TrimRightKeeps(s: string, drop: char -> bool, c: char)
    requires c in s && !drop(c)
    ensures c in TrimRight(s, drop)
  {
    if drop(s[|s| - 1]) {
      TrimRightKeeps(s[..|s| - 1], drop, c);
    }
  }

  lemma StripByKeeps(s: string, drop: char -> bool, c: char)
    requires c in s && !drop(c)
    ensures c in StripBy(s, drop)
  {
    TrimLeftKeeps(s, drop, c);
    TrimRightKeeps(TrimLeft(s, drop), drop, c);
  }

  lemma {:induction false} LastSegmentIsOne(segments: seq<string>)
    ensures LastSegment(segments) == "" || LastSegment(segments) in segments
  {
    if segments != [] {
      LastSegmentIsOne(segments[..|segments| - 1]);
    }
  }

  lemma PathStemChars(path: string, c: char)
    requires c in PathStem(path)
    ensures c in path
  {
    var segments := SplitOn(path, "/");
    LastSegmentIsOne(segments);
    var k :| 0 <= k < |segments| && segments[k] == PathName(path);
    SplitOnParts(path, '/', k);
  }

  /** A token with neither a slash nor a dot is its own stem. */
  lemma PathStemPlain(token: string)
    requires token != "" && '/' !in token && '.' !in token
    ensures PathStem(token) == token
  {
    SplitOnNone(token, '/');
    assert token != ".";
    LastDotNone(token);
  }

  lemma {:induction false} LastDotNone(name: string)
    requires '.' !in name
    ensures LastDot(name) == -1
  {
    if name != "" {
      assert name[|name| - 1] in name;
      LastDotNone(name[..|name| - 1]);
    }
  }

  /** Stripping quotes and brackets leaves a first character that is neither in place. */
  lemma {:induction false} KeyProgramStart(token: string)
    requires token != "" && !IsQuote(token[0]) && !IsPunctuation(token[0])
    ensures KeyProgram(token) != "" && KeyProgram(token)[0] == token[0]
  {
    StripByKeeps(token, IsQuote, token[0]);
    var inner := StripBy(token, IsQuote);
    StripByKeeps(inner, IsPunctuation, token[0]);
  }

  lemma KeyProgramKeeps(token: string, c: char)
    requires c in token && !IsQuote(c) && !IsPunctuation(c)
    ensures c in KeyProgram(token)
  {
    StripByKeeps(token, IsQuote, c);
    StripByKeeps(StripBy(token, IsQuote), IsPunctuation, c);
  }

  /** Outside the `python -m` form the key is that of the first word, unless it is a flag. */
  lemma FirstWordRules(u: Alphabet, command: string)
    requires Words(command) != [] && !IsModuleRun(Words(command))
    requires Words(command)[0] != "" && Words(command)[0][0] != '-'
    requires forall substitutes: bool :: !NamesCommand(u, KeyProgram(Words(command)[0]), substitutes)
    ensures CommandKey(u, command) == ""
  {
    hide Words, IsModuleRun, KeyProgram, NamesCommand, Contains;
    var first := Words(command)[0];
    assert !StartsWith(first, "-") by { assert first[0..1] == [first[0]]; }
    assert DropFlags(Words(command))[0] == first;
  }

  /** A command the drift check compares is one the manifest reader keeps. */
  lemma KeyedHasProgram(u: Alphabet, command: string)
    requires u.Sane() && CommandKey(u, command) != ""
    ensures ProgramOf(u, command) != ""
  {
    hide IsModuleRun, KeyOfTokens, IsAssignment, StripBy, Contains;
    var ws := Words(command);
    if IsModuleRun(ws) {
      ModuleRunHasProgram(u, ws);
    } else if ws == [] {
      assert KeyTokens([]) == [];
      NoTokensNoKey(u, Contains(command, "$("));
    } else if IsAssignment(u, ws[0]) {
      AssignmentHasNoKey(u, command);
    } else if StripBy(ws[0], IsQuote) == "" {
      QuotesHaveNoKey(u, command);
    }
  }

  lemma NoTokensNoKey(u: Alphabet, substitutes: bool)
    ensures KeyOfTokens(u, [], substitutes) == ""
  {
  }

  lemma AssignmentHasNoKey(u: Alphabet, command: string)
    requires Words(command) != [] && !IsModuleRun(Words(command))
    requires u.Sane() && IsAssignment(u, Words(command)[0])
    ensures CommandKey(u, command) == ""
  {
    hide Words, IsModuleRun, KeyProgram, CommandKey;
    var first := Words(command)[0];
    assert '=' in first;
    KeyProgramKeeps(first, '=');
    FirstWordRules(u, command);
  }

  lemma QuotesHaveNoKey(u: Alphabet, command: string)
    requires Words(command) != [] && !IsModuleRun(Words(command))
    requires StripBy(Words(command)[0], IsQuote) == ""
    ensures CommandKey(u, command) == ""
  {
    hide Words, IsModuleRun, CommandKey, StripBy;
    var first := Words(command)[0];
    assert first[0] != '-' by {
      if first[0] == '-' { StripByKeeps(first, IsQuote, '-'); }
    }
    assert StripBy("", IsPunctuation) == "";
    FirstWordRules(u, command);
  }

  lemma ModuleRunHasProgram(u: Alphabet, ws: seq<string>)
    requires IsModuleRun(ws)
    ensures FirstProgram(u, ws) != ""
  {
    hide PathStem;
    if IsAssignment(u, ws[0]) {
      assert !IsAssignment(u, ws[1]);
      assert FirstProgram(u, ws[1..]) == StripBy("-m", IsQuote);
      StripByKeeps("-m", IsQuote, 'm');
    } else {
      assert PathStem(ws[0])[0] == 'p' && 'p' in PathStem(ws[0]);
      PathStemChars(ws[0], 'p');
      StripByKeeps(ws[0], IsQuote, 'p');
    }
  }

  /** Outside the `python -m` form, a command whose first character is `#`, `$` or `>` has no key. */
  lemma MarkerHasNoKey(u: Alphabet, command: string)
    requires u.Sane() && Words(command) != [] && !IsModuleRun(Words(command))
    requires Words(command)[0][0] in "$>#"
    ensures CommandKey(u, command) == ""
  {
    hide Words, IsModuleRun, CommandKey, KeyProgram;
    KeyProgramStart(Words(command)[0]);
    FirstWordRules(u, command);
  }

  lemma NoPromptOnWord(c: string)
    requires c != "" && !IsSpace(c[0]) && c[0] !in "$>#"
    ensures !HasPrompt(c)
  {
    hide TrimLeft, IsSpace;
    assert TrimLeft(c, IsSpace) == c;
    assert AfterMarker(c) == "";
  }

  /** A piece that opens with a prompt names no command of its own. */
  lemma PromptHasNoKey(u: Alphabet, p: string)
    requires u.Sane() && p != "" && Trimmed(p) && HasPrompt(p)
    ensures CommandKey(u, p) == ""
  {
    hide Words, CommandKey, PathStem, HasPrompt;
    PromptWord(p);
    PathStemPlain(Words(p)[0]);
    assert !IsModuleRun(Words(p));
    MarkerHasNoKey(u, p);
  }

  lemma PromptWord(p: string)
    requires p != "" && Trimmed(p) && HasPrompt(p)
    ensures Words(p) != [] && Words(p)[0] in {"$", ">", "#", "#$"}
  {
    hide Words, HasPrompt, IsSpace;
    var n := PromptWordEnd(p);
    MarkersAreVisible();
    if n == 1 { assert p[..n] == [p[0]]; } else { assert p[..n] == [p[0], p[1]]; }
    LeadingWord(p, n);
  }

  lemma PromptWordEnd(p: string) returns (n: nat)
    requires p != "" && Trimmed(p) && HasPrompt(p)
    ensures 0 < n < |p| && IsSpace(p[n])
    ensures (n == 1 && (p[0] == '$' || p[0] == '>' || p[0] == '#')) || (n == 2 && p[0] == '#' && p[1] == '$')
  {
    hide TrimLeft, IsSpace, AfterMarker;
    assert TrimLeft(p, IsSpace) == p;
    assert AfterMarker(p) != "" && IsSpace(AfterMarker(p)[0]);
    MarkersAreVisible();
    n := 1;
    if p[0] == '#' && |p| > 1 && !IsSpace(p[1]) {
      MarkerAfterHash(p);
      n := 2;
    } else {
      MarkerStarts(p);
    }
  }

  lemma MarkerStarts(p: string)
    requires p != "" && AfterMarker(p) != ""
    ensures |p| > 1 && (p[0] == '$' || p[0] == '>' || p[0] == '#')
    ensures p[0] != '#' ==> AfterMarker(p)[0] == p[1]
  {
    hide TrimLeft, IsSpace;
  }

  lemma MarkerAfterHash(p: string)
    requires |p| > 1 && p[0] == '#' && !IsSpace(p[1]) && AfterMarker(p) != ""
    ensures |p| > 2 && p[1] == '$' && AfterMarker(p)[0] == p[2]
  {
    hide TrimLeft, IsSpace;
    var r := p[1..];
    assert r[0] == p[1] && TrimLeft(r, IsSpace) == r;
    assert r[1..] == p[2..];
  }

  lemma MarkersAreVisible()
    ensures !IsSpace('$') && !IsSpace('#') && !IsSpace('>')
  {
  }

  lemma LeadingWord(p: string, n: nat)
    requires 0 < n < |p| && NoSpaces(p[..n]) && IsSpace(p[n])
    ensures Words(p) != [] && Words(p)[0] == p[..n]
  {
    hide Words;
    assert p == p[..n] + p[n..];
    WordsFirst(p[..n], p[n..]);
  }
}
