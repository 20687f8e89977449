/** The command splitter keeps every command of a line, in order, whatever separators stand between them and
    whatever prompt, comment or continuation stands around them (devrepro/agents/manifest.py). */
module SplitLaws {
  import opened Strings
  import opened AgentManifest
  import opened CommandLaws
  import Workflows

  /** A separator with spaces around it. */
  datatype Glue = Glue(before: nat, separator: string, after: nat)

  /** `&&` and `||` stand apart from the commands; a semicolon may touch them. */
  predicate IsGlue(g: Glue) {
    || g.separator == ";"
    || ((g.separator == "&&" || g.separator == "||") && g.before > 0 && g.after > 0)
  }

  function Spaces(k: nat): string { Workflows.Spaces(k) }

  /** The commands on one line, a separator between each two. */
  function Line(ps: seq<string>, gs: seq<Glue>): string
    requires |ps| == |gs| + 1
  {
    if gs == [] then ps[0]
    else ps[0] + Spaces(gs[0].before) + gs[0].separator + Spaces(gs[0].after) + Line(ps[1..], gs[1..])
  }

  predicate AreStable(ps: seq<string>) {
    forall i | 0 <= i < |ps| :: IsPiece(ps[i]) && IsStable(ps[i])
  }

  predicate AreGlue(gs: seq<Glue>) {
    forall i | 0 <= i < |gs| :: IsGlue(gs[i])
  }

  // ---------------------------------------------------------------- cutting at separators

  /** Text before a separator that the separator cannot run together with. */
  predicate IsApart(a: string, separator: string) {
    && NoSeparators(a)
    && (separator == ";" || ((separator == "&&" || separator == "||") && (a == "" || a[|a| - 1] == ' ')))
  }

  lemma {:induction false} SplitAt(a: string, separator: string, t: string)
    requires IsApart(a, separator)
    ensures SplitShell(a + separator + t) == [a] + SplitShell(t)
    decreases |a|
  {
    hide SeparatorLen, NoSeparators;
    var s := a + separator + t;
    if a == "" {
      SeparatorAhead(separator, t);
      assert s == separator + t && s[|separator|..] == t;
    } else {
      ApartStep(a, separator, t);
      assert s[1..] == a[1..] + separator + t && s[0] == a[0];
      SplitAt(a[1..], separator, t);
      Workflows.PlainStart(s);
      assert [s[0]] + a[1..] == a;
    }
  }

  lemma SeparatorAhead(separator: string, t: string)
    requires separator == ";" || separator == "&&" || separator == "||"
    ensures SeparatorLen(separator + t) == |separator|
  {
    var s := separator + t;
    assert s[0..|separator|] == separator;
    if separator == ";" && |s| > 1 { assert s[0..2][0] == ';'; }
  }

  lemma ApartStep(a: string, separator: string, t: string)
    requires a != "" && IsApart(a, separator)
    ensures SeparatorLen(a + separator + t) == 0 && IsApart(a[1..], separator)
  {
    var s := a + separator + t;
    assert s[0] == a[0] && a[0] != ';';
    assert s[1] == if |a| > 1 then a[1] else separator[0];
    assert !StartsWith(s, ";") by { assert s[0..1][0] == s[0]; }
    assert !StartsWith(s, "&&") && !StartsWith(s, "||") by { assert s[0..2] == [s[0], s[1]]; }
    assert forall i | 0 <= i < |a| - 1 :: a[1..][i] == a[i + 1];
  }

  lemma {:induction false} SpacesSeparate(k: nat, p: string, m: nat)
    requires NoSeparators(p)
    ensures NoSeparators(Spaces(k) + p + Spaces(m))
  {
    var s := Spaces(k) + p + Spaces(m);
    assert forall i | k <= i < k + |p| :: s[i] == p[i - k];
    assert forall i | 0 <= i < k || k + |p| <= i < |s| :: s[i] == ' ';
  }

  lemma StripSpaces(k: nat, p: string, m: nat)
    requires p != "" && Trimmed(p)
    ensures Strip(Spaces(k) + p + Spaces(m)) == p
  {
    hide TrimLeft, TrimRight;
    assert Spaces(k) + p + Spaces(m) == Spaces(k) + (p + Spaces(m));
    assert (p + Spaces(m))[0] == p[0];
    Workflows.TrimSpaces(k, p + Spaces(m));
    TrimSpacesAfter(p, m);
  }

  lemma {:induction false} TrimSpacesAfter(p: string, m: nat)
    requires p != "" && !IsSpace(p[|p| - 1])
    ensures TrimRight(p + Spaces(m), IsSpace) == p
  {
    if m == 0 {
      assert p + Spaces(0) == p;
    } else {
      var s := p + Spaces(m);
      assert s[..|s| - 1] == p + Spaces(m - 1) && s[|s| - 1] == ' ';
      TrimSpacesAfter(p, m - 1);
    }
  }

  lemma NoSpacesLast(p: string)
    ensures p + Spaces(0) == p && Spaces(0) + p == p
  {
  }

  /** Cutting a line, after any spaces, gives its commands. */
  lemma {:induction false} LineSplits(k: nat, ps: seq<string>, gs: seq<Glue>)
    requires |ps| == |gs| + 1 && AreStable(ps) && AreGlue(gs)
    ensures StripNonempty(SplitShell(Spaces(k) + Line(ps, gs))) == ps
    decreases |gs|
  {
    hide SplitShell, StripNonempty, NoSeparators, NoComment, NoBreaks, Strip, IsStable;
    var p := ps[0];
    assert IsPiece(p);
    if gs == [] {
      NoSpacesLast(Spaces(k) + p);
      SpacesSeparate(k, p, 0);
      StripSpaces(k, p, 0);
      SplitShellPlain(Spaces(k) + p);
      FirstStripped(Spaces(k) + p, p, []);
      NothingStripped();
      assert ps == [p] && [Spaces(k) + p] + [] == [Spaces(k) + p] && [p] + [] == [p];
    } else {
      var g := gs[0];
      assert IsGlue(g);
      var head := Spaces(k) + p + Spaces(g.before);
      var tail := Spaces(g.after) + Line(ps[1..], gs[1..]);
      SpacesSeparate(k, p, g.before);
      StripSpaces(k, p, g.before);
      assert IsApart(head, g.separator) by {
        if g.before > 0 { assert head[|head| - 1] == Spaces(g.before)[g.before - 1]; }
      }
      LineIsHeadAndTail(k, ps, gs);
      SplitAt(head, g.separator, tail);
      assert AreStable(ps[1..]) && AreGlue(gs[1..]);
      LineSplits(g.after, ps[1..], gs[1..]);
      FirstStripped(head, p, SplitShell(tail));
      assert ps == [p] + ps[1..];
    }
  }

  lemma LineIsHeadAndTail(k: nat, ps: seq<string>, gs: seq<Glue>)
    requires |ps| == |gs| + 1 && gs != []
    ensures var g := gs[0];
      Spaces(k) + Line(ps, gs)
        == Spaces(k) + ps[0] + Spaces(g.before) + g.separator + (Spaces(g.after) + Line(ps[1..], gs[1..]))
  {
    hide Spaces;
    var g := gs[0];
    var rest := Line(ps[1..], gs[1..]);
    assert Spaces(k) + (ps[0] + Spaces(g.before) + g.separator + Spaces(g.after) + rest)
      == Spaces(k) + ps[0] + Spaces(g.before) + g.separator + (Spaces(g.after) + rest);
  }

  lemma FirstStripped(part: string, p: string, rest: seq<string>)
    requires Strip(part) == p && p != ""
    ensures StripNonempty([part] + rest) == [p] + StripNonempty(rest)
  {
    hide Strip;
    assert ([part] + rest)[1..] == rest;
  }

  lemma NothingStripped()
    ensures StripNonempty([]) == []
  {
  }

  // ---------------------------------------------------------------- the line as a whole

  lemma NoCommentConcat(a: string, b: string)
    requires NoComment(a) && NoComment(b) && (b == "" || b[0] != '#')
    ensures NoComment(a + b)
  {
    var s := a + b;
    assert forall i | 0 <= i < |a| :: s[i] == a[i];
    assert forall i | 0 <= i < |b| :: s[|a| + i] == b[i];
  }

  lemma SpacesNoComment(k: nat)
    ensures NoComment(Spaces(k))
  {
  }

  /** A line of stable commands starts and ends with one of their characters and holds no comment. */
  lemma {:induction false} LineIsClean(ps: seq<string>, gs: seq<Glue>)
    requires |ps| == |gs| + 1 && AreStable(ps) && AreGlue(gs)
    ensures var s := Line(ps, gs);
      && s != "" && s[0] == ps[0][0] && s[|s| - 1] == ps[|gs|][|ps[|gs|]| - 1]
      && NoComment(s) && |ps[0]| <= |s| && s[..|ps[0]|] == ps[0]
    decreases |gs|
  {
    hide NoComment, IsPiece, IsStable, IsGlue, Spaces;
    assert IsPiece(ps[0]) && IsStable(ps[0]);
    PieceIsClean(ps[0]);
    if gs != [] {
      var rest := Line(ps[1..], gs[1..]);
      assert AreStable(ps[1..]) && AreGlue(gs[1..]);
      LineIsClean(ps[1..], gs[1..]);
      assert IsPiece(ps[1]) && IsStable(ps[1]) && IsGlue(gs[0]);
      PieceIsClean(ps[1]);
      GluedNoComment(ps[0], gs[0], rest);
    }
  }

  lemma PieceIsClean(p: string)
    requires IsPiece(p) && IsStable(p)
    ensures p != "" && NoComment(p) && p[0] != '#'
  {
    hide NoComment, NoSeparators, NoBreaks;
    StableStarts(p);
  }

  lemma GluedNoComment(p: string, g: Glue, rest: string)
    requires IsGlue(g) && NoComment(p) && NoComment(rest) && rest != "" && rest[0] != '#'
    ensures NoComment(p + Spaces(g.before) + g.separator + Spaces(g.after) + rest)
  {
    hide NoComment;
    SpacesNoComment(g.before);
    SpacesNoComment(g.after);
    SeparatorNoComment(g.separator);
    NoCommentConcat(p, Spaces(g.before));
    NoCommentConcat(p + Spaces(g.before), g.separator);
    NoCommentConcat(p + Spaces(g.before) + g.separator, Spaces(g.after));
    NoCommentConcat(p + Spaces(g.before) + g.separator + Spaces(g.after), rest);
  }

  lemma StableStarts(p: string)
    requires IsStable(p)
    ensures p[0] != '#' && p[|p| - 1] != '\\'
  {
  }

  lemma SeparatorNoComment(separator: string)
    requires separator == ";" || separator == "&&" || separator == "||"
    ensures NoComment(separator)
  {
  }

  /** A marker alone, which would be a prompt for what follows it on the line. */
  predicate IsBareMarker(p: string) { p == "$" || p == ">" }

  /** No prompt starts in a command that is none itself and no bare marker. */
  lemma PromptOfPrefix(p: string, s: string)
    requires p != "" && Trimmed(p) && |p| <= |s| && s[..|p|] == p
    requires p[0] != '#' && !HasPrompt(p) && !IsBareMarker(p)
    ensures !HasPrompt(s)
  {
    hide TrimLeft, IsSpace;
    assert s[0] == p[0];
    assert TrimLeft(p, IsSpace) == p && TrimLeft(s, IsSpace) == s;
    if s[0] == '$' || s[0] == '>' {
      assert p[..1] == [p[0]] && p[..|p|] == p;
      assert |p| > 1;
      assert AfterMarker(p)[0] == p[1] == s[1] == AfterMarker(s)[0];
    }
  }

  /** What may stand before the commands: an indentation, and perhaps a prompt with spaces after it. */
  datatype Lead = Lead(indent: nat, marker: string, gap: nat)

  predicate IsLead(l: Lead) {
    || (l.marker == "" && l.gap == 0)
    || ((l.marker == "$" || l.marker == ">" || l.marker == "#$" || l.marker == "# $") && l.gap > 0)
  }

  function LeadText(l: Lead): string { Spaces(l.indent) + l.marker + Spaces(l.gap) }

  lemma MarkerOpens(marker: string, rest: string)
    requires marker == "$" || marker == ">" || marker == "#$" || marker == "# $"
    ensures AfterMarker(marker + rest) == rest && !IsSpace((marker + rest)[0])
  {
    hide AfterMarker, Spaces, TrimLeft;
    var l := marker + rest;
    if marker == "#$" {
      assert l == "#" + (Spaces(0) + ("$" + rest)) by { assert Spaces(0) == "" by { NoSpace(); } }
      CommentedMarkerOpens(0, rest);
    } else if marker == "# $" {
      assert l == "#" + (Spaces(1) + ("$" + rest)) by { assert Spaces(1) == " " by { OneSpace(); } }
      CommentedMarkerOpens(1, rest);
    } else {
      assert l[1..] == rest;
      PlainMarkerOpens(l);
    }
  }

  lemma NoSpace()
    ensures Spaces(0) == ""
  {
  }

  lemma OneSpace()
    ensures Spaces(1) == " "
  {
    assert Spaces(1) == " " + Spaces(0);
  }

  lemma PlainMarkerOpens(l: string)
    requires l != "" && (l[0] == '$' || l[0] == '>')
    ensures AfterMarker(l) == l[1..]
  {
  }

  lemma CommentedMarkerOpens(k: nat, rest: string)
    ensures AfterMarker("#" + (Spaces(k) + ("$" + rest))) == rest
  {
    hide Workflows.Spaces, AfterMarker, TrimLeft, IsSpace;
    var marked := "$" + rest;
    var l := "#" + (Spaces(k) + marked);
    assert l[1..] == Spaces(k) + marked && l[0] == '#';
    assert !IsSpace('$') by { DollarIsVisible(); }
    Workflows.TrimSpaces(k, marked);
    AfterHash(l);
    assert TrimLeft(l[1..], IsSpace) == marked;
    assert marked[0] == '$' && marked[1..] == rest;
  }

  lemma DollarIsVisible()
    ensures !IsSpace('$')
  {
  }

  lemma AfterHash(l: string)
    requires l != "" && l[0] == '#'
    ensures var r := TrimLeft(l[1..], IsSpace);
      AfterMarker(l) == if r != "" && r[0] == '$' then r[1..] else ""
  {
  }

  lemma IndentDropped(k: nat, t: string)
    requires t != "" && !IsSpace(t[0]) && !HasPrompt(t)
    ensures Strip(DropPrompt(Spaces(k) + t)) == Strip(t)
  {
    hide TrimRight, IsSpace, AfterMarker;
    Workflows.TrimSpaces(k, t);
    assert TrimLeft(t, IsSpace) == t by { NothingToTrim(t); }
    SamePrompt(Spaces(k) + t, t);
    StripOfTrimmed(Spaces(k) + t, t);
  }

  lemma NothingToTrim(t: string)
    requires t != "" && !IsSpace(t[0])
    ensures TrimLeft(t, IsSpace) == t
  {
  }

  lemma SamePrompt(line: string, t: string)
    requires TrimLeft(line, IsSpace) == t && TrimLeft(t, IsSpace) == t
    ensures HasPrompt(line) <==> HasPrompt(t)
  {
    hide TrimLeft, IsSpace, AfterMarker;
  }

  lemma StripOfTrimmed(line: string, t: string)
    requires TrimLeft(line, IsSpace) == t && TrimLeft(t, IsSpace) == t
    ensures Strip(line) == Strip(t)
  {
    hide TrimLeft, TrimRight, IsSpace;
  }

  lemma PromptDropped(k: nat, marker: string, gap: nat, t: string)
    requires marker == "$" || marker == ">" || marker == "#$" || marker == "# $"
    requires gap > 0 && t != "" && !IsSpace(t[0])
    ensures DropPrompt(Spaces(k) + (marker + (Spaces(gap) + t))) == t
  {
    hide TrimLeft, IsSpace, AfterMarker;
    var rest := Spaces(gap) + t;
    var shown := marker + rest;
    MarkerOpens(marker, rest);
    assert shown != "";
    Workflows.TrimSpaces(k, shown);
    Workflows.TrimSpaces(gap, t);
    assert rest[0] == Spaces(gap)[0] == ' ';
    SpaceIsSpace();
  }

  lemma LeadDropped(l: Lead, t: string)
    requires IsLead(l) && t != "" && !IsSpace(t[0]) && !HasPrompt(t)
    ensures Strip(DropPrompt(LeadText(l) + t)) == Strip(t)
  {
    hide Strip, DropPrompt, IsSpace, HasPrompt;
    if l.marker == "" {
      assert LeadText(l) + t == Spaces(l.indent) + t by { NoSpacesLast(Spaces(l.indent)); }
      IndentDropped(l.indent, t);
    } else {
      assert LeadText(l) + t == Spaces(l.indent) + (l.marker + (Spaces(l.gap) + t));
      PromptDropped(l.indent, l.marker, l.gap, t);
    }
  }

  lemma SpaceIsSpace()
    ensures IsSpace(' ')
  {
  }

  /** What may stand after them: a comment, or a continuation. */
  datatype Ending = Comment(text: string) | Continuation(gap: nat, backslashes: nat)

  function Backslashes(n: nat): (s: string)
    ensures |s| == n && forall i | 0 <= i < n :: s[i] == '\\'
  {
    seq(n, _ => '\\')
  }

  function EndingText(e: Ending): string {
    match e
    case Comment(text) => " #" + text
    case Continuation(gap, backslashes) => Spaces(gap) + Backslashes(backslashes)
  }

  lemma {:induction false} DropCommentAt(s: string, rest: string)
    requires NoComment(s) && s != "" && s[|s| - 1] != ' '
    ensures DropComment(s + " #" + rest) == s
    decreases |s|
  {
    var all := s + " #" + rest;
    assert all[0] == s[0];
    assert !StartsWith(all, " #") by {
      assert all[1] == if |s| > 1 then s[1] else ' ';
      assert all[0..2] == [all[0], all[1]];
    }
    assert all[1..] == s[1..] + " #" + rest;
    if |s| > 1 {
      assert forall i | 0 <= i < |s| - 1 :: s[1..][i] == s[i + 1];
      DropCommentAt(s[1..], rest);
    } else {
      assert StartsWith(all[1..], " #") by { assert all[1..][0..2] == " #"; }
    }
    assert [s[0]] + s[1..] == s;
  }

  /** What the splitter works on when the commands end in one. */
  predicate EndsInWord(s: string) {
    s != "" && !IsSpace(s[0]) && !IsSpace(s[|s| - 1]) && s[|s| - 1] != '\\'
  }

  lemma CommentDropped(s: string, text: string)
    requires EndsInWord(s) && NoComment(s)
    ensures var stripped := Strip(s + " #" + text); stripped != "" && stripped[0] == s[0] && CommandText(stripped) == s
  {
    hide TrimLeft, TrimRight, DropComment, Contains, NoComment, IsSpace;
    var x := s + " #";
    assert x[0] == s[0] && x[|x| - 1] == '#' && !IsSpace('#') && !IsBackslash('#') && s[|s| - 1] != ' ' by { HashIsVisible(); }
    var one := TrimRight(text, IsSpace);
    StripAfter(x, text);
    TrimRightConcat(x, one, IsBackslash);
    var two := TrimRight(one, IsBackslash);
    StripAfter(x, two);
    var three := TrimRight(two, IsSpace);
    var bare := x + three;
    assert bare[|s|..|s| + 2] == " #" && Occurs(" #", bare, |s|);
    assert Contains(bare, " #") by { ContainsAt(bare, " #", |s|); }
    DropCommentAt(s, three);
    assert TrimRight(s, IsSpace) == s && TrimLeft(s, IsSpace) == s;
  }

  lemma HashIsVisible()
    ensures !IsSpace('#') && IsSpace(' ')
  {
  }

  lemma ContainsAt(s: string, w: string, i: nat)
    requires i <= |s| && Occurs(w, s, i)
    ensures Contains(s, w)
  {
  }

  lemma StripAfter(x: string, v: string)
    requires x != "" && !IsSpace(x[0]) && !IsSpace(x[|x| - 1])
    ensures Strip(x + v) == x + TrimRight(v, IsSpace)
  {
    hide TrimLeft, TrimRight, IsSpace;
    assert (x + v)[0] == x[0];
    assert TrimLeft(x + v, IsSpace) == x + v;
    TrimRightConcat(x, v, IsSpace);
  }

  /** A command text without backslashes or comment at work. */
  lemma TextAlone(s: string)
    requires EndsInWord(s) && NoComment(s)
    ensures Strip(s) == s && TrimRight(s, IsBackslash) == s && CommandText(s) == s
  {
    hide TrimLeft, TrimRight, Contains, NoComment, IsSpace;
    NoCommentIsAbsence(s);
    assert TrimLeft(s, IsSpace) == s && TrimRight(s, IsSpace) == s;
  }

  lemma SpacesDropped(s: string, gap: nat)
    requires EndsInWord(s)
    ensures Strip(s + Spaces(gap)) == s
  {
    hide TrimLeft, TrimRight, IsSpace;
    SpacesAreSpaces(gap);
    StripAfter(s, Spaces(gap));
    TrimAll(Spaces(gap), IsSpace);
    assert s + "" == s;
  }

  lemma BackslashesDropped(x: string, n: nat)
    requires x != "" && x[|x| - 1] != '\\'
    ensures TrimRight(x + Backslashes(n), IsBackslash) == x
  {
    hide TrimRight;
    TrimRightConcat(x, Backslashes(n), IsBackslash);
    TrimAll(Backslashes(n), IsBackslash);
    assert x + "" == x;
  }

  lemma ContinuationDropped(s: string, gap: nat, backslashes: nat)
    requires EndsInWord(s) && NoComment(s)
    ensures var stripped := Strip(s + (Spaces(gap) + Backslashes(backslashes)));
      stripped != "" && stripped[0] == s[0] && CommandText(stripped) == s
  {
    hide Strip, TrimRight, Contains, NoComment, IsSpace, CommandText;
    var x := s + Spaces(gap);
    var t := x + Backslashes(backslashes);
    assert s + (Spaces(gap) + Backslashes(backslashes)) == t;
    TextAlone(s);
    SpacesDropped(s, gap);
    if backslashes == 0 {
      assert t == x;
    } else {
      assert t[0] == s[0] && t[|t| - 1] == Backslashes(backslashes)[backslashes - 1] == '\\';
      BackslashVisible();
      assert Trimmed(t) && Strip(t) == t;
      assert x[|x| - 1] != '\\' by { if gap > 0 { assert x[|x| - 1] == Spaces(gap)[gap - 1]; } }
      BackslashesDropped(x, backslashes);
      TextOfCut(t, s);
    }
  }

  lemma TextOfCut(t: string, s: string)
    requires Strip(TrimRight(t, IsBackslash)) == s && NoComment(s)
    ensures CommandText(t) == s
  {
    hide Strip, TrimRight, Contains;
    NoCommentIsAbsence(s);
  }

  lemma BackslashVisible()
    ensures !IsSpace('\\')
  {
  }

  lemma SpacesAreSpaces(k: nat)
    ensures forall i | 0 <= i < k :: IsSpace(Spaces(k)[i])
  {
  }

  lemma {:induction false} TrimAll(s: string, drop: char -> bool)
    requires forall i | 0 <= i < |s| :: drop(s[i])
    ensures TrimRight(s, drop) == ""
  {
    if s != "" { TrimAll(s[..|s| - 1], drop); }
  }

  lemma EndingDropped(s: string, e: Ending)
    requires EndsInWord(s) && NoComment(s)
    ensures var stripped := Strip(s + EndingText(e)); stripped != "" && stripped[0] == s[0] && CommandText(stripped) == s
  {
    hide Strip, CommandText, EndsInWord, NoComment;
    match e
    case Comment(text) =>
      assert s + (" #" + text) == s + " #" + text;
      CommentDropped(s, text);
    case Continuation(gap, backslashes) => ContinuationDropped(s, gap, backslashes);
  }

  // ---------------------------------------------------------------- every command is kept

  predicate AreOnLine(ps: seq<string>, gs: seq<Glue>) {
    |ps| == |gs| + 1 && AreStable(ps) && AreGlue(gs) && !IsBareMarker(ps[0])
  }

  /** Splitting a line gives exactly the commands written on it, in order: no prompt, comment or continuation
      adds or removes one. */
  lemma KeepsEveryCommand(lead: Lead, ps: seq<string>, gs: seq<Glue>, ending: Ending)
    requires IsLead(lead) && AreOnLine(ps, gs)
    ensures SplitCommandLine(LeadText(lead) + (Line(ps, gs) + EndingText(ending))) == ps
  {
    hide Strip, DropPrompt, CommandText, SplitShell, StripNonempty, NoSeparators, NoComment, NoBreaks, HasPrompt, LeadText, EndingText, Line;
    var s := Line(ps, gs);
    var t := s + EndingText(ending);
    LineIsClean(ps, gs);
    LineEnds(ps, gs);
    assert IsPiece(ps[0]) && IsStable(ps[0]) && t[..|ps[0]|] == s[..|ps[0]|];
    PromptOfPrefix(ps[0], t);
    assert t[0] == s[0];
    LeadDropped(lead, t);
    EndingDropped(s, ending);
    LineSplits(0, ps, gs);
    assert Spaces(0) + s == s by { NoSpacesLast(s); }
  }

  lemma LineEnds(ps: seq<string>, gs: seq<Glue>)
    requires AreOnLine(ps, gs)
    ensures EndsInWord(Line(ps, gs)) && Line(ps, gs)[0] != '#' && !IsSpace(Line(ps, gs)[0])
  {
    hide NoSeparators, NoComment, NoBreaks, HasPrompt, IsSpace;
    LineIsClean(ps, gs);
    assert IsPiece(ps[0]) && IsStable(ps[0]);
    assert IsPiece(ps[|gs|]) && IsStable(ps[|gs|]);
  }

  /** The line alone. */
  lemma KeepsEveryCommandPlainly(ps: seq<string>, gs: seq<Glue>)
    requires AreOnLine(ps, gs)
    ensures SplitCommandLine(Line(ps, gs)) == ps
  {
    hide SplitCommandLine;
    KeepsEveryCommand(Lead(0, "", 0), ps, gs, Continuation(0, 0));
    var s := Line(ps, gs);
    assert LeadText(Lead(0, "", 0)) + (s + EndingText(Continuation(0, 0))) == s;
  }

  /** So a shell block's line declares each of its commands that has a program. */
  lemma {:induction false} DeclaresEvery(u: Alphabet, parts: seq<string>, cwd: string, manifest: string, n: nat)
    requires forall i | 0 <= i < |parts| :: ProgramOf(u, parts[i]) != ""
    ensures Raws(DeclareParts(u, parts, cwd, manifest, n)) == parts
  {
    hide ProgramOf, ApplyCd;
    if parts != [] {
      var program := ProgramOf(u, parts[0]);
      var next := if program == "cd" then ApplyCd(cwd, parts[0]) else cwd;
      DeclaresEvery(u, parts[1..], next, manifest, n);
      var first, rest := DeclaredCommand(parts[0], program, manifest, n, cwd), DeclareParts(u, parts[1..], next, manifest, n);
      assert DeclareParts(u, parts, cwd, manifest, n) == [first] + rest;
      assert Raws([first] + rest) == [parts[0]] + Raws(rest);
    }
  }

  lemma LineDeclaresEvery(u: Alphabet, ps: seq<string>, gs: seq<Glue>, manifest: string, n: nat)
    requires AreOnLine(ps, gs) && forall i | 0 <= i < |ps| :: ProgramOf(u, ps[i]) != ""
    ensures Raws(DeclareLine(u, Line(ps, gs), manifest, n)) == ps
  {
    hide SplitCommandLine, ProgramOf, DeclareParts;
    KeepsEveryCommandPlainly(ps, gs);
    DeclaresEvery(u, ps, ".", manifest, n);
  }

  /** And a one-line step of a workflow runs each of them. */
  lemma StepRunsEvery(indent: nat, dash: bool, ps: seq<string>, gs: seq<Glue>)
    requires AreOnLine(ps, gs) && Line(ps, gs)[0] != '|' && Line(ps, gs)[0] != '>'
    ensures RunSteps([Workflows.RunLine(indent, dash, Line(ps, gs))]) == ps
  {
    hide SplitCommandLine, RunSteps, RunScalar, Workflows.RunLine, Line;
    KeepsEveryCommandPlainly(ps, gs);
    LineEnds(ps, gs);
    var s := Line(ps, gs);
    Workflows.OneLineReads(indent, dash, s);
    Workflows.ReadOneLine(Workflows.RunLine(indent, dash, s), s, []);
    assert [Workflows.RunLine(indent, dash, s)] + [] == [Workflows.RunLine(indent, dash, s)];
    assert RunSteps([]) == [] by { NoLinesNoSteps(); }
    assert ps + [] == ps;
  }

  lemma NoLinesNoSteps()
    ensures RunSteps([]) == []
  {
  }

  // ---------------------------------------------------------------- fences

  /** A fence may be indented and may have spaces after it. */
  lemma IndentedFence(k: nat, language: string, m: nat)
    requires forall i | 0 <= i < |language| :: IsLanguageChar(language[i])
    ensures FenceLanguage(Spaces(k) + ("```" + language) + Spaces(m)) == Some(language)
  {
    hide Strip;
    var l := "```" + language;
    assert Trimmed(l);
    StripSpaces(k, l, m);
    assert l[0..3] == "```" && l[3..] == language;
  }

  /** A fence is three backticks and a language, and nothing else on its line. */
  lemma FenceExactly(line: string, language: string)
    ensures FenceLanguage(line) == Some(language) <==>
      (Strip(line) == "```" + language && forall i | 0 <= i < |language| :: IsLanguageChar(language[i]))
  {
    hide Strip;
    var t := Strip(line);
    if t == "```" + language {
      assert t[0..3] == "```" && t[3..] == language;
    }
    if StartsWith(t, "```") {
      assert t == t[0..3] + t[3..];
    }
  }
}
