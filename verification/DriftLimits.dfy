/** Where the no-drift claim stops: commands the reader gives back changed, and commands that are fences. */
module DriftLimits {
  import opened Strings
  import opened AgentManifest
  import opened CommandLaws
  import opened DraftWording
  import opened AgentAuthor
  import opened RoundTrip
  import opened DriftFree
  import Workflows

  function Drift(u: Alphabet, shape: ProjectShape, ci: seq<string>): seq<string> {
    ManifestVsCi(u, ParseManifest(u, AgentsMd(u, shape), "AGENTS.md"), ci)
  }

  /** Letters and digits as in ASCII. */
  function Ascii(): Alphabet { Alphabet(c => IsAsciiLetter(c) || IsDigit(c), s => LowerAscii(s)) }

  function Plain(gates: seq<string>): ProjectShape { ProjectShape("demo", [], gates, [], false, []) }

  /** What CI can run in some repository or other: exactly the lists of pieces. */
  lemma CiListsAreExactlyPieces(ci: seq<string>)
    ensures (exists workflows :: CiCommands(workflows) == ci) <==> ArePieces(ci)
  {
    hide CiCommands, ArePieces, Workflows.WorkflowOf;
    if ArePieces(ci) {
      Workflows.PiecesOccur(ci);
    }
    forall workflows | CiCommands(workflows) == ci ensures ArePieces(ci) {
      CiCommandsPieces(workflows);
    }
  }

  // ---------------------------------------------------------------- commands read back changed

  lemma DedupeOne(c: string)
    requires IsPiece(c)
    ensures Dedupe([c], {}) == [c]
  {
    hide Words, Join, NoSeparators, NoComment, NoBreaks;
    PieceHasWords(c);
    assert [c][1..] == [];
    assert Strip(c) == c;
  }

  /** A draft of one command has no drift exactly when the command has no key or is read back with its key. */
  lemma OneCommandExactly(u: Alphabet, shape: ProjectShape, c: string)
    requires u.Sane() && NamesFit(shape) && shape.gates == [c] && IsPiece(c) && FenceLanguage(c).None?
    ensures Drift(u, shape, [c])
         == if CommandKey(u, c) == "" || CommandKey(u, ReadBack(c)) == CommandKey(u, c) then [] else [c]
  {
    hide CommandKey, ReadBack, AgentsMd, ParseManifest, NamesFit, IsPiece, FenceLanguage, Dedupe, Keys, Raws;
    DedupeOne(c);
    NoDriftWithoutFences(u, shape, [c], "AGENTS.md");
    assert ReadsBackAs(u, [c], CommandKey(u, c)) <==> CommandKey(u, ReadBack([c][0])) == CommandKey(u, c);
    var known := Keys(u, Raws(ParseManifest(u, AgentsMd(u, shape), "AGENTS.md")));
    assert [c][1..] == [];
    NoneUnmentioned(u, known + {CommandKey(u, c)});
    NoneUnmentioned(u, known);
  }

  lemma NoneUnmentioned(u: Alphabet, known: set<string>)
    ensures Unmentioned(u, [], known) == []
  {
  }

  /** A command that opens with `#` can have a key, as the stem of its program is what counts; written to
      a draft it is read back as a comment. */
  lemma CommentedModuleRunDrifts()
    ensures var ci := ["#/py -m x"];
      && CiCommands([Workflows.WorkflowOf(ci)]) == ci && Dedupe(ci, {}) == ci && NoFences(ci)
      && Drift(Ascii(), Plain(ci), ci) == ci
  {
    hide Drift, Words, CommandKey, IsPiece, FenceLanguage, HasPrompt, NamesFit, ReadBack, CiCommands, Dedupe, Workflows.WorkflowOf;
    var u, c := Ascii(), "#/py -m x";
    ModuleWords();
    ModuleKey(u, c);
    CommentReadsAsNothing(c);
    EmptyHasNoKey(u);
    ShortPieces(c);
    assert NamesFit(Plain([c])) by { PlainFits([c]); }
    OneCommandExactly(u, Plain([c]), c);
    IsRunAlone(c);
  }

  lemma IsRunAlone(c: string)
    requires IsPiece(c)
    ensures CiCommands([Workflows.WorkflowOf([c])]) == [c] && Dedupe([c], {}) == [c]
  {
    hide IsPiece, CiCommands, Dedupe, Workflows.WorkflowOf;
    Workflows.PiecesOccur([c]);
    DedupeOne(c);
  }

  lemma PlainFits(gates: seq<string>)
    ensures NamesFit(Plain(gates))
  {
  }

  lemma ModuleWords()
    ensures Words("#/py -m x") == ["#/py", "-m", "x"]
  {
    hide Words;
    WordsCons("#/py", "-m x");
    WordsCons("-m", "x");
    WordsOne("x");
    assert "#/py -m x" == "#/py" + " " + "-m x" && "-m x" == "-m" + " " + "x";
  }

  /** A piece that opens with `#` and neither space nor `$` reads back as nothing. */
  lemma CommentReadsAsNothing(c: string)
    requires |c| > 1 && Trimmed(c) && c[0] == '#' && !IsSpace(c[1]) && c[1] != '$'
    ensures ReadBack(c) == ""
  {
    hide Strip, HasPrompt, IsSpace, TrimRight, IsBackslash, AfterMarker;
    NoMarkerOnComment(c);
    assert TrimLeft(c, IsSpace) == c;
    assert !HasPrompt(c) by { NoPromptWithoutMarker(c); }
  }

  lemma NoMarkerOnComment(c: string)
    requires |c| > 1 && c[0] == '#' && !IsSpace(c[1]) && c[1] != '$'
    ensures AfterMarker(c) == ""
  {
    hide IsSpace, TrimLeft;
    var r := c[1..];
    assert r[0] == c[1];
    assert TrimLeft(r, IsSpace) == r;
  }

  lemma NoPromptWithoutMarker(c: string)
    requires AfterMarker(TrimLeft(c, IsSpace)) == ""
    ensures !HasPrompt(c)
  {
    hide AfterMarker, TrimLeft, IsSpace;
  }

  lemma ModuleKey(u: Alphabet, c: string)
    requires u == Ascii() && Words(c) == ["#/py", "-m", "x"]
    ensures CommandKey(u, c) == "x"
  {
    hide Words, Contains, PathStem, KeyProgram;
    var ws := Words(c);
    StemOfHashPy();
    assert IsModuleRun(ws);
    assert ws[2..] == ["x"];
    LetterKey(u, "x");
  }

  lemma StemOfHashPy()
    ensures PathStem("#/py") == "py"
  {
    SplitOnFirst("#", '/', "py");
    SplitOnNone("py", '/');
    assert "#/py" == "#" + "/" + "py";
    var parts := SplitOn("#/py", "/");
    assert parts == ["#", "py"];
    assert LastSegment(parts) == "py";
    LastDotNone("py");
  }

  lemma LetterKey(u: Alphabet, w: string)
    requires u == Ascii() && (w == "x" || w == "x\\")
    ensures DropFlags([w]) == [w]
    ensures forall substitutes: bool :: KeyOfTokens(u, [w], substitutes) == w
  {
    hide SHELL_BUILTINS, SHELL_KEYWORDS, PLUMBING, NamesCommand, KeyProgram;
    assert [w][1..] == [];
    assert !StartsWith(w, "-") by { assert w[..1] == "x"; }
    LetterProgram(w);
    LetterNames(u, w);
  }

  lemma LetterProgram(w: string)
    requires w == "x" || w == "x\\"
    ensures KeyProgram(w) == w
  {
    hide StripBy;
    assert w[0] == 'x' && (w[|w| - 1] == 'x' || w[|w| - 1] == '\\');
    NothingToStrip(w, IsQuote);
    NothingToStrip(w, IsPunctuation);
  }

  lemma NothingToStrip(s: string, drop: char -> bool)
    requires s != "" && !drop(s[0]) && !drop(s[|s| - 1])
    ensures StripBy(s, drop) == s
  {
  }

  lemma LetterNames(u: Alphabet, w: string)
    requires u == Ascii() && (w == "x" || w == "x\\")
    ensures forall substitutes: bool :: NamesCommand(u, w, substitutes)
  {
    hide SHELL_BUILTINS, SHELL_KEYWORDS, PLUMBING;
    assert w[0] == 'x' && u.alnum('x');
    BuiltinShapes();
    KeywordShapes();
    PlumbingShapes();
    assert '=' !in w;
  }

  lemma BuiltinShapes()
    ensures forall e | e in SHELL_BUILTINS :: e == ":" || (|e| >= 2 && e[1] != '\\')
  {
  }

  lemma KeywordShapes()
    ensures forall e | e in SHELL_KEYWORDS :: |e| >= 2 && e[1] != '\\'
  {
  }

  lemma PlumbingShapes()
    ensures forall e | e in PLUMBING :: |e| >= 2 && e[1] != '\\'
  {
  }

  lemma ShortPieces(c: string)
    requires c == "#/py -m x" || c == "x\\"
    ensures IsPiece(c) && FenceLanguage(c).None?
  {
    hide FenceLanguage;
    NotFence(c, 0);
    assert Trimmed(c) && NoSeparators(c) && NoComment(c) && NoBreaks(c);
  }

  /** A backslash at the end of a command is cut as a line continuation, and with it the key changes. */
  lemma TrailingBackslashDrifts()
    ensures var ci := ["x\\"];
      && CiCommands([Workflows.WorkflowOf(ci)]) == ci && Dedupe(ci, {}) == ci && NoFences(ci)
      && Drift(Ascii(), Plain(ci), ci) == ci
  {
    hide Drift, Words, CommandKey, IsPiece, FenceLanguage, HasPrompt, NamesFit, ReadBack, CiCommands, Dedupe, Workflows.WorkflowOf;
    var u, c := Ascii(), "x\\";
    OneWordKey(u, c);
    OneWordKey(u, "x");
    assert c == "x" + "\\";
    BackslashReadsCut("x");
    ShortPieces(c);
    assert NamesFit(Plain([c])) by { PlainFits([c]); }
    OneCommandExactly(u, Plain([c]), c);
    IsRunAlone(c);
  }

  /** A piece that ends in a backslash and starts neither a prompt nor a comment loses it. */
  lemma BackslashReadsCut(w: string)
    requires w != "" && Trimmed(w) && w[0] !in "$>#" && !IsBackslash(w[|w| - 1])
    ensures ReadBack(w + "\\") == w
  {
    hide Strip, TrimRight, HasPrompt, IsSpace;
    NoPromptOnWord(w + "\\");
    assert !IsSpace('\\') by { BackslashIsVisible(); }
    CutBackslash(w);
  }

  lemma BackslashIsVisible()
    ensures !IsSpace('\\')
  {
  }

  lemma CutBackslash(w: string)
    requires w != "" && !IsBackslash(w[|w| - 1])
    ensures TrimRight(w + "\\", IsBackslash) == w
  {
    assert (w + "\\")[..|w|] == w;
  }

  lemma OneWordKey(u: Alphabet, w: string)
    requires u == Ascii() && (w == "x" || w == "x\\")
    ensures CommandKey(u, w) == w
  {
    hide Contains, Words, KeyOfTokens, DropFlags;
    WordsOne(w);
    assert !IsModuleRun([w]);
    LetterKey(u, w);
  }

  // ---------------------------------------------------------------- commands that are fences

  /** A fence among the commands ends the block: what follows it is not read, and the prose after the
      block is read as commands. */
  lemma FenceTurnsInsideOut(u: Alphabet, before: seq<string>, fence: string, after: seq<string>, rest: seq<string>,
    manifest: string, n: nat)
    requires NoFences(before) && NoFences(after) && FenceLanguage(fence).Some?
    ensures ParseLines(u, ShellBlock(before + [fence] + after) + rest, false, manifest, n)
         == DeclareAll(u, before, manifest, n + 1)
              + ParseLines(u, rest, true, manifest, n + |before| + |after| + 3)
  {
    hide FenceLanguage, NoFences, BlockAfter, ParseLines, DeclareAll, StateAfter, ShellBlock;
    var body := before + [fence] + after;
    BlockThen(u, body, rest, manifest, n);
    FenceThenHidden(u, before, fence, after, manifest, n + 1);
  }

  lemma BlockThen(u: Alphabet, body: seq<string>, rest: seq<string>, manifest: string, n: nat)
    ensures ParseLines(u, ShellBlock(body) + rest, false, manifest, n)
         == ParseLines(u, body, true, manifest, n + 1)
              + ParseLines(u, rest, !StateAfter(body, true), manifest, n + |body| + 2)
  {
    hide ParseLines, StateAfter, Visible, ShellBlock;
    assert |ShellBlock(body)| == |body| + 2 by { BlockLength(body); }
    ReadShellBlock(u, body, false, manifest, n);
    ParseConcat(u, ShellBlock(body), rest, false, manifest, n);
  }

  lemma BlockLength(body: seq<string>)
    ensures |ShellBlock(body)| == |body| + 2
  {
  }

  lemma FenceThenHidden(u: Alphabet, before: seq<string>, fence: string, hidden: seq<string>, manifest: string, n: nat)
    requires NoFences(before) && NoFences(hidden) && FenceLanguage(fence).Some?
    ensures ParseLines(u, before + [fence] + hidden, true, manifest, n) == DeclareAll(u, before, manifest, n)
    ensures !StateAfter(before + [fence] + hidden, true)
  {
    hide FenceLanguage, NoFences, BlockAfter, ParseLines, DeclareAll, StateAfter, Visible;
    ToggleCloses(fence);
    ReadUnfenced(u, before, true, manifest, n);
    ReadFence(u, fence, true, manifest, n + |before|);
    ReadUnfenced(u, hidden, false, manifest, n + |before| + 1);
    ParseConcat(u, before + [fence], hidden, true, manifest, n);
    ParseConcat(u, before, [fence], true, manifest, n);
    StateConcat(before + [fence], hidden, true);
    StateConcat(before, [fence], true);
  }

  /** Two fences hide every command between them; if the second could open a shell block, the rest of
      the draft reads as it should. */
  lemma FencesHide(u: Alphabet, before: seq<string>, open: string, hidden: seq<string>, close: string, after: seq<string>,
    rest: seq<string>, manifest: string, n: nat)
    requires NoFences(before) && NoFences(hidden) && NoFences(after)
    requires FenceLanguage(open).Some? && FenceLanguage(close).Some? && BlockAfter(false, close)
    ensures ParseLines(u, ShellBlock(before + [open] + hidden + [close] + after) + rest, false, manifest, n)
         == DeclareAll(u, before, manifest, n + 1)
              + DeclareAll(u, after, manifest, n + |before| + |hidden| + 3)
              + ParseLines(u, rest, false, manifest, n + |before| + |hidden| + |after| + 4)
  {
    hide FenceLanguage, NoFences, BlockAfter, ParseLines, DeclareAll, StateAfter, ShellBlock;
    BlockThen(u, before + [open] + hidden + [close] + after, rest, manifest, n);
    FencesThenAfter(u, before, open, hidden, close, after, manifest, n + 1);
  }

  lemma FencesThenAfter(u: Alphabet, before: seq<string>, open: string, hidden: seq<string>, close: string, after: seq<string>,
    manifest: string, n: nat)
    requires NoFences(before) && NoFences(hidden) && NoFences(after)
    requires FenceLanguage(open).Some? && FenceLanguage(close).Some? && BlockAfter(false, close)
    ensures ParseLines(u, before + [open] + hidden + [close] + after, true, manifest, n)
         == DeclareAll(u, before, manifest, n) + DeclareAll(u, after, manifest, n + |before| + |hidden| + 2)
    ensures StateAfter(before + [open] + hidden + [close] + after, true)
  {
    hide FenceLanguage, NoFences, BlockAfter, ParseLines, DeclareAll, StateAfter, Visible;
    var first := before + [open] + hidden;
    FenceThenHidden(u, before, open, hidden, manifest, n);
    ReadFence(u, close, false, manifest, n + |first|);
    ReadUnfenced(u, after, true, manifest, n + |first| + 1);
    ParseConcat(u, first + [close], after, true, manifest, n);
    ParseConcat(u, first, [close], true, manifest, n);
    StateConcat(first + [close], after, true);
    StateConcat(first, [close], true);
  }

  /** A whole draft with two fences among its commands: nothing is declared, and `x` is drift. */
  lemma FencedCommandDrifts()
    ensures var ci := ["```", "x", "```sh"];
      && CiCommands([Workflows.WorkflowOf(ci)]) == ci && Dedupe(ci, {}) == ci
      && Drift(Ascii(), Plain(ci), ci) == ["x"]
  {
    hide Dedupe, Unmentioned, IsPiece, AgentsMd, ParseManifest, CommandKey, BlockAfter, FenceLanguage, Keys, Raws, Ascii,
      CiCommands, Workflows.WorkflowOf;
    var u, ci := Ascii(), ["```", "x", "```sh"];
    FencedPieces();
    assert ArePieces(ci);
    Workflows.PiecesOccur(ci);
    FencedDedupe(ci);
    FencedDeclaresNothing(u, ci);
    NoKeys(u);
    FencedUnmentioned(u, ci);
  }

  lemma FencedPieces()
    ensures IsPiece("```") && IsPiece("x") && IsPiece("```sh")
    ensures FenceLanguage("```sh") == Some("sh") && BlockAfter(false, "```sh") && FenceLanguage("x").None?
  {
    hide FenceLanguage, IsPiece;
    FenceOf("sh");
    assert "```sh" == "```" + "sh";
    assert LowerAscii("sh") == "sh";
    NotFence("x", 0);
    TinyPiece("```");
    TinyPiece("x");
    TinyPiece("```sh");
  }

  lemma TinyPiece(w: string)
    requires w != "" && forall i | 0 <= i < |w| :: IsAsciiLetter(w[i]) || w[i] == '`'
    ensures IsPiece(w)
  {
  }

  lemma FencedDedupe(ci: seq<string>)
    requires ci == ["```", "x", "```sh"]
    ensures Dedupe(ci, {}) == ci
  {
    hide Words, Strip, IsPiece;
    FencedPieces();
    SingleWord("```");
    SingleWord("x");
    SingleWord("```sh");
    var last, two := ["```sh"], ["x", "```sh"];
    assert ci[1..] == two && two[1..] == last && last[1..] == [];
    assert Dedupe(last, {"```", "x"}) == last + Dedupe([], {"```", "x", "```sh"});
    assert Dedupe(two, {"```"}) == ["x"] + Dedupe(last, {"```", "x"});
    assert ci[0] == "```" && {} + {"```"} == {"```"};
    assert Dedupe(ci, {}) == ["```"] + Dedupe(two, {"```"});
  }

  lemma SingleWord(w: string)
    requires w != "" && NoSpaces(w)
    ensures Words(w) == [w] && Join(" ", Words(w)) == w && Strip(w) == w
  {
    WordsOne(w);
  }

  lemma FencedUnmentioned(u: Alphabet, ci: seq<string>)
    requires u == Ascii() && ci == ["```", "x", "```sh"]
    ensures Unmentioned(u, ci, {}) == ["x"]
  {
    hide CommandKey;
    BacktickHasNoKey(u, "```");
    BacktickHasNoKey(u, "```sh");
    OneWordKey(u, "x");
    var last, two := ["```sh"], ["x", "```sh"];
    assert ci[1..] == two && two[1..] == last && last[1..] == [];
    assert Unmentioned(u, last, {"x"}) == Unmentioned(u, [], {"x"});
    assert Unmentioned(u, two, {}) == ["x"] + Unmentioned(u, last, {"x"});
  }

  lemma BacktickHasNoKey(u: Alphabet, w: string)
    requires u == Ascii() && w != "" && NoSpaces(w) && w[0] == '`'
    ensures CommandKey(u, w) == ""
  {
    hide Words, CommandKey, KeyProgram;
    WordsOne(w);
    KeyProgramStart(w);
    FirstWordRules(u, w);
  }

  lemma NotSetup(u: Alphabet, w: string)
    requires u == Ascii() && w != "" && NoSpaces(w) && (w[0] == '`' || w[0] == 'x')
    ensures !IsSetup(u, w)
  {
    hide Words, Strip;
    SingleWord(w);
    assert LowerAscii(w)[0] == w[0];
    PrefixStarts();
  }

  lemma PrefixStarts()
    ensures forall i | 0 <= i < |SETUP_PREFIXES| ::
      SETUP_PREFIXES[i] != "" && SETUP_PREFIXES[i][0] != '`' && SETUP_PREFIXES[i][0] != 'x'
  {
  }

  lemma FencedSelect(u: Alphabet, ci: seq<string>)
    requires u == Ascii() && ci == ["```", "x", "```sh"]
    ensures Select(u, ci, true) == [] && Select(u, ci, false) == ci
  {
    hide IsSetup;
    NotSetup(u, "```");
    NotSetup(u, "x");
    NotSetup(u, "```sh");
    var last, two := ["```sh"], ["x", "```sh"];
    assert ci[1..] == two && two[1..] == last && last[1..] == [];
    forall setup: bool ensures Select(u, ci, setup) == if setup then [] else ci {
      assert Select(u, last, setup) == if setup then [] else last;
      assert Select(u, two, setup) == if setup then [] else two;
    }
  }

  lemma FencedBlockReads(u: Alphabet, ci: seq<string>, manifest: string, n: nat)
    requires ci == ["```", "x", "```sh"]
    ensures ParseLines(u, BlockOf(ci), false, manifest, n) == [] && !StateAfter(BlockOf(ci), false)
  {
    hide FenceLanguage, BlockAfter, ParseLines, StateAfter, Visible, ShellBlock, IsPiece;
    ReadShellBlock(u, ci, false, manifest, n);
    FencedPieces();
    FencesFlip(true);
    assert ci == [] + ["```"] + ["x"] + ["```sh"] + [];
    FencesThenAfter(u, [], "```", ["x"], "```sh", [], manifest, n + 1);
  }

  lemma FencedDeclaresNothing(u: Alphabet, ci: seq<string>)
    requires u == Ascii() && ci == ["```", "x", "```sh"]
    ensures ParseManifest(u, AgentsMd(u, Plain(ci)), "AGENTS.md") == []
  {
    hide AgentsMd, ParseManifest, Select, ParseLines, StateAfter, DeclareAll, Between, Rest, ShellBlock, NamesFit,
      SetupLine, BetweenLine, ChecksLine, RestLine, IsPiece, FenceLanguage, BlockAfter;
    var shape := Plain(ci);
    FencedPieces();
    PlainFits(ci);
    assert AreLines(ci) by { FencedLines(ci); }
    FencedSelect(u, ci);
    DraftDeclares(u, shape, "AGENTS.md");
    FencedBlockReads(u, ci, "AGENTS.md", ChecksLine(u, shape));
    EmptyReads(u, "AGENTS.md", SetupLine(u, shape));
  }

  lemma FencedLines(ci: seq<string>)
    requires ci == ["```", "x", "```sh"]
    ensures AreLines(ci)
  {
  }

  lemma EmptyReads(u: Alphabet, manifest: string, n: nat)
    ensures ParseLines(u, [], false, manifest, n) == [] && !StateAfter([], false)
  {
  }
}
