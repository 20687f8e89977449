/** A draft written from CI has no drift from CI: from the workflow texts to the empty list. */
module DriftFree {
  import opened Strings
  import opened AgentManifest
  import opened CommandLaws
  import opened AgentAuthor
  import opened RoundTrip

  // ---------------------------------------------------------------- CI commands are pieces

  lemma PiecesConcat(a: seq<string>, b: seq<string>)
    requires ArePieces(a) && ArePieces(b)
    ensures ArePieces(a + b)
  {
    hide IsPiece;
  }

  lemma {:induction false} SplitAllPieces(lines: seq<string>)
    requires AreLines(lines)
    ensures ArePieces(SplitAll(lines))
  {
    hide NoBreaks, SplitCommandLine, ArePieces;
    if lines == [] {
      assert ArePieces([]) by { NoPieces(); }
    } else {
      SplitYieldsPieces(lines[0]);
      SplitAllPieces(lines[1..]);
      PiecesConcat(SplitCommandLine(lines[0]), SplitAll(lines[1..]));
    }
  }

  lemma NoPieces()
    ensures ArePieces([])
  {
  }

  lemma ScalarBreaks(line: string)
    requires NoBreaks(line) && RunScalar(line).Some?
    ensures NoBreaks(RunScalar(line).value)
  {
    hide TrimLeft, TrimRight, NoBreaks, IsSpace;
    var l := TrimLeft(line, IsSpace);
    TrimBreaks(line);
    var step := if StartsWith(l, "-") then TrimLeft(l[1..], IsSpace) else l;
    if StartsWith(l, "-") {
      DropBreaks(l, 1);
      TrimBreaks(l[1..]);
    }
    DropBreaks(step, 4);
    TrimBreaks(step[4..]);
    TrimBreaks(AfterRun(line).value);
  }

  lemma TrimBreaks(s: string)
    requires NoBreaks(s)
    ensures NoBreaks(TrimLeft(s, IsSpace)) && NoBreaks(TrimRight(s, IsSpace))
  {
    hide TrimLeft, TrimRight;
  }

  lemma DropBreaks(s: string, n: nat)
    requires NoBreaks(s)
    ensures n <= |s| ==> NoBreaks(s[n..])
  {
  }

  lemma {:induction false} RunStepsPieces(lines: seq<string>)
    requires AreLines(lines)
    ensures ArePieces(RunSteps(lines))
    decreases |lines|
  {
    hide NoBreaks, SplitCommandLine, RunScalar, RunBlock, ArePieces, SplitAll, BlockLen;
    if lines == [] {
      NoPieces();
    } else if RunScalar(lines[0]).Some? {
      ScalarBreaks(lines[0]);
      SplitYieldsPieces(RunScalar(lines[0]).value);
      RunStepsPieces(lines[1..]);
      PiecesConcat(SplitCommandLine(RunScalar(lines[0]).value), RunSteps(lines[1..]));
    } else if RunBlock(lines[0]).Some? {
      var n := BlockLen(lines[1..], RunBlock(lines[0]).value);
      SplitAllPieces(lines[1..][..n]);
      RunStepsPieces(lines[1..][n..]);
      PiecesConcat(SplitAll(lines[1..][..n]), RunSteps(lines[1..][n..]));
    } else {
      RunStepsPieces(lines[1..]);
    }
  }

  /** Whatever the workflows say, every command read out of them is a piece. */
  lemma {:induction false} CiCommandsPieces(texts: seq<string>)
    ensures ArePieces(CiCommands(texts))
  {
    hide RunSteps, GatesPullRequest, SplitLines, ArePieces;
    NoPieces();
    if texts != [] {
      RunStepsPieces(SplitLines(texts[0]));
      CiCommandsPieces(texts[1..]);
      PiecesConcat(if GatesPullRequest(texts[0]) then RunSteps(SplitLines(texts[0])) else [],
        CiCommands(texts[1..]));
    }
  }

  // ---------------------------------------------------------------- dedupe

  lemma PieceHasWords(p: string)
    requires p != "" && Trimmed(p)
    ensures Words(p) != [] && Join(" ", Words(p)) != ""
  {
    FirstWord(p);
  }

  lemma JoinedWordsEqual(a: string, b: string)
    requires Join(" ", Words(a)) == Join(" ", Words(b))
    ensures Words(a) == Words(b)
  {
    hide Words, Join;
    WordsJoin(Words(a));
    WordsJoin(Words(b));
  }

  /** Deduplication only drops commands; a kept one is unchanged. */
  lemma {:induction false} DedupeMember(commands: seq<string>, seen: set<string>, d: string)
    requires ArePieces(commands) && d in Dedupe(commands, seen)
    ensures d in commands
  {
    hide Words, Join, NoSeparators, NoComment, NoBreaks, Strip;
    if commands != [] {
      assert IsPiece(commands[0]);
      var key := Join(" ", Words(commands[0]));
      assert ArePieces(commands[1..]);
      if key != "" && key !in seen {
        if d != Strip(commands[0]) { DedupeMember(commands[1..], seen + {key}, d); }
      } else {
        DedupeMember(commands[1..], seen, d);
      }
    }
  }

  /** Every command survives deduplication up to its spacing. */
  lemma {:induction false} DedupeCovers(commands: seq<string>, seen: set<string>, c: string) returns (d: string)
    requires ArePieces(commands) && c in commands
    requires Join(" ", Words(c)) !in seen
    ensures d in Dedupe(commands, seen) && Words(d) == Words(c)
  {
    hide Words, Join, NoSeparators, NoComment, NoBreaks, Strip;
    assert IsPiece(commands[0]);
    assert ArePieces(commands[1..]);
    PieceHasWords(commands[0]);
    var key := Join(" ", Words(commands[0]));
    if key !in seen {
      if key == Join(" ", Words(c)) {
        JoinedWordsEqual(commands[0], c);
        d := Strip(commands[0]);
      } else {
        d := DedupeCovers(commands[1..], seen + {key}, c);
      }
    } else {
      d := DedupeCovers(commands[1..], seen, c);
    }
  }

  /** No two kept commands have the same words. */
  lemma {:induction false} DedupeDistinct(commands: seq<string>, seen: set<string>)
    requires ArePieces(commands)
    ensures forall i | 0 <= i < |Dedupe(commands, seen)| ::
      Join(" ", Words(Dedupe(commands, seen)[i])) !in seen
    ensures forall i, j | 0 <= i < j < |Dedupe(commands, seen)| ::
      Words(Dedupe(commands, seen)[i]) != Words(Dedupe(commands, seen)[j])
  {
    hide Words, Join, NoSeparators, NoComment, NoBreaks, Strip;
    if commands != [] {
      assert IsPiece(commands[0]);
      assert ArePieces(commands[1..]);
      var key := Join(" ", Words(commands[0]));
      if key != "" && key !in seen {
        DedupeDistinct(commands[1..], seen + {key});
      } else {
        DedupeDistinct(commands[1..], seen);
      }
    }
  }

  lemma DedupePieces(commands: seq<string>)
    requires ArePieces(commands)
    ensures ArePieces(Dedupe(commands, {}))
  {
    hide IsPiece, Dedupe;
    forall i | 0 <= i < |Dedupe(commands, {})| ensures IsPiece(Dedupe(commands, {})[i]) {
      DedupeMember(commands, {}, Dedupe(commands, {})[i]);
    }
  }

  // ---------------------------------------------------------------- what is declared

  lemma RawsConcat(a: seq<DeclaredCommand>, b: seq<DeclaredCommand>)
    ensures Raws(a + b) == Raws(a) + Raws(b)
  {
  }

  lemma KeysConcat(u: Alphabet, a: seq<string>, b: seq<string>)
    ensures Keys(u, a + b) == Keys(u, a) + Keys(u, b)
  {
    hide CommandKey;
    var all := a + b;
    forall key | key in Keys(u, a) ensures key in Keys(u, all) {
      var i :| 0 <= i < |a| && CommandKey(u, a[i]) == key;
      assert all[i] == a[i];
    }
    forall key | key in Keys(u, b) ensures key in Keys(u, all) {
      var i :| 0 <= i < |b| && CommandKey(u, b[i]) == key;
      assert all[|a| + i] == b[i];
    }
  }

  /** Some command of the list, printed and read back, has the key. */
  predicate ReadsBackAs(u: Alphabet, commands: seq<string>, key: string) {
    exists i | 0 <= i < |commands| :: CommandKey(u, ReadBack(commands[i])) == key
  }

  lemma KeysOfTwo(u: Alphabet, a: seq<DeclaredCommand>, b: seq<DeclaredCommand>)
    ensures Keys(u, Raws(a + b)) == Keys(u, Raws(a)) + Keys(u, Raws(b))
  {
    hide CommandKey, Keys;
    RawsConcat(a, b);
    KeysConcat(u, Raws(a), Raws(b));
  }

  lemma NoKeys(u: Alphabet)
    ensures Keys(u, []) == {} && Keys(u, Raws([])) == {}
  {
  }

  /** A line declares a key exactly when one of its commands has it. */
  lemma {:induction false} PartsKeys(u: Alphabet, parts: seq<string>, cwd: string, manifest: string, n: nat, key: string)
    requires u.Sane() && key != ""
    ensures key in Keys(u, Raws(DeclareParts(u, parts, cwd, manifest, n))) <==> key in Keys(u, parts)
  {
    hide CommandKey, ProgramOf, ApplyCd, Keys, Raws;
    NoKeys(u);
    if parts != [] {
      var first, rest := parts[0], parts[1..];
      var program := ProgramOf(u, first);
      assert parts == [first] + rest;
      KeysConcat(u, [first], rest);
      KeysOfOne(u, first);
      if program == "" {
        PartsKeys(u, rest, cwd, manifest, n, key);
        if CommandKey(u, first) != "" { KeyedHasProgram(u, first); }
      } else {
        var next := if program == "cd" then ApplyCd(cwd, first) else cwd;
        var declared := DeclaredCommand(first, program, manifest, n, cwd);
        PartsKeys(u, rest, next, manifest, n, key);
        KeysOfTwo(u, [declared], DeclareParts(u, rest, next, manifest, n));
        RawOfOne(declared);
      }
    }
  }

  lemma RawOfOne(d: DeclaredCommand)
    ensures Raws([d]) == [d.raw]
  {
  }

  lemma SplitFirst(line: string, rest: seq<string>)
    ensures SplitAll([line] + rest) == SplitCommandLine(line) + SplitAll(rest)
  {
    hide SplitCommandLine;
    assert ([line] + rest)[1..] == rest;
  }

  lemma LineKeys(u: Alphabet, line: string, manifest: string, n: nat, key: string,
    rest: seq<DeclaredCommand>, visible: seq<string>)
    requires u.Sane() && key != ""
    requires key in Keys(u, Raws(rest)) <==> key in Keys(u, SplitAll(visible))
    ensures key in Keys(u, Raws(DeclareLine(u, line, manifest, n) + rest)) <==> key in Keys(u, SplitAll([line] + visible))
  {
    hide SplitCommandLine, SplitAll, DeclareParts, Keys, Raws;
    PartsKeys(u, SplitCommandLine(line), ".", manifest, n, key);
    KeysOfTwo(u, DeclareLine(u, line, manifest, n), rest);
    SplitFirst(line, visible);
    KeysConcat(u, SplitCommandLine(line), SplitAll(visible));
  }

  /** Reading lines declares a key exactly when a command on one of the visible lines has it. */
  lemma {:induction false} ParseKeys(u: Alphabet, lines: seq<string>, inBlock: bool, manifest: string, n: nat, key: string)
    requires u.Sane() && key != ""
    ensures key in Keys(u, Raws(ParseLines(u, lines, inBlock, manifest, n))) <==> key in Keys(u, SplitAll(Visible(lines, inBlock)))
  {
    hide DeclareLine, SplitAll, FenceLanguage, BlockAfter, Keys, Raws;
    if lines == [] {
      NoKeys(u);
      assert SplitAll([]) == [] by { SplitNone(); }
    } else {
      var line, next := lines[0], BlockAfter(inBlock, lines[0]);
      var rest, visible := ParseLines(u, lines[1..], next, manifest, n + 1), Visible(lines[1..], next);
      ParseKeys(u, lines[1..], next, manifest, n + 1, key);
      LineKeys(u, line, manifest, n, key, rest, visible);
      assert [] + visible == visible && [] + rest == rest;
    }
  }

  lemma SplitNone()
    ensures SplitAll([]) == []
  {
  }

  lemma ProseKeys(u: Alphabet, prose: seq<string>, manifest: string, n: nat, key: string)
    requires u.Sane() && key != "" && NoFences(prose)
    ensures key in Keys(u, Raws(DeclareAll(u, prose, manifest, n))) <==> key in Keys(u, SplitAll(prose))
  {
    hide Keys, Raws, SplitAll, ParseLines, DeclareAll, Visible, NoFences;
    ReadUnfenced(u, prose, true, manifest, n);
    ParseKeys(u, prose, true, manifest, n, key);
  }

  lemma KeysOfOne(u: Alphabet, c: string)
    ensures Keys(u, [c]) == {CommandKey(u, c)}
  {
    hide CommandKey;
    KeysAppend(u, [], c);
    assert [] + [c] == [c];
    assert Keys(u, []) == {};
  }

  lemma EmptyHasNoKey(u: Alphabet)
    ensures CommandKey(u, "") == ""
  {
    hide Words, KeyTokens, Contains;
    WordsNone();
    NoWordsNoTokens();
  }

  lemma NoWordsNoTokens()
    ensures KeyTokens([]) == []
  {
    hide PathStem;
  }

  /** A printed command has the key it is read back with, and no other. */
  lemma {:induction false} PiecesKeys(u: Alphabet, ps: seq<string>, key: string)
    requires ArePieces(ps) && key != ""
    ensures key in Keys(u, SplitAll(ps)) <==> ReadsBackAs(u, ps, key)
  {
    hide CommandKey, ReadBack, IsPiece, SplitCommandLine, Keys;
    NoKeys(u);
    if ps != [] {
      PieceReread(ps[0]);
      EmptyHasNoKey(u);
      KeysOfOne(u, ReadBack(ps[0]));
      KeysConcat(u, SplitCommandLine(ps[0]), SplitAll(ps[1..]));
      PiecesKeys(u, ps[1..], key);
      ReadsBackCons(u, ps, key);
    }
  }

  lemma ReadsBackCons(u: Alphabet, ps: seq<string>, key: string)
    requires ps != []
    ensures ReadsBackAs(u, ps, key)
      <==> CommandKey(u, ReadBack(ps[0])) == key || ReadsBackAs(u, ps[1..], key)
  {
    hide CommandKey, ReadBack;
    if ReadsBackAs(u, ps[1..], key) {
      var i :| 0 <= i < |ps| - 1 && CommandKey(u, ReadBack(ps[1..][i])) == key;
      assert ps[i + 1] == ps[1..][i];
    }
    if ReadsBackAs(u, ps, key) && CommandKey(u, ReadBack(ps[0])) != key {
      var i :| 0 <= i < |ps| && CommandKey(u, ReadBack(ps[i])) == key;
      assert ps[1..][i - 1] == ps[i];
    }
  }

  /** Dividing the commands into setup and checks loses none. */
  lemma {:induction false} SelectReadsBack(u: Alphabet, commands: seq<string>, key: string)
    ensures ReadsBackAs(u, commands, key)
      <==> ReadsBackAs(u, Select(u, commands, true), key) || ReadsBackAs(u, Select(u, commands, false), key)
  {
    hide CommandKey, ReadBack, IsSetup, ReadsBackAs;
    if commands == [] {
      NoneReadsBack(u, key);
    } else {
      SelectReadsBack(u, commands[1..], key);
      ReadsBackCons(u, commands, key);
      var side := IsSetup(u, commands[0]);
      var mine := Select(u, commands, side);
      ReadsBackCons(u, mine, key);
      assert mine[1..] == Select(u, commands[1..], side);
      assert Select(u, commands, !side) == Select(u, commands[1..], !side);
    }
  }

  lemma NoneReadsBack(u: Alphabet, key: string)
    ensures !ReadsBackAs(u, [], key)
  {
  }

  lemma {:induction false} SelectPieces(u: Alphabet, commands: seq<string>, setup: bool)
    requires ArePieces(commands)
    ensures ArePieces(Select(u, commands, setup))
  {
    hide IsPiece, IsSetup;
    if commands != [] {
      SelectPieces(u, commands[1..], setup);
    }
  }

  lemma PiecesAreLines(ps: seq<string>)
    requires ArePieces(ps)
    ensures AreLines(ps)
  {
    hide NoBreaks, NoSeparators, NoComment;
    assert forall i | 0 <= i < |ps| :: IsPiece(ps[i]);
  }

  lemma ReadsBackConcat(u: Alphabet, a: seq<string>, b: seq<string>, key: string)
    ensures ReadsBackAs(u, a + b, key) <==> ReadsBackAs(u, a, key) || ReadsBackAs(u, b, key)
  {
    hide CommandKey, ReadBack;
    var all := a + b;
    assert forall i | 0 <= i < |a| :: all[i] == a[i];
    assert forall i | 0 <= i < |b| :: all[|a| + i] == b[i];
  }

  lemma {:induction false} VisibleMember(lines: seq<string>, inBlock: bool, c: string)
    requires c in Visible(lines, inBlock)
    ensures c in lines && FenceLanguage(c).None?
  {
    hide FenceLanguage, BlockAfter;
    if c != lines[0] || FenceLanguage(lines[0]).Some? || !inBlock {
      VisibleMember(lines[1..], BlockAfter(inBlock, lines[0]), c);
    }
  }

  /** The commands of a draft the reader sees. */
  function VisibleCommands(u: Alphabet, shape: ProjectShape): seq<string> {
    Visible(SetupBlock(u, shape), false) + Visible(ChecksBlock(u, shape), InsideAfterSetup(u, shape))
  }

  lemma VisibleBlock(commands: seq<string>, inBlock: bool)
    requires ArePieces(commands)
    ensures ArePieces(Visible(BlockOf(commands), inBlock))
  {
    hide IsPiece, FenceLanguage, BlockAfter, Visible, ShellBlock;
    var seen := Visible(BlockOf(commands), inBlock);
    forall i | 0 <= i < |seen| ensures IsPiece(seen[i]) {
      VisibleMember(BlockOf(commands), inBlock, seen[i]);
      NotAFence(commands, seen[i]);
    }
  }

  lemma NotAFence(commands: seq<string>, c: string)
    requires c in BlockOf(commands) && FenceLanguage(c).None?
    ensures c in commands
  {
    hide FenceLanguage;
    FencesFlip(false);
  }

  /** Some line of the draft's prose that the reader comes to read as commands holds one with the key. */
  predicate ProseHasKey(u: Alphabet, shape: ProjectShape, key: string) {
    || (InsideAfterSetup(u, shape) && key in Keys(u, SplitAll(Between(u, shape))))
    || (InsideAfterChecks(u, shape) && key in Keys(u, SplitAll(Rest(u, shape))))
  }

  lemma BlockKeys(u: Alphabet, lines: seq<string>, inBlock: bool, manifest: string, n: nat, key: string)
    requires u.Sane() && key != "" && ArePieces(Visible(lines, inBlock))
    ensures key in Keys(u, Raws(ParseLines(u, lines, inBlock, manifest, n))) <==> ReadsBackAs(u, Visible(lines, inBlock), key)
  {
    hide Keys, Raws, ParseLines, SplitAll, Visible, ReadsBackAs, IsPiece;
    ParseKeys(u, lines, inBlock, manifest, n, key);
    PiecesKeys(u, Visible(lines, inBlock), key);
  }

  /** A draft declares a key exactly when some command the reader sees is read back with it, or prose it
      comes to read has it. */
  lemma DraftKeys(u: Alphabet, shape: ProjectShape, manifest: string, key: string)
    requires u.Sane() && NamesFit(shape) && key != "" && ArePieces(shape.gates)
    ensures key in Keys(u, Raws(ParseManifest(u, AgentsMd(u, shape), manifest)))
      <==> ReadsBackAs(u, VisibleCommands(u, shape), key) || ProseHasKey(u, shape, key)
  {
    hide CommandKey, ReadsBackAs, IsPiece, ArePieces, AgentsMd, ParseManifest, ParseLines, Select, DeclareAll, Visible,
      NamesFit, NoFences, Raws, Keys, SetupBlock, ChecksBlock, Between, Rest, SplitAll, InsideAfterSetup, InsideAfterChecks,
      SetupLine, BetweenLine, ChecksLine, RestLine;
    PiecesAreLines(shape.gates);
    DraftDeclares(u, shape, manifest);
    PartsAreProse(u, shape);
    ProseLines(Between(u, shape));
    ProseLines(Rest(u, shape));
    VisiblePieces(u, shape);
    var inner, outer := InsideAfterSetup(u, shape), InsideAfterChecks(u, shape);
    var m1, m2, m3, m4 := SetupLine(u, shape), BetweenLine(u, shape), ChecksLine(u, shape), RestLine(u, shape);
    var a := ParseLines(u, SetupBlock(u, shape), false, manifest, m1);
    var b := if inner then DeclareAll(u, Between(u, shape), manifest, m2) else [];
    var c := ParseLines(u, ChecksBlock(u, shape), inner, manifest, m3);
    var d := if outer then DeclareAll(u, Rest(u, shape), manifest, m4) else [];
    KeysOfFour(u, a, b, c, d);
    NoKeys(u);
    BlockKeys(u, SetupBlock(u, shape), false, manifest, m1, key);
    ProseKeys(u, Between(u, shape), manifest, m2, key);
    BlockKeys(u, ChecksBlock(u, shape), inner, manifest, m3, key);
    ProseKeys(u, Rest(u, shape), manifest, m4, key);
    ReadsBackConcat(u, Visible(SetupBlock(u, shape), false), Visible(ChecksBlock(u, shape), inner), key);
  }

  lemma KeysOfFour(u: Alphabet, a: seq<DeclaredCommand>, b: seq<DeclaredCommand>, c: seq<DeclaredCommand>, d: seq<DeclaredCommand>)
    ensures Keys(u, Raws(a + (b + (c + d)))) == Keys(u, Raws(a)) + Keys(u, Raws(b)) + Keys(u, Raws(c)) + Keys(u, Raws(d))
  {
    hide Keys, Raws;
    KeysOfTwo(u, a, b + (c + d));
    KeysOfTwo(u, b, c + d);
    KeysOfTwo(u, c, d);
  }

  lemma VisiblePieces(u: Alphabet, shape: ProjectShape)
    requires ArePieces(shape.gates)
    ensures ArePieces(Visible(SetupBlock(u, shape), false))
    ensures ArePieces(Visible(ChecksBlock(u, shape), InsideAfterSetup(u, shape)))
  {
    hide IsPiece, Select, Visible, BlockOf;
    SelectPieces(u, shape.gates, true);
    SelectPieces(u, shape.gates, false);
    VisibleBlock(Select(u, shape.gates, true), false);
    VisibleBlock(Select(u, shape.gates, false), InsideAfterSetup(u, shape));
  }

  // ---------------------------------------------------------------- drift

  /** The drift list is empty exactly when every keyed command has a known key. */
  lemma {:induction false} NothingUnmentioned(u: Alphabet, ci: seq<string>, known: set<string>)
    ensures Unmentioned(u, ci, known) == []
      <==> forall i | 0 <= i < |ci| :: CommandKey(u, ci[i]) == "" || CommandKey(u, ci[i]) in known
  {
    hide CommandKey;
    if ci != [] {
      NothingUnmentioned(u, ci[1..], known);
      assert forall i | 0 < i < |ci| :: ci[i] == ci[1..][i - 1];
    }
  }

  /** What the drift list holds: CI commands with a key that is not known, one per key, none missing. */
  lemma UnmentionedExact(u: Alphabet, ci: seq<string>, known: set<string>)
    ensures var m := Unmentioned(u, ci, known);
      && (forall i | 0 <= i < |m| :: m[i] in ci && CommandKey(u, m[i]) != "" && CommandKey(u, m[i]) !in known)
      && (forall i, j | 0 <= i < j < |m| :: CommandKey(u, m[i]) != CommandKey(u, m[j]))
      && (forall i | 0 <= i < |ci| ::
            CommandKey(u, ci[i]) == "" || CommandKey(u, ci[i]) in known + Keys(u, m))
  {
    hide CommandKey, Unmentioned, Keys;
    var m := Unmentioned(u, ci, known);
    forall i | 0 <= i < |m| ensures m[i] in ci && CommandKey(u, m[i]) != "" && CommandKey(u, m[i]) !in known {
      UnmentionedMember(u, ci, known, i);
    }
    forall i, j | 0 <= i < j < |m| ensures CommandKey(u, m[i]) != CommandKey(u, m[j]) {
      UnmentionedDistinct(u, ci, known, i, j);
    }
    forall i | 0 <= i < |ci| ensures CommandKey(u, ci[i]) == "" || CommandKey(u, ci[i]) in known + Keys(u, m) {
      UnmentionedComplete(u, ci, known, i);
    }
  }

  lemma {:induction false} UnmentionedMember(u: Alphabet, ci: seq<string>, known: set<string>, i: nat)
    requires i < |Unmentioned(u, ci, known)|
    ensures var c := Unmentioned(u, ci, known)[i]; c in ci && CommandKey(u, c) != "" && CommandKey(u, c) !in known
    decreases |ci|
  {
    hide CommandKey;
    var key := CommandKey(u, ci[0]);
    if key == "" || key in known {
      UnmentionedMember(u, ci[1..], known, i);
    } else if i > 0 {
      UnmentionedMember(u, ci[1..], known + {key}, i - 1);
    }
  }

  lemma {:induction false} UnmentionedDistinct(u: Alphabet, ci: seq<string>, known: set<string>, i: nat, j: nat)
    requires i < j < |Unmentioned(u, ci, known)|
    ensures CommandKey(u, Unmentioned(u, ci, known)[i]) != CommandKey(u, Unmentioned(u, ci, known)[j])
    decreases |ci|
  {
    hide CommandKey;
    var key := CommandKey(u, ci[0]);
    if key == "" || key in known {
      UnmentionedDistinct(u, ci[1..], known, i, j);
    } else if i > 0 {
      UnmentionedDistinct(u, ci[1..], known + {key}, i - 1, j - 1);
    } else {
      UnmentionedMember(u, ci[1..], known + {key}, j - 1);
    }
  }

  lemma {:induction false} UnmentionedComplete(u: Alphabet, ci: seq<string>, known: set<string>, i: nat)
    requires i < |ci|
    ensures CommandKey(u, ci[i]) == "" || CommandKey(u, ci[i]) in known + Keys(u, Unmentioned(u, ci, known))
    decreases |ci|
  {
    hide CommandKey, Keys;
    var key := CommandKey(u, ci[0]);
    var reported := !(key == "" || key in known);
    var next := if reported then known + {key} else known;
    if reported {
      KeysConcat(u, [ci[0]], Unmentioned(u, ci[1..], next));
      KeysOfOne(u, ci[0]);
    }
    if i > 0 {
      assert ci[1..][i - 1] == ci[i];
      UnmentionedComplete(u, ci[1..], next, i - 1);
    }
  }

  /** The shape a draft for the given CI commands is made from. */
  ghost predicate DraftedFrom(shape: ProjectShape, ci: seq<string>) {
    shape.gates == Dedupe(ci, {}) && NamesFit(shape) && ArePieces(ci)
  }

  /** Exactly when a draft has no drift, whatever CI runs: every command with a key is matched by one the
      reader sees and gives back with the same key, or by prose it comes to read as commands. */
  lemma NoDriftExactly(u: Alphabet, shape: ProjectShape, ci: seq<string>, manifest: string)
    requires u.Sane() && DraftedFrom(shape, ci)
    ensures ManifestVsCi(u, ParseManifest(u, AgentsMd(u, shape), manifest), ci) == []
      <==> forall i | 0 <= i < |ci| ::
        || CommandKey(u, ci[i]) == ""
        || ReadsBackAs(u, VisibleCommands(u, shape), CommandKey(u, ci[i]))
        || ProseHasKey(u, shape, CommandKey(u, ci[i]))
  {
    hide CommandKey, ReadsBackAs, AgentsMd, ParseManifest, Keys, Raws, Dedupe, NamesFit, ArePieces, VisibleCommands, ProseHasKey;
    assert ArePieces(shape.gates) by { DedupePieces(ci); }
    var known := Keys(u, Raws(ParseManifest(u, AgentsMd(u, shape), manifest)));
    NothingUnmentioned(u, ci, known);
    forall i | 0 <= i < |ci| && CommandKey(u, ci[i]) != ""
      ensures CommandKey(u, ci[i]) in known
        <==> ReadsBackAs(u, VisibleCommands(u, shape), CommandKey(u, ci[i])) || ProseHasKey(u, shape, CommandKey(u, ci[i]))
    {
      DraftKeys(u, shape, manifest, CommandKey(u, ci[i]));
    }
  }

  /** When each block leaves the reader outside, no prose counts. */
  lemma NoDriftWhenBalanced(u: Alphabet, shape: ProjectShape, ci: seq<string>, manifest: string)
    requires u.Sane() && DraftedFrom(shape, ci)
    requires !InsideAfterSetup(u, shape) && !InsideAfterChecks(u, shape)
    ensures ManifestVsCi(u, ParseManifest(u, AgentsMd(u, shape), manifest), ci) == []
      <==> forall i | 0 <= i < |ci| ::
        CommandKey(u, ci[i]) == "" || ReadsBackAs(u, VisibleCommands(u, shape), CommandKey(u, ci[i]))
  {
    hide CommandKey, ReadsBackAs, AgentsMd, ParseManifest, ManifestVsCi, DraftedFrom, VisibleCommands, InsideAfterSetup,
      InsideAfterChecks, Between, Rest;
    NoDriftExactly(u, shape, ci, manifest);
    assert forall key :: !ProseHasKey(u, shape, key);
  }

  lemma DedupeFences(ci: seq<string>)
    requires ArePieces(ci) && NoFences(ci)
    ensures NoFences(Dedupe(ci, {}))
  {
    hide IsPiece, FenceLanguage, Dedupe;
    forall i | 0 <= i < |Dedupe(ci, {})| ensures FenceLanguage(Dedupe(ci, {})[i]).None? {
      DedupeMember(ci, {}, Dedupe(ci, {})[i]);
    }
  }

  /** Without a fence among the commands, every command counts and no prose does. */
  lemma NoDriftWithoutFences(u: Alphabet, shape: ProjectShape, ci: seq<string>, manifest: string)
    requires u.Sane() && DraftedFrom(shape, ci) && NoFences(ci)
    ensures ManifestVsCi(u, ParseManifest(u, AgentsMd(u, shape), manifest), ci) == []
      <==> forall i | 0 <= i < |ci| ::
        CommandKey(u, ci[i]) == "" || ReadsBackAs(u, shape.gates, CommandKey(u, ci[i]))
  {
    hide CommandKey, ReadsBackAs, AgentsMd, ParseManifest, ManifestVsCi, NoFences, ArePieces, Dedupe, NamesFit,
      InsideAfterSetup, InsideAfterChecks, VisibleCommands;
    DedupeFences(ci);
    PlainDraftSees(u, shape);
    NoDriftWhenBalanced(u, shape, ci, manifest);
    forall key ensures ReadsBackAs(u, VisibleCommands(u, shape), key) <==> ReadsBackAs(u, shape.gates, key) {
      ReadsBackConcat(u, Select(u, shape.gates, true), Select(u, shape.gates, false), key);
      SelectReadsBack(u, shape.gates, key);
    }
  }

  lemma PlainDraftSees(u: Alphabet, shape: ProjectShape)
    requires NoFences(shape.gates)
    ensures !InsideAfterSetup(u, shape) && !InsideAfterChecks(u, shape)
    ensures VisibleCommands(u, shape) == Select(u, shape.gates, true) + Select(u, shape.gates, false)
  {
    hide NoFences, Select, BlockOf, Visible, StateAfter;
    SelectLines(u, shape.gates, true);
    SelectLines(u, shape.gates, false);
    ReadPlainBlock(u, Select(u, shape.gates, true), "", 0);
    ReadPlainBlock(u, Select(u, shape.gates, false), "", 0);
  }

  /** A command the reader's comment and continuation rules leave alone. */
  predicate IsUntouched(c: string) {
    c != "" && c[0] != '#' && c[|c| - 1] != '\\'
  }

  lemma KeyReadsBack(u: Alphabet, gates: seq<string>, d: string)
    requires u.Sane() && IsPiece(d) && d in gates
    requires CommandKey(u, d) != "" && IsUntouched(d)
    ensures ReadsBackAs(u, gates, CommandKey(u, d))
  {
    hide CommandKey, ReadBack;
    if HasPrompt(d) { PromptHasNoKey(u, d); }
    StableReadsBack(d);
  }

  /** The author's claim: a draft made from CI declares every command CI runs, so the drift check
      returns the empty list, provided no command is a fence, starts a comment or is continued. */
  lemma FreshDraftHasNoDrift(u: Alphabet, shape: ProjectShape, ci: seq<string>, manifest: string)
    requires u.Sane() && DraftedFrom(shape, ci) && NoFences(ci)
    requires forall i | 0 <= i < |ci| :: CommandKey(u, ci[i]) == "" || IsUntouched(ci[i])
    ensures ManifestVsCi(u, ParseManifest(u, AgentsMd(u, shape), manifest), ci) == []
  {
    hide CommandKey, ReadsBackAs, AgentsMd, ParseManifest, ManifestVsCi, Dedupe, NamesFit, IsPiece, NoFences,
      IsUntouched, Words, Join;
    forall i | 0 <= i < |ci| && CommandKey(u, ci[i]) != ""
      ensures ReadsBackAs(u, shape.gates, CommandKey(u, ci[i]))
    {
      var d := DedupeCovers(ci, {}, ci[i]);
      KeyOfWords(u, d, ci[i]);
      DedupeMember(ci, {}, d);
      KeyReadsBack(u, shape.gates, d);
    }
    NoDriftWithoutFences(u, shape, ci, manifest);
  }

  /** The same from the workflow files on: read them, draft, write, read back, compare. */
  lemma FreshDraftAgreesWithWorkflows(u: Alphabet, shape: ProjectShape, workflows: seq<string>, manifest: string)
    requires u.Sane() && NamesFit(shape) && shape.gates == Dedupe(CiCommands(workflows), {})
    requires NoFences(CiCommands(workflows))
    requires forall i | 0 <= i < |CiCommands(workflows)| ::
      CommandKey(u, CiCommands(workflows)[i]) == "" || IsUntouched(CiCommands(workflows)[i])
    ensures ManifestVsCi(u, ParseManifest(u, AgentsMd(u, shape), manifest), CiCommands(workflows)) == []
  {
    hide CommandKey, AgentsMd, ParseManifest, ManifestVsCi, Dedupe, NamesFit, CiCommands, NoFences,
      IsUntouched, ArePieces;
    CiCommandsPieces(workflows);
    FreshDraftHasNoDrift(u, shape, CiCommands(workflows), manifest);
  }

  // ---------------------------------------------------------------- which commands a draft is made of

  /** The first command of its words, and not a blank one. */
  predicate IsFirstOfWords(commands: seq<string>, i: nat)
    requires i < |commands|
  {
    Words(commands[i]) != [] && forall j | 0 <= j < i :: Words(commands[j]) != Words(commands[i])
  }

  function FirstsOfWords(commands: seq<string>, n: nat): seq<string>
    requires n <= |commands|
  {
    if n == 0 then []
    else FirstsOfWords(commands, n - 1) + if IsFirstOfWords(commands, n - 1) then [Strip(commands[n - 1])] else []
  }

  function SpellingsSeen(commands: seq<string>, seen: set<string>): set<string> {
    if commands == [] then seen
    else
      var key := Join(" ", Words(commands[0]));
      SpellingsSeen(commands[1..], if key != "" && key !in seen then seen + {key} else seen)
  }

  lemma {:induction false} DedupeConcat(a: seq<string>, b: seq<string>, seen: set<string>)
    ensures Dedupe(a + b, seen) == Dedupe(a, seen) + Dedupe(b, SpellingsSeen(a, seen))
    decreases |a|
  {
    hide Words, Join, Strip;
    if a == [] {
      assert a + b == b;
    } else {
      assert (a + b)[1..] == a[1..] + b;
      var key := Join(" ", Words(a[0]));
      DedupeConcat(a[1..], b, if key != "" && key !in seen then seen + {key} else seen);
    }
  }

  lemma {:induction false} SpellingsExactly(commands: seq<string>, seen: set<string>, key: string)
    requires key != ""
    ensures key in SpellingsSeen(commands, seen)
      <==> key in seen || exists i | 0 <= i < |commands| :: Join(" ", Words(commands[i])) == key
    decreases |commands|
  {
    hide Words, Join;
    if commands != [] {
      var first := Join(" ", Words(commands[0]));
      SpellingsExactly(commands[1..], if first != "" && first !in seen then seen + {first} else seen, key);
      assert forall i | 0 < i < |commands| :: commands[i] == commands[1..][i - 1];
      assert forall i | 0 <= i < |commands| - 1 :: commands[1..][i] == commands[i + 1];
    }
  }

  lemma WordsFromJoined(a: string, b: string)
    ensures Join(" ", Words(a)) == Join(" ", Words(b)) <==> Words(a) == Words(b)
    ensures Join(" ", Words(a)) == "" <==> Words(a) == []
  {
    hide Words, Join;
    if Join(" ", Words(a)) == Join(" ", Words(b)) { JoinedWordsEqual(a, b); }
    WordsJoin(Words(a));
    WordsNone();
    JoinOfNone();
  }

  lemma JoinOfNone()
    ensures Join(" ", []) == ""
  {
  }

  /** Of the commands the first of each spelling is kept, stripped, in order. */
  lemma {:induction false} DedupeKeepsFirsts(commands: seq<string>, n: nat)
    requires n <= |commands|
    ensures Dedupe(commands[..n], {}) == FirstsOfWords(commands, n)
  {
    hide Dedupe, Words, Join, Strip, SpellingsSeen, IsFirstOfWords;
    if n == 0 {
      DedupeNone({});
    } else {
      var head, last := commands[..n - 1], commands[n - 1];
      DedupeKeepsFirsts(commands, n - 1);
      assert commands[..n] == head + [last];
      DedupeConcat(head, [last], {});
      DedupeOne(last, SpellingsSeen(head, {}));
      FirstUnlessSeen(commands, n - 1);
    }
  }

  lemma FirstUnlessSeen(commands: seq<string>, i: nat)
    requires i < |commands|
    ensures var key := Join(" ", Words(commands[i]));
      IsFirstOfWords(commands, i) <==> key != "" && key !in SpellingsSeen(commands[..i], {})
  {
    hide Words, Join, SpellingsSeen;
    var head, last := commands[..i], commands[i];
    var key := Join(" ", Words(last));
    WordsFromJoined(last, last);
    if key != "" {
      SpellingsExactly(head, {}, key);
      forall j | 0 <= j < i ensures Join(" ", Words(head[j])) == key <==> Words(commands[j]) == Words(last) {
        WordsFromJoined(head[j], last);
      }
    }
  }

  lemma DedupeNone(seen: set<string>)
    ensures Dedupe([], seen) == []
  {
  }

  lemma DedupeOne(c: string, seen: set<string>)
    ensures var key := Join(" ", Words(c));
      Dedupe([c], seen) == if key != "" && key !in seen then [Strip(c)] else []
  {
    hide Words, Join, Strip;
    assert [c][1..] == [];
  }

  /** A command is put under setup exactly when, in lower case and with single spaces, it starts like one of
      the listed installation commands; otherwise it is a check. */
  lemma SetupExactly(u: Alphabet, c: string)
    ensures c in Select(u, [c], true) <==>
      exists i | 0 <= i < |SETUP_PREFIXES| :: SETUP_PREFIXES[i] <= u.lower(Join(" ", Words(c)))
    ensures c in Select(u, [c], false) <==> c !in Select(u, [c], true)
  {
    hide Words, Join, SETUP_PREFIXES;
    var text := u.lower(Join(" ", Words(c)));
    assert [c][1..] == [] && forall side: bool :: Select(u, [], side) == [];
    forall i | 0 <= i < |SETUP_PREFIXES| ensures StartsWith(text, SETUP_PREFIXES[i]) <==> SETUP_PREFIXES[i] <= text {
      PrefixStarts(text, SETUP_PREFIXES[i]);
    }
  }

  lemma PrefixStarts(s: string, w: string)
    ensures StartsWith(s, w) <==> w <= s
  {
    if |w| <= |s| { assert s[0..|w|] == s[..|w|]; }
  }
}
