/** The claim an AGENTS.md draft rests on: a freshly generated file declares what CI runs, so the
    drift check finds nothing in it (devrepro/agents/author.py, devrepro/agents/manifest.py). */
module RoundTrip {
  import opened Strings
  import opened AgentManifest
  import opened CommandLaws
  import opened DraftWording
  import opened AgentAuthor

  // ---------------------------------------------------------------- what a draft is made of

  /** No name in the shape contains a line break. */
  predicate NamesFit(shape: ProjectShape) {
    && NoBreaks(shape.name) && AreLines(shape.ecosystems)
    && AreLines(shape.directories) && AreLines(shape.existingManifests)
  }

  /** No command in the list would be read as a fence. */
  predicate NoFences(commands: seq<string>) {
    forall i | 0 <= i < |commands| :: FenceLanguage(commands[i]).None?
  }

  lemma {:induction false} JoinBreaks(sep: string, parts: seq<string>)
    requires NoBreaks(sep) && AreLines(parts)
    ensures NoBreaks(Join(sep, parts))
  {
    if |parts| > 1 {
      JoinBreaks(sep, parts[1..]);
    }
  }

  /** A line whose first character is visible and no backtick. */
  lemma OpensPlainly(l: string)
    requires NoBreaks(l) && l != "" && !IsSpace(l[0]) && l[0] != '`'
    ensures Prose(l)
  {
    NotFence(l, 0);
  }

  lemma HeaderIsProse(name: string)
    requires NoBreaks(name)
    ensures AllProse(Header(name))
  {
    hide Instructions, DraftedFrom, IfACommandDisagrees, WorkflowWins, AfterChangingEither, Prose;
    OpensPlainly("# " + name);
    BlankProse();
  }

  lemma WhatThisIsIsProse(ecosystems: seq<string>)
    requires AreLines(ecosystems)
    ensures AllProse(WhatThisIs(ecosystems))
  {
    hide WhatItDoes, GeneratorCannotKnow, Prose, Join, FenceLanguage;
    JoinBreaks(" + ", ecosystems);
    OpensPlainly("## What this is");
    OpensPlainly("A " + Join(" + ", ecosystems) + " project.");
    BlankProse();
  }

  lemma ChecksProse(n: nat)
    ensures AllProse(["## Checks that gate a pull request", ""])
    ensures AllProse(ChecksIntro()) && AllProse(ChecksCount(n)) && AllProse(NoChecks())
  {
    hide EveryOneRuns, SubsetFails, TriggerOnPullRequests, ReleaseStepsExcluded, NoWorkflowFound,
      ListTheCommands, KeepThemIdentical, Prose, Decimal, FenceLanguage;
    OpensPlainly("## Checks that gate a pull request");
    OpensPlainly("request.");
    CountIsProse(Decimal(n));
    BlankProse();
  }

  lemma CountIsProse(n: string)
    requires NoBreaks(n)
    ensures Prose("That is " + n + " command(s), read " + "from the workflows that")
  {
    hide FenceLanguage;
    OpensPlainly("That is " + n + " command(s), read " + "from the workflows that");
  }

  lemma {:induction false} LayoutEntriesAreProse(directories: seq<string>)
    requires AreLines(directories)
    ensures AllProse(LayoutEntries(directories))
  {
    hide Prose, FenceLanguage;
    if directories != [] {
      LayoutEntriesAreProse(directories[1..]);
      OpensPlainly("- `" + directories[0] + "/`");
    }
  }

  lemma {:induction false} QuotedBreaks(manifests: seq<string>)
    requires AreLines(manifests)
    ensures AreLines(Quoted(manifests))
  {
    if manifests != [] {
      QuotedBreaks(manifests[1..]);
    }
  }

  lemma OtherFilesAreProse(manifests: seq<string>)
    requires AreLines(manifests)
    ensures AllProse(OtherFiles(manifests))
  {
    hide WhereTheyDisagree, WillNotSeeTheOthers, Prose, Join, Quoted, FenceLanguage;
    QuotedBreaks(manifests);
    JoinBreaks(", ", Quoted(manifests));
    OpensPlainly("## Other instruction files");
    HasOthersIsProse(Join(", ", Quoted(manifests)));
    BlankProse();
  }

  lemma HasOthersIsProse(names: string)
    requires NoBreaks(names)
    ensures Prose("This repository also has " + names + ". Keep them consistent:")
  {
    hide FenceLanguage;
    OpensPlainly("This repository also has " + names + ". Keep them consistent:");
  }

  lemma FixedSectionsAreProse(hasPrecommit: bool)
    ensures AllProse(PrecommitSection(hasPrecommit))
    ensures AllProse(Conventions()) && AllProse(BeforeYouFinish())
  {
    hide PrecommitExists, PrecommitCovers, RulesNotObvious, WhatToName, WhichAreAccidents,
      SectionMostNeeded, LeftEmptyOnPurpose, NotFilledWithGuesses, RunEveryCommand, AgentCheckReports,
      WhetherCommandsResolve, CouldReach, Prose, FenceLanguage;
    OpensPlainly("## Conventions");
    OpensPlainly("## Before you finish");
    BlankProse();
  }

  lemma ClosingIsProse(shape: ProjectShape)
    requires NamesFit(shape)
    ensures AllProse(Closing(shape))
  {
    hide PrecommitSection, LayoutEntries, Conventions, BeforeYouFinish, OtherFiles, Prose, FenceLanguage;
    FixedSectionsAreProse(shape.hasPrecommit);
    LayoutEntriesAreProse(shape.directories);
    OpensPlainly("## Layout");
    BlankProse();
    if |shape.existingManifests| > 1 { OtherFilesAreProse(shape.existingManifests); }
  }

  // ---------------------------------------------------------------- reading sections

  /** What a run of lines declares when each is read as a command line. */
  function DeclareAll(u: Alphabet, lines: seq<string>, manifest: string, number: nat): seq<DeclaredCommand> {
    if lines == [] then []
    else DeclareLine(u, lines[0], manifest, number) + DeclareAll(u, lines[1..], manifest, number + 1)
  }

  /** Whether the reader is inside a block after the lines. */
  function StateAfter(lines: seq<string>, inBlock: bool): bool {
    if lines == [] then inBlock else StateAfter(lines[1..], BlockAfter(inBlock, lines[0]))
  }

  /** The lines it reads as command lines. */
  function Visible(lines: seq<string>, inBlock: bool): seq<string> {
    if lines == [] then []
    else VisibleLine(lines[0], inBlock) + Visible(lines[1..], BlockAfter(inBlock, lines[0]))
  }

  lemma {:induction false} ParseConcat(u: Alphabet, a: seq<string>, b: seq<string>, inBlock: bool, manifest: string, n: nat)
    ensures ParseLines(u, a + b, inBlock, manifest, n)
         == ParseLines(u, a, inBlock, manifest, n) + ParseLines(u, b, StateAfter(a, inBlock), manifest, n + |a|)
  {
    hide DeclareLine, FenceLanguage, BlockAfter;
    if a == [] {
      assert a + b == b;
    } else {
      assert (a + b)[0] == a[0] && (a + b)[1..] == a[1..] + b;
      ParseConcat(u, a[1..], b, BlockAfter(inBlock, a[0]), manifest, n + 1);
    }
  }

  lemma {:induction false} StateConcat(a: seq<string>, b: seq<string>, inBlock: bool)
    ensures StateAfter(a + b, inBlock) == StateAfter(b, StateAfter(a, inBlock))
  {
    hide BlockAfter;
    if a == [] {
      assert a + b == b;
    } else {
      assert (a + b)[0] == a[0] && (a + b)[1..] == a[1..] + b;
      StateConcat(a[1..], b, BlockAfter(inBlock, a[0]));
    }
  }

  /** The first line when it is read, and nothing otherwise. */
  function VisibleLine(line: string, inBlock: bool): seq<string> {
    if FenceLanguage(line).None? && inBlock then [line] else []
  }

  lemma {:induction false} VisibleConcat(a: seq<string>, b: seq<string>, inBlock: bool)
    ensures Visible(a + b, inBlock) == Visible(a, inBlock) + Visible(b, StateAfter(a, inBlock))
    ensures StateAfter(a + b, inBlock) == StateAfter(b, StateAfter(a, inBlock))
  {
    hide Visible, VisibleLine, BlockAfter, StateAfter;
    StateConcat(a, b, inBlock);
    if a == [] {
      assert a + b == b;
      VisibleNone(inBlock);
    } else {
      var next, head, tail := BlockAfter(inBlock, a[0]), VisibleLine(a[0], inBlock), Visible(b, StateAfter(a, inBlock));
      VisibleConcat(a[1..], b, next);
      assert a + b == [a[0]] + (a[1..] + b) && a == [a[0]] + a[1..];
      VisibleCons(a[0], a[1..] + b, inBlock);
      VisibleCons(a[0], a[1..], inBlock);
      assert head + (Visible(a[1..], next) + tail) == (head + Visible(a[1..], next)) + tail;
    }
  }

  lemma VisibleNone(inBlock: bool)
    ensures Visible([], inBlock) == [] && StateAfter([], inBlock) == inBlock
  {
  }

  lemma VisibleCons(line: string, rest: seq<string>, inBlock: bool)
    ensures Visible([line] + rest, inBlock) == VisibleLine(line, inBlock) + Visible(rest, BlockAfter(inBlock, line))
    ensures StateAfter([line] + rest, inBlock) == StateAfter(rest, BlockAfter(inBlock, line))
  {
    hide VisibleLine, BlockAfter;
    assert ([line] + rest)[1..] == rest;
  }

  /** Lines without a fence are all read inside a block and none outside, and leave the reader where it was. */
  lemma {:induction false} ReadUnfenced(u: Alphabet, lines: seq<string>, inBlock: bool, manifest: string, n: nat)
    requires NoFences(lines)
    ensures ParseLines(u, lines, inBlock, manifest, n) == if inBlock then DeclareAll(u, lines, manifest, n) else []
    ensures Visible(lines, inBlock) == if inBlock then lines else []
    ensures StateAfter(lines, inBlock) == inBlock
  {
    hide DeclareLine, FenceLanguage;
    if lines != [] {
      ReadUnfenced(u, lines[1..], inBlock, manifest, n + 1);
    }
  }

  lemma FenceOf(language: string)
    requires NoSpaces(language) && forall i | 0 <= i < |language| :: IsLanguageChar(language[i])
    ensures FenceLanguage("```" + language) == Some(language)
  {
    hide Strip;
    var l := "```" + language;
    assert Trimmed(l);
    assert l[0..3] == "```" && l[3..] == language;
  }

  /** The two fences of a block flip the reader's state, whatever it was. */
  lemma FencesFlip(inBlock: bool)
    ensures FenceLanguage("```bash") == Some("bash") && BlockAfter(inBlock, "```bash") == !inBlock
    ensures FenceLanguage("```") == Some("") && BlockAfter(inBlock, "```") == !inBlock
  {
    hide FenceLanguage;
    FenceOf("bash");
    FenceOf("");
    assert "```bash" == "```" + "bash" && "```" == "```" + "";
    assert LowerAscii("bash") == "bash" && LowerAscii("") == "";
  }

  /** Inside a block any fence closes it. */
  lemma ToggleCloses(fence: string)
    requires FenceLanguage(fence).Some?
    ensures !BlockAfter(true, fence)
  {
    hide FenceLanguage, LowerAscii;
  }

  /** A fence declares nothing and changes the state. */
  lemma ReadFence(u: Alphabet, fence: string, inBlock: bool, manifest: string, n: nat)
    requires FenceLanguage(fence).Some?
    ensures ParseLines(u, [fence], inBlock, manifest, n) == [] && Visible([fence], inBlock) == []
    ensures StateAfter([fence], inBlock) == BlockAfter(inBlock, fence)
  {
    hide DeclareLine, FenceLanguage, BlockAfter;
    assert [fence][1..] == [];
  }

  /** Between an opening fence and a closing one the lines are read in the state the opening leaves; the
      closing one flips whatever state they leave. */
  lemma ReadFenced(u: Alphabet, fence: string, body: seq<string>, inBlock: bool, manifest: string, n: nat)
    requires FenceLanguage(fence).Some?
    ensures var start, lines := BlockAfter(inBlock, fence), [fence] + body + ["```"];
      && ParseLines(u, lines, inBlock, manifest, n) == ParseLines(u, body, start, manifest, n + 1)
      && Visible(lines, inBlock) == Visible(body, start)
      && StateAfter(lines, inBlock) == !StateAfter(body, start)
  {
    hide FenceLanguage, BlockAfter, ParseLines, Visible, StateAfter;
    var start := BlockAfter(inBlock, fence);
    var end := StateAfter(body, start);
    ReadFence(u, fence, inBlock, manifest, n);
    FencesFlip(end);
    ReadFence(u, "```", end, manifest, n + 1 + |body|);
    ParseConcat(u, [fence], body + ["```"], inBlock, manifest, n);
    ParseConcat(u, body, ["```"], start, manifest, n + 1);
    VisibleConcat([fence], body + ["```"], inBlock);
    VisibleConcat(body, ["```"], start);
    assert [fence] + body + ["```"] == [fence] + (body + ["```"]);
  }

  lemma ReadShellBlock(u: Alphabet, commands: seq<string>, inBlock: bool, manifest: string, n: nat)
    ensures ParseLines(u, ShellBlock(commands), inBlock, manifest, n) == ParseLines(u, commands, !inBlock, manifest, n + 1)
    ensures Visible(ShellBlock(commands), inBlock) == Visible(commands, !inBlock)
    ensures StateAfter(ShellBlock(commands), inBlock) == !StateAfter(commands, !inBlock)
  {
    hide FenceLanguage, BlockAfter, ParseLines, Visible, StateAfter;
    FencesFlip(inBlock);
    ReadFenced(u, "```bash", commands, inBlock, manifest, n);
  }

  // ---------------------------------------------------------------- the text and its lines

  lemma {:induction false} JoinLines(lines: seq<string>)
    requires lines != []
    ensures Join("\n", lines + [""]) == Join("\n", lines) + "\n"
    ensures Join("\n", lines) + "\n" == Unlines(lines)
    ensures |Join("\n", lines)| >= |lines[|lines| - 1]|
    ensures Join("\n", lines)[|Join("\n", lines)| - |lines[|lines| - 1]|..] == lines[|lines| - 1]
  {
    if |lines| == 1 {
      assert lines + [""] == [lines[0], ""];
      assert Unlines(lines) == lines[0] + "\n" + Unlines([]);
    } else {
      JoinLines(lines[1..]);
      assert (lines + [""])[1..] == lines[1..] + [""];
      JoinTail(lines);
      assert Unlines(lines) == lines[0] + "\n" + Unlines(lines[1..]);
    }
  }

  lemma JoinTail(lines: seq<string>)
    requires |lines| > 1
    requires var rest := Join("\n", lines[1..]);
      var last := lines[|lines| - 1];
      |rest| >= |last| && rest[|rest| - |last|..] == last
    ensures var all := Join("\n", lines);
      var last := lines[|lines| - 1];
      |all| >= |last| && all[|all| - |last|..] == last
  {
    var rest := Join("\n", lines[1..]);
    var last := lines[|lines| - 1];
    var all := lines[0] + "\n" + rest;
    assert all[|all| - |last|..] == rest[|rest| - |last|..];
  }

  lemma ClosingEnds(shape: ProjectShape)
    ensures Closing(shape) != []
    ensures var last := Closing(shape)[|Closing(shape)| - 1];
      last != "" && !IsSpace(last[|last| - 1])
  {
    hide PrecommitSection, LayoutSection, Conventions, BeforeYouFinish, OtherFiles, IsSpace;
    LastWords(shape.existingManifests);
    var before := PrecommitSection(shape.hasPrecommit) + LayoutSection(shape.directories) + Conventions();
    LastOfConcat(before, BeforeYouFinish());
    if |shape.existingManifests| > 1 {
      LastOfConcat(before + BeforeYouFinish(), OtherFiles(shape.existingManifests));
    } else {
      assert Closing(shape) == before + BeforeYouFinish();
    }
  }

  lemma LastOfConcat(a: seq<string>, b: seq<string>)
    requires b != []
    ensures a + b != [] && (a + b)[|a + b| - 1] == b[|b| - 1]
  {
  }

  lemma LastWords(manifests: seq<string>)
    ensures |BeforeYouFinish()| == 6 && |OtherFiles(manifests)| == 6
    ensures var last := BeforeYouFinish()[5]; last != "" && !IsSpace(last[|last| - 1])
    ensures var last := OtherFiles(manifests)[5]; last != "" && !IsSpace(last[|last| - 1])
  {
    hide BeforeYouFinish, OtherFiles, IsSpace;
    SixLines(manifests);
    LastWord();
    LastOtherWord();
  }

  lemma SixLines(manifests: seq<string>)
    ensures |BeforeYouFinish()| == 6 && BeforeYouFinish()[5] == CouldReach()
    ensures |OtherFiles(manifests)| == 6 && OtherFiles(manifests)[5] == WillNotSeeTheOthers()
  {
    hide Quoted, Join, WillNotSeeTheOthers, CouldReach, WhereTheyDisagree, RunEveryCommand, AgentCheckReports,
      WhetherCommandsResolve;
  }

  lemma LastWord()
    ensures CouldReach() != "" && !IsSpace(CouldReach()[|CouldReach()| - 1])
  {
    assert CouldReach()[|CouldReach()| - 1] == '.';
  }

  lemma LastOtherWord()
    ensures WillNotSeeTheOthers() != "" && !IsSpace(WillNotSeeTheOthers()[|WillNotSeeTheOthers()| - 1])
  {
    assert WillNotSeeTheOthers()[|WillNotSeeTheOthers()| - 1] == '.';
  }

  /** The lines read back from a draft are the lines it was written from. */
  lemma DraftTextLines(u: Alphabet, shape: ProjectShape)
    requires AreLines(DraftLines(u, shape))
    ensures SplitLines(AgentsMd(u, shape)) == DraftLines(u, shape)
    ensures AgentsMd(u, shape) == Unlines(DraftLines(u, shape))
  {
    hide Header, WhatThisIs, SetupSection, ChecksSection, Closing, Join, TrimRight, Select, NoBreaks;
    var lines := DraftLines(u, shape);
    ClosingEnds(shape);
    JoinLines(lines);
    var last := lines[|lines| - 1];
    var joined := Join("\n", lines);
    assert joined[|joined| - 1] == last[|last| - 1];
    assert TrimRight(joined + "\n", IsSpace) == joined by { TrimRightNewline(joined); }
    SplitLinesUnlines(lines);
  }

  lemma TrimRightNewline(s: string)
    requires s != "" && !IsSpace(s[|s| - 1])
    ensures TrimRight(s + "\n", IsSpace) == s
  {
    assert (s + "\n")[..|s|] == s;
  }

  // ---------------------------------------------------------------- what a draft declares

  /** A block of commands, or nothing without commands. */
  function BlockOf(commands: seq<string>): seq<string> {
    if commands == [] then [] else ShellBlock(commands)
  }

  function SetupBlock(u: Alphabet, shape: ProjectShape): seq<string> { BlockOf(Select(u, shape.gates, true)) }

  function ChecksBlock(u: Alphabet, shape: ProjectShape): seq<string> { BlockOf(Select(u, shape.gates, false)) }

  /** The prose of a draft: before its blocks, between them, and after them. */
  function Lead(u: Alphabet, shape: ProjectShape): seq<string> {
    Header(shape.name) + WhatThisIs(shape.ecosystems) + (if SetupBlock(u, shape) == [] then [] else ["## Setup", ""])
  }

  function Between(u: Alphabet, shape: ProjectShape): seq<string> {
    (if SetupBlock(u, shape) == [] then [] else [""]) + ["## Checks that gate a pull request", ""]
      + (if ChecksBlock(u, shape) == [] then NoChecks() else ChecksIntro())
  }

  function Rest(u: Alphabet, shape: ProjectShape): seq<string> {
    (if ChecksBlock(u, shape) == [] then [] else ChecksCount(|Select(u, shape.gates, false)|)) + Closing(shape)
  }

  /** Whether the reader is inside a block after the setup steps, and after the checks. */
  predicate InsideAfterSetup(u: Alphabet, shape: ProjectShape) { StateAfter(SetupBlock(u, shape), false) }

  predicate InsideAfterChecks(u: Alphabet, shape: ProjectShape) {
    StateAfter(ChecksBlock(u, shape), InsideAfterSetup(u, shape))
  }

  /** The lines on which the blocks start and the prose after them. */
  function SetupLine(u: Alphabet, shape: ProjectShape): nat { |Lead(u, shape)| + 1 }
  function BetweenLine(u: Alphabet, shape: ProjectShape): nat { SetupLine(u, shape) + |SetupBlock(u, shape)| }
  function ChecksLine(u: Alphabet, shape: ProjectShape): nat { BetweenLine(u, shape) + |Between(u, shape)| }
  function RestLine(u: Alphabet, shape: ProjectShape): nat { ChecksLine(u, shape) + |ChecksBlock(u, shape)| }

  lemma DraftParts(u: Alphabet, shape: ProjectShape)
    ensures DraftLines(u, shape)
         == Lead(u, shape) + (SetupBlock(u, shape) + (Between(u, shape) + (ChecksBlock(u, shape) + Rest(u, shape))))
  {
    hide Header, WhatThisIs, ChecksIntro, ChecksCount, NoChecks, Closing, Select, BlockOf, SetupSection, ChecksSection;
    var setup, gates := Select(u, shape.gates, true), Select(u, shape.gates, false);
    SetupParts(setup);
    ChecksParts(gates);
    BlockIsEmpty(setup);
    BlockIsEmpty(gates);
    var title := if setup == [] then [] else ["## Setup", ""];
    var gap := if setup == [] then [] else [""];
    var heading := ["## Checks that gate a pull request", ""];
    var intro := if gates == [] then NoChecks() else ChecksIntro();
    var count := if gates == [] then [] else ChecksCount(|gates|);
    assert SetupSection(setup) == title + BlockOf(setup) + gap;
    assert ChecksSection(gates) == heading + (intro + BlockOf(gates) + count);
    Regroup(Header(shape.name) + WhatThisIs(shape.ecosystems), title, BlockOf(setup), gap, heading, intro, BlockOf(gates),
      count, Closing(shape));
  }

  lemma Regroup(top: seq<string>, title: seq<string>, first: seq<string>, gap: seq<string>, heading: seq<string>,
    intro: seq<string>, second: seq<string>, count: seq<string>, closing: seq<string>)
    ensures top + (title + first + gap) + (heading + (intro + second + count)) + closing
         == (top + title) + (first + ((gap + heading + intro) + (second + (count + closing))))
  {
  }

  lemma BlockIsEmpty(commands: seq<string>)
    ensures BlockOf(commands) == [] <==> commands == []
  {
  }

  lemma SetupParts(setup: seq<string>)
    ensures SetupSection(setup) == if setup == [] then [] else ["## Setup", ""] + BlockOf(setup) + [""]
  {
    hide ShellBlock;
  }

  lemma ChecksParts(gates: seq<string>)
    ensures ChecksSection(gates) == ["## Checks that gate a pull request", ""]
      + (if gates == [] then NoChecks() else ChecksIntro() + BlockOf(gates) + ChecksCount(|gates|))
  {
    hide ShellBlock, ChecksIntro, ChecksCount, NoChecks;
  }

  lemma PartsAreProse(u: Alphabet, shape: ProjectShape)
    requires NamesFit(shape)
    ensures AllProse(Lead(u, shape)) && AllProse(Between(u, shape)) && AllProse(Rest(u, shape))
  {
    hide Header, WhatThisIs, ChecksIntro, ChecksCount, NoChecks, Closing, Select, Prose;
    HeaderIsProse(shape.name);
    WhatThisIsIsProse(shape.ecosystems);
    ClosingIsProse(shape);
    ChecksProse(|Select(u, shape.gates, false)|);
    OpensPlainly("## Setup");
    BlankProse();
  }

  lemma ProseLines(lines: seq<string>)
    requires AllProse(lines)
    ensures AreLines(lines) && NoFences(lines)
  {
    hide NoBreaks, FenceLanguage;
    assert forall i | 0 <= i < |lines| :: Prose(lines[i]);
  }

  lemma {:induction false} SelectLines(u: Alphabet, commands: seq<string>, setup: bool)
    ensures AreLines(commands) ==> AreLines(Select(u, commands, setup))
    ensures NoFences(commands) ==> NoFences(Select(u, commands, setup))
  {
    hide IsSetup, FenceLanguage, NoBreaks;
    if commands != [] {
      SelectLines(u, commands[1..], setup);
    }
  }

  lemma BlockLines(commands: seq<string>)
    requires AreLines(commands)
    ensures AreLines(BlockOf(commands))
  {
    assert NoBreaks("```bash") && NoBreaks("```");
  }

  lemma DraftLinesFit(u: Alphabet, shape: ProjectShape)
    requires NamesFit(shape) && AreLines(shape.gates)
    ensures AreLines(DraftLines(u, shape))
  {
    hide DraftLines, Lead, Between, Rest, BlockOf, Select, NoBreaks, Prose, AllProse, NamesFit;
    PartsAreProse(u, shape);
    ProseLines(Lead(u, shape));
    ProseLines(Between(u, shape));
    ProseLines(Rest(u, shape));
    SelectLines(u, shape.gates, true);
    SelectLines(u, shape.gates, false);
    BlockLines(Select(u, shape.gates, true));
    BlockLines(Select(u, shape.gates, false));
    DraftParts(u, shape);
  }

  /** What the reader declares of a draft, whatever its commands: what it reads of the blocks, each from the
      state it is entered in, and the prose after a block that leaves the reader inside. */
  lemma DraftDeclares(u: Alphabet, shape: ProjectShape, manifest: string)
    requires NamesFit(shape) && AreLines(shape.gates)
    ensures ParseManifest(u, AgentsMd(u, shape), manifest)
         == ParseLines(u, SetupBlock(u, shape), false, manifest, SetupLine(u, shape))
          + ((if InsideAfterSetup(u, shape) then DeclareAll(u, Between(u, shape), manifest, BetweenLine(u, shape)) else [])
          + (ParseLines(u, ChecksBlock(u, shape), InsideAfterSetup(u, shape), manifest, ChecksLine(u, shape))
          + (if InsideAfterChecks(u, shape) then DeclareAll(u, Rest(u, shape), manifest, RestLine(u, shape)) else [])))
  {
    hide AgentsMd, DraftLines, NamesFit, AreLines, AllProse, Lead, Between, Rest, SetupBlock, ChecksBlock, NoFences,
      ParseLines, DeclareAll, StateAfter;
    DraftLinesFit(u, shape);
    DraftTextLines(u, shape);
    DraftParts(u, shape);
    PartsAreProse(u, shape);
    ProseLines(Lead(u, shape));
    ProseLines(Between(u, shape));
    ProseLines(Rest(u, shape));
    ReadParts(u, Lead(u, shape), SetupBlock(u, shape), Between(u, shape), ChecksBlock(u, shape), Rest(u, shape), manifest);
  }

  /** Two blocks in prose. */
  lemma ReadParts(u: Alphabet, lead: seq<string>, first: seq<string>, between: seq<string>, second: seq<string>,
    rest: seq<string>, manifest: string)
    requires NoFences(lead) && NoFences(between) && NoFences(rest)
    ensures var n := |lead| + 1;
      var inner := StateAfter(first, false);
      var outer := StateAfter(second, inner);
      var tail := if outer then DeclareAll(u, rest, manifest, n + |first| + |between| + |second|) else [];
      ParseLines(u, lead + (first + (between + (second + rest))), false, manifest, 1)
        == ParseLines(u, first, false, manifest, n)
         + ((if inner then DeclareAll(u, between, manifest, n + |first|) else [])
         + (ParseLines(u, second, inner, manifest, n + |first| + |between|) + tail))
  {
    hide NoFences, ParseLines, DeclareAll, StateAfter;
    var n := |lead| + 1;
    var inner := StateAfter(first, false);
    ReadProse(u, lead, first + (between + (second + rest)), false, manifest, 1);
    ReadBlockThenProse(u, first, between, second + rest, false, manifest, n);
    assert rest + [] == rest;
    ReadBlockThenProse(u, second, rest, [], inner, manifest, n + |first| + |between|);
    ReadNothing(u, StateAfter(second, inner), manifest, n + |first| + |between| + |second| + |rest|);
  }

  lemma ReadNothing(u: Alphabet, inBlock: bool, manifest: string, n: nat)
    ensures ParseLines(u, [], inBlock, manifest, n) == []
  {
  }

  lemma ReadProse(u: Alphabet, prose: seq<string>, tail: seq<string>, inBlock: bool, manifest: string, n: nat)
    requires NoFences(prose)
    ensures ParseLines(u, prose + tail, inBlock, manifest, n)
         == (if inBlock then DeclareAll(u, prose, manifest, n) else []) + ParseLines(u, tail, inBlock, manifest, n + |prose|)
  {
    hide NoFences, ParseLines, DeclareAll, StateAfter;
    ParseConcat(u, prose, tail, inBlock, manifest, n);
    ReadUnfenced(u, prose, inBlock, manifest, n);
  }

  lemma ReadBlockThenProse(u: Alphabet, block: seq<string>, prose: seq<string>, tail: seq<string>, inBlock: bool,
    manifest: string, n: nat)
    requires NoFences(prose)
    ensures var after := StateAfter(block, inBlock);
      ParseLines(u, block + (prose + tail), inBlock, manifest, n)
        == ParseLines(u, block, inBlock, manifest, n)
         + ((if after then DeclareAll(u, prose, manifest, n + |block|) else [])
         + ParseLines(u, tail, after, manifest, n + |block| + |prose|))
  {
    hide NoFences, ParseLines, DeclareAll, StateAfter;
    ParseConcat(u, block, prose + tail, inBlock, manifest, n);
    ReadProse(u, prose, tail, StateAfter(block, inBlock), manifest, n + |block|);
  }

  /** A block without a fence among its commands declares each of them as a line of its own. */
  lemma ReadPlainBlock(u: Alphabet, commands: seq<string>, manifest: string, n: nat)
    requires NoFences(commands)
    ensures ParseLines(u, BlockOf(commands), false, manifest, n) == DeclareAll(u, commands, manifest, n + 1)
    ensures Visible(BlockOf(commands), false) == commands && !StateAfter(BlockOf(commands), false)
  {
    hide NoFences, ShellBlock;
    if commands != [] {
      ReadShellBlock(u, commands, false, manifest, n);
      ReadUnfenced(u, commands, true, manifest, n + 1);
    }
  }

  /** The setup steps and the checks, each read as a command line of its own. */
  function PlainDeclarations(u: Alphabet, shape: ProjectShape, manifest: string): seq<DeclaredCommand> {
    hide Lead, SetupBlock, Between, ChecksBlock, Select, DeclareAll;
    DeclareAll(u, Select(u, shape.gates, true), manifest, SetupLine(u, shape) + 1)
      + DeclareAll(u, Select(u, shape.gates, false), manifest, ChecksLine(u, shape) + 1)
  }

  /** Without fences among the commands, exactly the setup steps and then the checks are declared, at their
      lines, and nothing of the prose. */
  lemma PlainDraftDeclares(u: Alphabet, shape: ProjectShape, manifest: string)
    requires NamesFit(shape) && AreLines(shape.gates) && NoFences(shape.gates)
    ensures ParseManifest(u, AgentsMd(u, shape), manifest) == PlainDeclarations(u, shape, manifest)
  {
    hide AgentsMd, NamesFit, AreLines, BlockOf, ParseManifest, ParseLines, DeclareAll, StateAfter, Visible, Between, Rest,
      Select, NoFences, SetupLine, BetweenLine, ChecksLine, RestLine;
    DraftDeclares(u, shape, manifest);
    SelectLines(u, shape.gates, true);
    SelectLines(u, shape.gates, false);
    ReadPlainBlock(u, Select(u, shape.gates, true), manifest, SetupLine(u, shape));
    ReadPlainBlock(u, Select(u, shape.gates, false), manifest, ChecksLine(u, shape));
  }
}
