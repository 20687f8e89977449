/** What the manifest reader (devrepro/agents/manifest.py) makes of a document of prose and fenced blocks:
    up to the first block of another language exactly the shell blocks' lines, after it exactly the prose. */
module FencedDocuments {
  import opened Strings
  import opened AgentManifest
  import opened CommandLaws
  import opened DraftWording
  import opened RoundTrip

  datatype Section = Prose(lines: seq<string>) | Block(language: string, lines: seq<string>)

  function SectionLines(s: Section): seq<string> {
    match s
    case Prose(lines) => lines
    case Block(language, lines) => ["```" + language] + lines + ["```"]
  }

  function DocumentLines(doc: seq<Section>): seq<string> {
    if doc == [] then [] else SectionLines(doc[0]) + DocumentLines(doc[1..])
  }

  predicate IsLanguage(language: string) {
    NoSpaces(language) && forall i | 0 <= i < |language| :: IsLanguageChar(language[i])
  }

  predicate IsSection(s: Section) {
    NoFences(s.lines) && (s.Block? ==> IsLanguage(s.language))
  }

  predicate AreSections(doc: seq<Section>) {
    forall i | 0 <= i < |doc| :: IsSection(doc[i])
  }

  predicate IsShell(s: Section) { s.Block? && LowerAscii(s.language) in SHELL_FENCES }

  /** A block of another language. */
  predicate IsOther(s: Section) { s.Block? && LowerAscii(s.language) !in SHELL_FENCES }

  /** What the documentation promises of a document: the lines of its shell blocks, each read as a command
      line, the document's first line having the given number. */
  function BlocksDeclare(u: Alphabet, doc: seq<Section>, manifest: string, n: nat): seq<DeclaredCommand> {
    if doc == [] then []
    else
      var here := if IsShell(doc[0]) then DeclareAll(u, doc[0].lines, manifest, n + 1) else [];
      here + BlocksDeclare(u, doc[1..], manifest, n + |SectionLines(doc[0])|)
  }

  /** The lines of its prose read so. */
  function ProseDeclares(u: Alphabet, doc: seq<Section>, manifest: string, n: nat): seq<DeclaredCommand> {
    if doc == [] then []
    else
      var here := if doc[0].Prose? then DeclareAll(u, doc[0].lines, manifest, n) else [];
      here + ProseDeclares(u, doc[1..], manifest, n + |SectionLines(doc[0])|)
  }

  /** What the reader makes of it: the shell blocks up to the first block of another language, and the prose
      after that one. */
  function Reading(u: Alphabet, doc: seq<Section>, manifest: string, n: nat): seq<DeclaredCommand> {
    if doc == [] then []
    else
      var next := n + |SectionLines(doc[0])|;
      if IsOther(doc[0]) then ProseDeclares(u, doc[1..], manifest, next)
      else
        var here := if IsShell(doc[0]) then DeclareAll(u, doc[0].lines, manifest, n + 1) else [];
        here + Reading(u, doc[1..], manifest, next)
  }

  lemma FenceLine(language: string)
    requires IsLanguage(language)
    ensures FenceLanguage("```" + language) == Some(language)
    ensures BlockAfter(false, "```" + language) <==> LowerAscii(language) in SHELL_FENCES
  {
    hide FenceLanguage, LowerAscii;
    FenceOf(language);
  }

  /** One section read from outside a block: its lines count if it is a shell block, and it leaves the
      reader inside if it is a block of another language. */
  lemma ReadsFromOutside(u: Alphabet, s: Section, rest: seq<string>, manifest: string, n: nat)
    requires IsSection(s)
    ensures var next := n + |SectionLines(s)|;
      ParseLines(u, SectionLines(s) + rest, false, manifest, n)
        == (if IsShell(s) then DeclareAll(u, s.lines, manifest, n + 1) else [])
         + ParseLines(u, rest, IsOther(s), manifest, next)
  {
    hide FenceLanguage, BlockAfter, NoFences, ParseLines, DeclareAll, StateAfter, Visible, IsLanguage;
    match s
    case Prose(lines) => ReadProse(u, lines, rest, false, manifest, n);
    case Block(language, body) =>
      var fence := "```" + language;
      FenceLine(language);
      ReadFenced(u, fence, body, false, manifest, n);
      ReadUnfenced(u, body, BlockAfter(false, fence), manifest, n + 1);
      ParseConcat(u, [fence] + body + ["```"], rest, false, manifest, n);
  }

  /** And from inside one: its lines count if it is prose, and the reader stays inside. */
  lemma ReadsFromInside(u: Alphabet, s: Section, rest: seq<string>, manifest: string, n: nat)
    requires IsSection(s)
    ensures var next := n + |SectionLines(s)|;
      ParseLines(u, SectionLines(s) + rest, true, manifest, n)
        == (if s.Prose? then DeclareAll(u, s.lines, manifest, n) else []) + ParseLines(u, rest, true, manifest, next)
  {
    hide FenceLanguage, BlockAfter, NoFences, ParseLines, DeclareAll, StateAfter, Visible, IsLanguage;
    match s
    case Prose(lines) => ReadProse(u, lines, rest, true, manifest, n);
    case Block(language, body) =>
      var fence := "```" + language;
      FenceLine(language);
      ToggleCloses(fence);
      ReadFenced(u, fence, body, true, manifest, n);
      ReadUnfenced(u, body, false, manifest, n + 1);
      ParseConcat(u, [fence] + body + ["```"], rest, true, manifest, n);
  }

  /** The closing fence of a block of another language opens a shell block: everything up to the next
      fence is read as commands. */
  lemma OtherBlockTurnsInsideOut(u: Alphabet, language: string, body: seq<string>, rest: seq<string>,
    manifest: string, n: nat)
    requires IsLanguage(language) && LowerAscii(language) !in SHELL_FENCES && NoFences(body)
    ensures ParseLines(u, ["```" + language] + body + ["```"] + rest, false, manifest, n)
         == ParseLines(u, rest, true, manifest, n + |body| + 2)
  {
    hide ParseLines, NoFences, IsLanguage, LowerAscii, SHELL_FENCES;
    ReadsFromOutside(u, Block(language, body), rest, manifest, n);
  }

  lemma {:induction false} InsideReadsProse(u: Alphabet, doc: seq<Section>, manifest: string, n: nat)
    requires AreSections(doc)
    ensures ParseLines(u, DocumentLines(doc), true, manifest, n) == ProseDeclares(u, doc, manifest, n)
  {
    hide IsSection, SectionLines, DeclareAll, DeclareLine, FenceLanguage, BlockAfter;
    if doc != [] {
      assert IsSection(doc[0]);
      ReadsFromInside(u, doc[0], DocumentLines(doc[1..]), manifest, n);
      InsideReadsProse(u, doc[1..], manifest, n + |SectionLines(doc[0])|);
    }
  }

  lemma {:induction false} OutsideReads(u: Alphabet, doc: seq<Section>, manifest: string, n: nat)
    requires AreSections(doc)
    ensures ParseLines(u, DocumentLines(doc), false, manifest, n) == Reading(u, doc, manifest, n)
  {
    hide IsSection, SectionLines, DeclareAll, DeclareLine, FenceLanguage, BlockAfter, LowerAscii;
    if doc != [] {
      var next, rest := n + |SectionLines(doc[0])|, DocumentLines(doc[1..]);
      assert IsSection(doc[0]);
      ReadsFromOutside(u, doc[0], rest, manifest, n);
      if IsOther(doc[0]) {
        InsideReadsProse(u, doc[1..], manifest, next);
        assert [] + ParseLines(u, rest, true, manifest, next) == ParseLines(u, rest, true, manifest, next);
      } else {
        OutsideReads(u, doc[1..], manifest, next);
      }
    }
  }

  /** Of every document of prose and blocks the reader declares the shell blocks' lines up to the first block
      of another language, and from there on the prose and nothing else. */
  lemma ReadsDocument(u: Alphabet, doc: seq<Section>, manifest: string)
    requires AreSections(doc) && AreLines(DocumentLines(doc))
    ensures ParseManifest(u, Unlines(DocumentLines(doc)), manifest) == Reading(u, doc, manifest, 1)
  {
    hide AreSections, AreLines, DocumentLines, Reading, ParseLines;
    SplitLinesUnlines(DocumentLines(doc));
    OutsideReads(u, doc, manifest, 1);
  }

  // ---------------------------------------------------------------- when that is what is promised

  /** No command on the line has a program. */
  predicate IsSilent(u: Alphabet, line: string) {
    forall k | 0 <= k < |SplitCommandLine(line)| :: ProgramOf(u, SplitCommandLine(line)[k]) == ""
  }

  predicate AreSilent(u: Alphabet, lines: seq<string>) {
    forall i | 0 <= i < |lines| :: IsSilent(u, lines[i])
  }

  /** Neither the prose nor a shell block has a line that declares something. */
  predicate IsQuiet(u: Alphabet, doc: seq<Section>) {
    forall i | 0 <= i < |doc| :: doc[i].Prose? || IsShell(doc[i]) ==> AreSilent(u, doc[i].lines)
  }

  /** All is quiet after the first block of another language. */
  predicate IsQuietAfterOther(u: Alphabet, doc: seq<Section>) {
    doc == [] || (if IsOther(doc[0]) then IsQuiet(u, doc[1..]) else IsQuietAfterOther(u, doc[1..]))
  }

  lemma {:induction false} PartsSilent(u: Alphabet, parts: seq<string>, cwd: string, manifest: string, n: nat)
    ensures DeclareParts(u, parts, cwd, manifest, n) == [] <==> forall k | 0 <= k < |parts| :: ProgramOf(u, parts[k]) == ""
  {
    hide ProgramOf, ApplyCd;
    if parts != [] {
      assert forall k | 0 < k < |parts| :: parts[k] == parts[1..][k - 1];
      assert forall k | 0 <= k < |parts| - 1 :: parts[1..][k] == parts[k + 1];
      if ProgramOf(u, parts[0]) == "" { PartsSilent(u, parts[1..], cwd, manifest, n); }
    }
  }

  lemma {:induction false} PartsLine(u: Alphabet, parts: seq<string>, cwd: string, manifest: string, n: nat)
    ensures forall k | 0 <= k < |DeclareParts(u, parts, cwd, manifest, n)| :: DeclareParts(u, parts, cwd, manifest, n)[k].line == n
  {
    hide ProgramOf, ApplyCd;
    if parts != [] {
      var program := ProgramOf(u, parts[0]);
      PartsLine(u, parts[1..], if program == "cd" then ApplyCd(cwd, parts[0]) else cwd, manifest, n);
    }
  }

  /** Every command is declared on a line of the given range. */
  predicate IsWithin(declared: seq<DeclaredCommand>, from: nat, to: nat) {
    forall k | 0 <= k < |declared| :: from <= declared[k].line < to
  }

  predicate IsFrom(declared: seq<DeclaredCommand>, from: nat) {
    forall k | 0 <= k < |declared| :: from <= declared[k].line
  }

  lemma {:induction false} LinesDeclare(u: Alphabet, lines: seq<string>, manifest: string, n: nat)
    ensures DeclareAll(u, lines, manifest, n) == [] <==> AreSilent(u, lines)
    ensures IsWithin(DeclareAll(u, lines, manifest, n), n, n + |lines|)
  {
    hide IsSilent, DeclareLine;
    if lines != [] {
      LinesDeclare(u, lines[1..], manifest, n + 1);
      LineDeclares(u, lines[0], manifest, n);
      assert forall i | 0 < i < |lines| :: lines[i] == lines[1..][i - 1];
      assert forall i | 0 <= i < |lines| - 1 :: lines[1..][i] == lines[i + 1];
    }
  }

  lemma LineDeclares(u: Alphabet, line: string, manifest: string, n: nat)
    ensures DeclareLine(u, line, manifest, n) == [] <==> IsSilent(u, line)
    ensures IsWithin(DeclareLine(u, line, manifest, n), n, n + 1)
  {
    hide SplitCommandLine, ProgramOf, DeclareParts;
    PartsSilent(u, SplitCommandLine(line), ".", manifest, n);
    PartsLine(u, SplitCommandLine(line), ".", manifest, n);
  }

  lemma NothingIsFrom(n: nat)
    ensures IsFrom([], n)
  {
  }

  lemma FromConcat(a: seq<DeclaredCommand>, b: seq<DeclaredCommand>, n: nat, next: nat)
    requires n <= next && IsFrom(a, n) && IsFrom(b, next)
    ensures IsFrom(a + b, n)
  {
  }

  lemma WithinIsFrom(a: seq<DeclaredCommand>, from: nat, to: nat, n: nat)
    requires n <= from && IsWithin(a, from, to)
    ensures IsFrom(a, n)
  {
  }

  /** The two ways of reading declare on lines from the first on. */
  lemma {:induction false} DeclaredFrom(u: Alphabet, doc: seq<Section>, manifest: string, n: nat)
    ensures IsFrom(ProseDeclares(u, doc, manifest, n), n) && IsFrom(BlocksDeclare(u, doc, manifest, n), n)
  {
    hide DeclareAll, AreSilent, IsShell, SectionLines, IsFrom, IsWithin;
    if doc == [] {
      assert IsFrom([], n) by { NothingIsFrom(n); }
    } else {
      var s, next := doc[0], n + |SectionLines(doc[0])|;
      DeclaredFrom(u, doc[1..], manifest, next);
      LinesDeclare(u, s.lines, manifest, n);
      LinesDeclare(u, s.lines, manifest, n + 1);
      WithinIsFrom(DeclareAll(u, s.lines, manifest, n), n, n + |s.lines|, n);
      WithinIsFrom(DeclareAll(u, s.lines, manifest, n + 1), n + 1, n + 1 + |s.lines|, n);
      NothingIsFrom(n);
      FromConcat(if s.Prose? then DeclareAll(u, s.lines, manifest, n) else [], ProseDeclares(u, doc[1..], manifest, next), n, next);
      FromConcat(if IsShell(s) then DeclareAll(u, s.lines, manifest, n + 1) else [], BlocksDeclare(u, doc[1..], manifest, next), n, next);
    }
  }

  /** Commands before a line and commands from it on are not the same. */
  lemma BeforeIsNotAfter(early: seq<DeclaredCommand>, a: seq<DeclaredCommand>, late: seq<DeclaredCommand>, from: nat, to: nat)
    requires IsWithin(early, from, to) && IsFrom(late, to)
    ensures early + a == late ==> early == [] && a == late
  {
    if early == [] {
      assert early + a == a;
    } else if late != [] {
      assert (early + a)[0].line == early[0].line < to <= late[0].line;
    }
  }

  /** Prose and blocks stand on different lines, so they declare the same only by declaring nothing. */
  lemma {:induction false} ApartUnlessQuiet(u: Alphabet, doc: seq<Section>, manifest: string, n: nat)
    ensures ProseDeclares(u, doc, manifest, n) == BlocksDeclare(u, doc, manifest, n) <==> IsQuiet(u, doc)
    ensures IsQuiet(u, doc) ==> BlocksDeclare(u, doc, manifest, n) == []
  {
    hide DeclareAll, AreSilent, IsShell, IsWithin, IsFrom, IsQuiet, SectionLines;
    if doc == [] {
      assert IsQuiet(u, []) by { NothingIsQuiet(u); }
    } else {
      var s, next := doc[0], n + |SectionLines(doc[0])|;
      var prose, blocks := ProseDeclares(u, doc[1..], manifest, next), BlocksDeclare(u, doc[1..], manifest, next);
      ApartUnlessQuiet(u, doc[1..], manifest, next);
      DeclaredFrom(u, doc[1..], manifest, next);
      QuietCons(u, doc);
      SectionLength(s);
      assert [] + blocks == blocks && [] + prose == prose;
      if s.Prose? {
        LinesDeclare(u, s.lines, manifest, n);
        ApartStep(DeclareAll(u, s.lines, manifest, n), prose, blocks, n, next);
      } else if IsShell(s) {
        LinesDeclare(u, s.lines, manifest, n + 1);
        WithinWider(DeclareAll(u, s.lines, manifest, n + 1), n + 1, n + 1 + |s.lines|, next);
        ApartStep(DeclareAll(u, s.lines, manifest, n + 1), blocks, prose, n + 1, next);
      }
    }
  }

  lemma SectionLength(s: Section)
    ensures |SectionLines(s)| == if s.Prose? then |s.lines| else |s.lines| + 2
    ensures s.Prose? ==> !IsShell(s)
  {
  }

  /** Early commands make two lists of late ones equal only when there are none of them. */
  lemma ApartStep(early: seq<DeclaredCommand>, a: seq<DeclaredCommand>, b: seq<DeclaredCommand>, from: nat, to: nat)
    requires IsWithin(early, from, to) && IsFrom(b, to)
    ensures early + a == b <==> early == [] && a == b
  {
    hide IsWithin, IsFrom;
    assert [] + a == a;
    BeforeIsNotAfter(early, a, b, from, to);
  }

  lemma NothingIsQuiet(u: Alphabet)
    ensures IsQuiet(u, [])
  {
  }

  lemma WithinWider(declared: seq<DeclaredCommand>, from: nat, to: nat, wider: nat)
    requires IsWithin(declared, from, to) && to <= wider
    ensures IsWithin(declared, from, wider)
  {
  }

  lemma QuietCons(u: Alphabet, doc: seq<Section>)
    requires doc != []
    ensures IsQuiet(u, doc)
      <==> (doc[0].Prose? || IsShell(doc[0]) ==> AreSilent(u, doc[0].lines)) && IsQuiet(u, doc[1..])
  {
    hide AreSilent, IsShell;
    assert forall i | 0 < i < |doc| :: doc[i] == doc[1..][i - 1];
    assert forall i | 0 <= i < |doc| - 1 :: doc[1..][i] == doc[i + 1];
  }

  lemma {:induction false} ReadingIsPromised(u: Alphabet, doc: seq<Section>, manifest: string, n: nat)
    ensures Reading(u, doc, manifest, n) == BlocksDeclare(u, doc, manifest, n) <==> IsQuietAfterOther(u, doc)
  {
    hide DeclareAll, IsQuiet, LowerAscii, SHELL_FENCES, SectionLines, ProseDeclares;
    if doc != [] {
      var next := n + |SectionLines(doc[0])|;
      var blocks := BlocksDeclare(u, doc[1..], manifest, next);
      if IsOther(doc[0]) {
        ApartUnlessQuiet(u, doc[1..], manifest, next);
        assert [] + blocks == blocks;
      } else {
        ReadingIsPromised(u, doc[1..], manifest, next);
        var here := if IsShell(doc[0]) then DeclareAll(u, doc[0].lines, manifest, n + 1) else [];
        var rest := Reading(u, doc[1..], manifest, next);
        assert (here + rest)[|here|..] == rest && (here + blocks)[|here|..] == blocks;
      }
    }
  }

  /** The reader keeps the promise, declaring the lines of the shell blocks and nothing else, exactly when
      after the first block of another language no line of prose or of a shell block declares anything. */
  lemma PromiseKeptExactly(u: Alphabet, doc: seq<Section>, manifest: string)
    requires AreSections(doc) && AreLines(DocumentLines(doc))
    ensures ParseManifest(u, Unlines(DocumentLines(doc)), manifest) == BlocksDeclare(u, doc, manifest, 1)
      <==> IsQuietAfterOther(u, doc)
  {
    hide AreSections, AreLines, DocumentLines, Reading, BlocksDeclare, ParseManifest, IsQuietAfterOther;
    ReadsDocument(u, doc, manifest);
    ReadingIsPromised(u, doc, manifest, 1);
  }

  /** No block is of another language. */
  predicate AreProseAndShell(doc: seq<Section>) {
    forall i | 0 <= i < |doc| :: !IsOther(doc[i])
  }

  lemma {:induction false} ShellOnlyIsQuiet(u: Alphabet, doc: seq<Section>)
    requires AreProseAndShell(doc)
    ensures IsQuietAfterOther(u, doc)
  {
    hide IsOther, IsQuiet;
    if doc != [] { ShellOnlyIsQuiet(u, doc[1..]); }
  }

  /** So it is kept by every document whose blocks are all shell blocks. */
  lemma ReadsShellBlocks(u: Alphabet, doc: seq<Section>, manifest: string)
    requires AreSections(doc) && AreLines(DocumentLines(doc)) && AreProseAndShell(doc)
    ensures ParseManifest(u, Unlines(DocumentLines(doc)), manifest) == BlocksDeclare(u, doc, manifest, 1)
  {
    hide AreSections, AreLines, AreProseAndShell, DocumentLines, BlocksDeclare, ParseManifest, IsQuietAfterOther;
    ShellOnlyIsQuiet(u, doc);
    PromiseKeptExactly(u, doc, manifest);
  }

  // ---------------------------------------------------------------- a document that is misread

  lemma LetterDeclares(u: Alphabet, line: string, manifest: string, n: nat)
    requires line == "x" || line == "y"
    ensures DeclareAll(u, [line], manifest, n) == [DeclaredCommand(line, line, manifest, n, ".")]
  {
    hide SplitCommandLine, ProgramOf, ApplyCd;
    LetterSplits(line);
    LetterProgram(u, line);
    assert [line][1..] == [];
    assert DeclareAll(u, [], manifest, n + 1) == [];
    assert DeclareLine(u, line, manifest, n) == DeclareParts(u, [line], ".", manifest, n);
    assert DeclareParts(u, [], ".", manifest, n) == [];
  }

  lemma LetterSplits(line: string)
    requires line == "x" || line == "y"
    ensures SplitCommandLine(line) == [line]
  {
    hide SplitCommandLine, ReadBack;
    assert IsPiece(line) && IsStable(line) by { LetterIsStable(line); }
    StableReadsBack(line);
    PieceReread(line);
  }

  lemma LetterIsStable(line: string)
    requires line == "x" || line == "y"
    ensures IsPiece(line) && IsStable(line)
  {
    hide HasPrompt;
    NoPromptOnWord(line);
  }

  lemma LetterProgram(u: Alphabet, line: string)
    requires line == "x" || line == "y"
    ensures ProgramOf(u, line) == line
  {
    hide Words, IsAssignment, StripBy;
    WordsOne(line);
    OneCharIsNoAssignment(u, line);
    assert !IsQuote(line[0]);
    assert StripBy(line, IsQuote) == line;
  }

  lemma OneCharIsNoAssignment(u: Alphabet, token: string)
    requires |token| == 1
    ensures !IsAssignment(u, token)
  {
  }

  function MisreadDocument(): seq<Section> {
    [Block("json", ["{}"]), Prose(["y"]), Block("bash", ["x"])]
  }

  lemma MisreadIsDocument()
    ensures AreSections(MisreadDocument())
    ensures DocumentLines(MisreadDocument()) == ["```json", "{}", "```", "y", "```bash", "x", "```"]
    ensures AreLines(DocumentLines(MisreadDocument()))
  {
    hide FenceLanguage;
    var doc := MisreadDocument();
    NoFenceIn("{}");
    NoFenceIn("y");
    NoFenceIn("x");
    assert doc[1..] == [doc[1], doc[2]] && doc[1..][1..] == [doc[2]] && doc[1..][1..][1..] == [];
    assert "```" + "json" == "```json" && "```" + "bash" == "```bash";
    assert [doc[2]][1..] == [] && DocumentLines([]) == [];
    assert SectionLines(doc[2]) == ["```bash", "x", "```"];
    assert SectionLines(doc[0]) == ["```json", "{}", "```"];
    assert DocumentLines([doc[2]]) == ["```bash", "x", "```"];
    assert DocumentLines([doc[1], doc[2]]) == ["y", "```bash", "x", "```"];
    LinesOfIt();
  }

  lemma LinesOfIt()
    ensures AreLines(["```json", "{}", "```", "y", "```bash", "x", "```"])
  {
  }

  lemma NoFenceIn(line: string)
    requires line == "{}" || line == "x" || line == "y"
    ensures FenceLanguage(line).None?
  {
    NotFence(line, 0);
  }

  /** A `json` block, a line of prose and a shell block: the prose is declared and the shell block is not. */
  lemma ProseAfterJsonIsDeclared(u: Alphabet, manifest: string)
    ensures var text := Unlines(["```json", "{}", "```", "y", "```bash", "x", "```"]);
      ParseManifest(u, text, manifest) == [DeclaredCommand("y", "y", manifest, 4, ".")]
    ensures BlocksDeclare(u, MisreadDocument(), manifest, 1) == [DeclaredCommand("x", "x", manifest, 6, ".")]
  {
    hide ParseManifest, AreSections, DocumentLines, AreLines, Unlines, Reading, BlocksDeclare, MisreadDocument;
    MisreadIsDocument();
    ReadsDocument(u, MisreadDocument(), manifest);
    MisreadReading(u, manifest);
    MisreadPromise(u, manifest);
  }

  lemma MisreadTails()
    ensures var doc := MisreadDocument(); doc[1..] == [doc[1], doc[2]] && doc[1..][1..] == [doc[2]] && [doc[2]][1..] == []
    ensures var doc := MisreadDocument(); |SectionLines(doc[0])| == 3 && |SectionLines(doc[1])| == 1
  {
  }

  lemma MisreadReading(u: Alphabet, manifest: string)
    ensures Reading(u, MisreadDocument(), manifest, 1) == [DeclaredCommand("y", "y", manifest, 4, ".")]
  {
    hide DeclareAll, IsShell, IsOther, SectionLines;
    var doc := MisreadDocument();
    LetterDeclares(u, "y", manifest, 4);
    MisreadKinds();
    MisreadTails();
    assert ProseDeclares(u, [], manifest, 5 + |SectionLines(doc[2])|) == [];
    assert ProseDeclares(u, [doc[2]], manifest, 5) == [];
    assert ProseDeclares(u, [doc[1], doc[2]], manifest, 4) == [DeclaredCommand("y", "y", manifest, 4, ".")];
  }

  lemma MisreadPromise(u: Alphabet, manifest: string)
    ensures BlocksDeclare(u, MisreadDocument(), manifest, 1) == [DeclaredCommand("x", "x", manifest, 6, ".")]
  {
    hide DeclareAll, IsShell, IsOther, SectionLines;
    var doc := MisreadDocument();
    LetterDeclares(u, "x", manifest, 6);
    MisreadKinds();
    MisreadTails();
    assert !IsShell(doc[1]) by { ProseIsNoShell(doc[1]); }
    assert BlocksDeclare(u, [], manifest, 5 + |SectionLines(doc[2])|) == [];
    assert BlocksDeclare(u, [doc[2]], manifest, 5) == [DeclaredCommand("x", "x", manifest, 6, ".")];
    assert BlocksDeclare(u, [doc[1], doc[2]], manifest, 4) == [DeclaredCommand("x", "x", manifest, 6, ".")];
  }

  lemma ProseIsNoShell(s: Section)
    requires s.Prose?
    ensures !IsShell(s)
  {
  }

  lemma MisreadKinds()
    ensures var doc := MisreadDocument(); IsOther(doc[0]) && !IsShell(doc[0]) && IsShell(doc[2]) && !IsOther(doc[2])
  {
    assert LowerAscii("json") == "json" && LowerAscii("bash") == "bash";
  }
}
