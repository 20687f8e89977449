/** Reading agent manifests and CI workflows (devrepro/agents/manifest.py): the command
    splitter, the shell-fence reader, `cd` tracking, the workflow reader, and the key two
    spellings of a command are compared by. */
module AgentManifest {
  import opened Strings

  /** The two Unicode tables the code consults through `str.isalnum` and `str.lower`. */
  datatype Alphabet = Alphabet(alnum: char -> bool, lower: string -> string) {
    /** On ASCII the letters and digits, and only those, are alphanumeric. */
    ghost predicate Sane() {
      forall c: char | c < '\U{80}' :: alnum(c) <==> IsAsciiLetter(c) || IsDigit(c)
    }
  }

  datatype DeclaredCommand =
    DeclaredCommand(raw: string, program: string, manifest: string, line: nat, cwd: string)

  const SHELL_FENCES := {"bash", "sh", "shell", "zsh", "console", "shell-session", "terminal", ""}

  const SHELL_KEYWORDS := {
    "if", "then", "else", "elif", "fi", "for", "while", "do", "done", "case", "esac", "function",
    "return", "export", "source", "set", "unset", "alias", "local", "read", "shift", "trap", "eval",
    "exec", "continue", "break", "wait", "declare", "typeset"
  }

  const SHELL_BUILTINS := {"cd", "echo", "true", "false", "test", "pwd", "exit", ":"}

  const PLUMBING := {
    "awk", "basename", "cat", "chmod", "cp", "curl", "cut", "date", "diff", "dirname", "du", "env",
    "find", "grep", "head", "id", "jq", "ln", "ls", "mkdir", "mv", "printf", "rm", "sed", "seq",
    "sha256sum", "sleep", "sort", "tail", "tar", "tee", "touch", "tr", "uname", "uniq", "wc",
    "which", "xargs", "zip", "unzip"
  }

  // ---------------------------------------------------------------- fences and prompts

  predicate IsLanguageChar(c: char) { IsAsciiLetter(c) || IsDigit(c) || c == '_' || c == '-' }

  /** The language of a fence line, or None for a line that is no fence. */
  function FenceLanguage(line: string): Option<string> {
    var s := Strip(line);
    if StartsWith(s, "```") && (forall i | 3 <= i < |s| :: IsLanguageChar(s[i])) then Some(s[3..])
    else None
  }

  /** The block state after a fence: the language counts only when no block is open. */
  function Toggle(inBlock: bool, language: string): bool {
    !inBlock && LowerAscii(language) in SHELL_FENCES
  }

  /** What follows a `$`, `>` or `# $` marker at the start of an unindented line; "" without one. */
  function AfterMarker(l: string): (r: string)
    ensures |r| <= |l| && r == l[|l| - |r|..]
  {
    if l == "" then ""
    else if l[0] == '$' || l[0] == '>' then l[1..]
    else if l[0] == '#' then
      var r := TrimLeft(l[1..], IsSpace);
      if r != "" && r[0] == '$' then r[1..] else ""
    else ""
  }

  /** A marker is a prompt when whitespace follows it. */
  predicate HasPrompt(line: string) {
    var rest := AfterMarker(TrimLeft(line, IsSpace));
    rest != "" && IsSpace(rest[0])
  }

  function DropPrompt(line: string): (r: string)
    ensures |r| <= |line| && r == line[|line| - |r|..]
  {
    if HasPrompt(line) then TrimLeft(AfterMarker(TrimLeft(line, IsSpace)), IsSpace) else line
  }

  // ---------------------------------------------------------------- one line into commands

  /** The length of the shell separator the string starts with, 0 for none. */
  function SeparatorLen(s: string): nat {
    if StartsWith(s, "&&") || StartsWith(s, "||") then 2
    else if StartsWith(s, ";") then 1
    else 0
  }

  function SplitShell(s: string): (parts: seq<string>)
    ensures |parts| >= 1
    ensures |parts[0]| <= |s| && parts[0] == s[..|parts[0]|]
    decreases |s|
  {
    if s == "" then [""]
    else
      var n := SeparatorLen(s);
      if n > 0 then [""] + SplitShell(s[n..])
      else
        var rest := SplitShell(s[1..]);
        [[s[0]] + rest[0]] + rest[1..]
  }

  /** Everything before the first ` #`. */
  function DropComment(s: string): (r: string)
    ensures |r| <= |s| && r == s[..|r|]
  {
    if s == "" || StartsWith(s, " #") then "" else [s[0]] + DropComment(s[1..])
  }

  function StripNonempty(parts: seq<string>): seq<string> {
    if parts == [] then []
    else (if Strip(parts[0]) != "" then [Strip(parts[0])] else []) + StripNonempty(parts[1..])
  }

  /** A command line without its trailing continuation and comment. */
  function CommandText(stripped: string): string {
    var bare := Strip(TrimRight(stripped, IsBackslash));
    if Contains(bare, " #") then Strip(DropComment(bare)) else bare
  }

  function SplitCommandLine(line: string): seq<string> {
    var stripped := Strip(DropPrompt(line));
    if stripped == "" || stripped[0] == '#' then []
    else StripNonempty(SplitShell(CommandText(stripped)))
  }

  // ---------------------------------------------------------------- programs and directories

  predicate IsWordChar(u: Alphabet, c: char) { u.alnum(c) || c == '_' }

  /** A leading `NAME=value` assignment. */
  predicate IsAssignment(u: Alphabet, token: string) {
    exists n: nat | 0 < n < |token| ::
      && token[n] == '='
      && (IsAsciiLetter(token[0]) || token[0] == '_')
      && forall i | 1 <= i < n :: IsWordChar(u, token[i])
  }

  function FirstProgram(u: Alphabet, tokens: seq<string>): string {
    if tokens == [] then ""
    else if IsAssignment(u, tokens[0]) then FirstProgram(u, tokens[1..])
    else StripBy(tokens[0], IsQuote)
  }

  function ProgramOf(u: Alphabet, command: string): string {
    FirstProgram(u, Words(command))
  }

  /** Directory segments of a `cd` target applied to a stack of segments. */
  function Walk(stack: seq<string>, segments: seq<string>): seq<string>
    decreases |segments|
  {
    if segments == [] then stack
    else Walk(Enter(stack, segments[0]), segments[1..])
  }

  function Enter(stack: seq<string>, segment: string): seq<string> {
    if segment == "" || segment == "." then stack
    else if segment == ".." then (if stack == [] then [] else stack[..|stack| - 1])
    else stack + [segment]
  }

  /** A directory relative to the root, "." for the root itself, as a stack and back. */
  function StackOf(cwd: string): seq<string> {
    if cwd == "." then [] else SplitOn(cwd, "/")
  }

  function DirectoryOf(stack: seq<string>): string {
    var joined := Join("/", stack);
    if joined == "" then "." else joined
  }

  /** A target that leaves the repository: absolute, in a home directory or on a drive. */
  predicate LeavesRepository(target: string) {
    StartsWith(target, "/") || StartsWith(target, "~") || (|target| > 1 && target[1] == ':')
  }

  function ChangeDirectory(cwd: string, target: string): string {
    if LeavesRepository(target) then "."
    else DirectoryOf(Walk(StackOf(cwd), SplitOn(ForwardSlashes(target), "/")))
  }

  function ApplyCd(cwd: string, command: string): string {
    var tokens := Words(command);
    if |tokens| < 2 then "." else ChangeDirectory(cwd, StripBy(tokens[1], IsQuote))
  }

  // ---------------------------------------------------------------- the manifest reader

  /** The commands of one line; each `cd` moves those after it. */
  function DeclareParts(u: Alphabet, parts: seq<string>, cwd: string, manifest: string, line: nat)
    : seq<DeclaredCommand>
  {
    if parts == [] then []
    else
      var program := ProgramOf(u, parts[0]);
      if program == "" then DeclareParts(u, parts[1..], cwd, manifest, line)
      else
        var next := if program == "cd" then ApplyCd(cwd, parts[0]) else cwd;
        [DeclaredCommand(parts[0], program, manifest, line, cwd)]
          + DeclareParts(u, parts[1..], next, manifest, line)
  }

  function DeclareLine(u: Alphabet, line: string, manifest: string, number: nat): seq<DeclaredCommand> {
    DeclareParts(u, SplitCommandLine(line), ".", manifest, number)
  }

  function BlockAfter(inBlock: bool, line: string): bool {
    match FenceLanguage(line)
    case Some(language) => Toggle(inBlock, language)
    case None => inBlock
  }

  /** What the reader declares from the given lines on, the first having the given number. */
  function ParseLines(u: Alphabet, lines: seq<string>, inBlock: bool, manifest: string, number: nat)
    : seq<DeclaredCommand>
  {
    if lines == [] then []
    else
      (if FenceLanguage(lines[0]).None? && inBlock then DeclareLine(u, lines[0], manifest, number) else [])
        + ParseLines(u, lines[1..], BlockAfter(inBlock, lines[0]), manifest, number + 1)
  }

  function ParseManifest(u: Alphabet, text: string, manifest: string): seq<DeclaredCommand> {
    ParseLines(u, SplitLines(text), false, manifest, 1)
  }

  method ApplyCdLoop(cwd: string, command: string) returns (r: string)
    ensures r == ApplyCd(cwd, command)
  {
    hide Words, StripBy, LeavesRepository, Join, SplitOn, ForwardSlashes;
    var tokens := Words(command);
    if |tokens| < 2 {
      return ".";
    }
    var target := StripBy(tokens[1], IsQuote);
    if LeavesRepository(target) {
      return ".";
    }
    var parts := if cwd == "." then [] else SplitOn(cwd, "/");
    var segments := SplitOn(ForwardSlashes(target), "/");
    for i := 0 to |segments|
      invariant Walk(parts, segments[i..]) == Walk(StackOf(cwd), segments)
    {
      var segment := segments[i];
      assert segments[i..][1..] == segments[i + 1..];
      if segment == "" || segment == "." {
        continue;
      }
      if segment == ".." {
        if parts != [] {
          parts := parts[..|parts| - 1];
        }
      } else {
        parts := parts + [segment];
      }
    }
    var joined := Join("/", parts);
    r := if joined == "" then "." else joined;
  }

  method ParseDeclaredCommands(u: Alphabet, text: string, manifest: string)
    returns (commands: seq<DeclaredCommand>)
    ensures commands == ParseManifest(u, text, manifest)
  {
    hide DeclareLine, FenceLanguage, LowerAscii;
    commands := [];
    var inShellBlock := false;
    var lines := SplitLines(text);
    for i := 0 to |lines|
      invariant commands + ParseLines(u, lines[i..], inShellBlock, manifest, i + 1)
             == ParseManifest(u, text, manifest)
    {
      var line := lines[i];
      ParseLinesStep(u, lines, i, inShellBlock, manifest);
      var fence := FenceLanguage(line);
      if fence.Some? {
        inShellBlock := !inShellBlock && LowerAscii(fence.value) in SHELL_FENCES;
      } else if inShellBlock {
        var declared := DeclareLineLoop(u, line, manifest, i + 1);
        commands := commands + declared;
      }
    }
  }

  lemma ParseLinesStep(u: Alphabet, lines: seq<string>, i: nat, inBlock: bool, manifest: string)
    requires i < |lines|
    ensures ParseLines(u, lines[i..], inBlock, manifest, i + 1)
         == (if FenceLanguage(lines[i]).None? && inBlock then DeclareLine(u, lines[i], manifest, i + 1) else [])
              + ParseLines(u, lines[i + 1..], BlockAfter(inBlock, lines[i]), manifest, i + 2)
  {
    assert lines[i..][1..] == lines[i + 1..];
  }

  method DeclareLineLoop(u: Alphabet, line: string, manifest: string, number: nat)
    returns (commands: seq<DeclaredCommand>)
    ensures commands == DeclareLine(u, line, manifest, number)
  {
    hide SplitCommandLine, ProgramOf, ApplyCd;
    commands := [];
    var cwd := ".";
    var parts := SplitCommandLine(line);
    for i := 0 to |parts|
      invariant commands + DeclareParts(u, parts[i..], cwd, manifest, number)
             == DeclareLine(u, line, manifest, number)
    {
      var part := parts[i];
      assert parts[i..][1..] == parts[i + 1..];
      var program := ProgramOf(u, part);
      if program == "" {
        continue;
      }
      commands := commands + [DeclaredCommand(part, program, manifest, number, cwd)];
      if program == "cd" {
        cwd := ApplyCdLoop(cwd, part);
      }
    }
  }

  // ---------------------------------------------------------------- keys

  predicate IsPunctuation(c: char) { c in "()[]{};," }

  /** The final path component, ignoring `.` segments and repeated slashes (POSIX). */
  function PathName(path: string): string {
    LastSegment(SplitOn(path, "/"))
  }

  function LastSegment(segments: seq<string>): string {
    if segments == [] then ""
    else
      var last := segments[|segments| - 1];
      if last == "" || last == "." then LastSegment(segments[..|segments| - 1]) else last
  }

  function LastDot(name: string): (n: int)
    ensures -1 <= n < |name|
  {
    if name == "" then -1
    else if name[|name| - 1] == '.' then |name| - 1
    else LastDot(name[..|name| - 1])
  }

  function PathStem(path: string): string {
    var name := PathName(path);
    var dot := LastDot(name);
    if 0 < dot < |name| - 1 then name[..dot] else name
  }

  /** `python -m module ...` in any of its spellings. */
  predicate IsModuleRun(words: seq<string>) {
    |words| >= 3 && PathStem(words[0]) in {"python", "python3", "py"} && words[1] == "-m"
  }

  function DropFlags(words: seq<string>): seq<string> {
    if words == [] then []
    else (if StartsWith(words[0], "-") then [] else [words[0]]) + DropFlags(words[1..])
  }

  function KeyTokens(words: seq<string>): seq<string> {
    DropFlags(if IsModuleRun(words) then words[2..] else words)
  }

  function KeyProgram(token: string): string {
    StripBy(StripBy(token, IsQuote), IsPunctuation)
  }

  predicate NamesCommand(u: Alphabet, program: string, substitutes: bool) {
    && program != "" && '=' !in program
    && (u.alnum(program[0]) || program[0] in "./_")
    && !(substitutes && !u.alnum(program[0]))
    && program !in SHELL_BUILTINS && program !in SHELL_KEYWORDS && program !in PLUMBING
  }

  function KeyOfTokens(u: Alphabet, tokens: seq<string>, substitutes: bool): string {
    if tokens == [] || !NamesCommand(u, KeyProgram(tokens[0]), substitutes) then ""
    else if |tokens| > 1 then KeyProgram(tokens[0]) + " " + tokens[1]
    else KeyProgram(tokens[0])
  }

  /** Program plus first meaningful argument; "" for a fragment that names no command. */
  function CommandKey(u: Alphabet, command: string): string {
    KeyOfTokens(u, KeyTokens(Words(command)), Contains(command, "$("))
  }

  // ---------------------------------------------------------------- the workflow reader

  /** What follows `run:` on a step line. */
  function AfterRun(line: string): Option<string> {
    var l := TrimLeft(line, IsSpace);
    var step := if StartsWith(l, "-") then TrimLeft(l[1..], IsSpace) else l;
    if StartsWith(step, "run:") then Some(TrimLeft(step[4..], IsSpace)) else None
  }

  /** `run: command` on one line. */
  function RunScalar(line: string): Option<string> {
    match AfterRun(line)
    case None => None
    case Some(rest) =>
      if rest == "" || rest[0] == '|' || rest[0] == '>' then None
      else Some(TrimRight(rest, IsSpace))
  }

  function Indent(line: string): nat { |line| - |TrimLeft(line, IsSpace)| }

  /** `run: |` or `run: >`: the indentation its body must exceed. */
  function RunBlock(line: string): Option<nat> {
    match AfterRun(line)
    case None => None
    case Some(rest) =>
      if rest == "" || (rest[0] != '|' && rest[0] != '>') then None
      else
        var tail := if |rest| > 1 && (rest[1] == '-' || rest[1] == '+') then rest[2..] else rest[1..];
        if Strip(tail) == "" then Some(Indent(line)) else None
  }

  /** How many leading lines belong to a block of the given indentation. */
  function BlockLen(lines: seq<string>, indent: nat): (n: nat)
    ensures n <= |lines|
  {
    if lines == [] || (Strip(lines[0]) != "" && Indent(lines[0]) <= indent) then 0
    else 1 + BlockLen(lines[1..], indent)
  }

  function SplitAll(lines: seq<string>): seq<string> {
    if lines == [] then [] else SplitCommandLine(lines[0]) + SplitAll(lines[1..])
  }

  function RunSteps(lines: seq<string>): seq<string>
    decreases |lines|
  {
    hide RunScalar, RunBlock, BlockLen, SplitCommandLine, SplitAll;
    if lines == [] then []
    else match RunScalar(lines[0])
      case Some(command) => SplitCommandLine(command) + RunSteps(lines[1..])
      case None =>
        match RunBlock(lines[0])
        case Some(indent) =>
          var n := BlockLen(lines[1..], indent);
          SplitAll(lines[1..][..n]) + RunSteps(lines[1..][n..])
        case None => RunSteps(lines[1..])
  }

  predicate GatesPullRequest(text: string) {
    var trigger := SplitOn(text, "jobs:")[0];
    Contains(trigger, "pull_request") || (Contains(trigger, "push:") && Contains(trigger, "branches"))
  }

  /** The commands the workflows with the given texts run, in order. */
  function CiCommands(texts: seq<string>): seq<string> {
    if texts == [] then []
    else
      (if GatesPullRequest(texts[0]) then RunSteps(SplitLines(texts[0])) else [])
        + CiCommands(texts[1..])
  }

  method RunStepsLoop(text: string) returns (out: seq<string>)
    ensures out == RunSteps(SplitLines(text))
  {
    hide SplitCommandLine, SplitLines, SplitAll, BlockLen, RunScalar, RunBlock;
    out := [];
    var lines := SplitLines(text);
    var i := 0;
    while i < |lines|
      invariant 0 <= i <= |lines|
      invariant out + RunSteps(lines[i..]) == RunSteps(lines)
    {
      var line := lines[i];
      assert lines[i..][1..] == lines[i + 1..];
      var scalar := RunScalar(line);
      if scalar.Some? {
        out := out + SplitCommandLine(scalar.value);
        i := i + 1;
        continue;
      }
      var block := RunBlock(line);
      i := i + 1;
      if block.Some? {
        var body;
        body, i := BlockLoop(lines, i, block.value);
        out := out + body;
      }
    }
  }

  /** The inner loop of the reader: a block body from its first line. */
  method BlockLoop(lines: seq<string>, start: nat, indent: nat) returns (out: seq<string>, i: nat)
    requires start <= |lines|
    ensures start <= i <= |lines|
    ensures i - start == BlockLen(lines[start..], indent)
    ensures out == SplitAll(lines[start..][..i - start])
    ensures lines[start..][i - start..] == lines[i..]
  {
    hide SplitCommandLine, Strip, Indent, SplitAll, BlockLen;
    out := [];
    i := start;
    NothingToSplit(lines[start..start]);
    while i < |lines|
      invariant start <= i <= |lines|
      invariant i - start + BlockLen(lines[i..], indent) == BlockLen(lines[start..], indent)
      invariant out == SplitAll(lines[start..i])
    {
      var body := lines[i];
      BlockLenStep(lines, i, indent);
      if Strip(body) != "" && Indent(body) <= indent {
        break;
      }
      SplitAllAppend(lines[start..i], body);
      assert lines[start..i] + [body] == lines[start..i + 1];
      out := out + SplitCommandLine(body);
      i := i + 1;
    }
    BlockLenFits(lines[i..], indent);
    assert lines[start..][..i - start] == lines[start..i];
  }

  lemma NothingToSplit(lines: seq<string>)
    ensures lines == [] ==> SplitAll(lines) == []
  {
  }

  lemma BlockLenStep(lines: seq<string>, i: nat, indent: nat)
    requires i < |lines|
    ensures BlockLen(lines[i..], indent)
         == if Strip(lines[i]) != "" && Indent(lines[i]) <= indent then 0 else 1 + BlockLen(lines[i + 1..], indent)
  {
    hide Strip, Indent;
    assert lines[i..][1..] == lines[i + 1..];
  }

  lemma BlockLenFits(lines: seq<string>, indent: nat)
    ensures lines == [] ==> BlockLen(lines, indent) == 0
  {
  }

  lemma {:induction false} SplitAllAppend(lines: seq<string>, line: string)
    ensures SplitAll(lines + [line]) == SplitAll(lines) + SplitCommandLine(line)
  {
    hide SplitCommandLine;
    if lines == [] {
      assert lines + [line] == [line];
      assert SplitAll([line]) == SplitCommandLine(line) + SplitAll([]);
    } else {
      SplitAllAppend(lines[1..], line);
      assert (lines + [line])[1..] == lines[1..] + [line];
    }
  }

  method CiDeclaredCommands(texts: seq<string>) returns (commands: seq<string>)
    ensures commands == CiCommands(texts)
  {
    commands := [];
    for i := 0 to |texts|
      invariant commands + CiCommands(texts[i..]) == CiCommands(texts)
    {
      assert texts[i..][1..] == texts[i + 1..];
      if GatesPullRequest(texts[i]) {
        var steps := RunStepsLoop(texts[i]);
        commands := commands + steps;
      }
    }
  }

  // ---------------------------------------------------------------- drift

  /** The keys of a list of commands. */
  function Keys(u: Alphabet, commands: seq<string>): set<string> {
    set i | 0 <= i < |commands| :: CommandKey(u, commands[i])
  }

  function Raws(declared: seq<DeclaredCommand>): (raws: seq<string>)
    ensures |raws| == |declared|
    ensures forall i | 0 <= i < |raws| :: raws[i] == declared[i].raw
  {
    seq(|declared|, i requires 0 <= i < |declared| => declared[i].raw)
  }

  /** The commands whose key is neither known nor that of an earlier one reported. */
  function Unmentioned(u: Alphabet, ci: seq<string>, known: set<string>): seq<string> {
    if ci == [] then []
    else
      var key := CommandKey(u, ci[0]);
      if key == "" || key in known then Unmentioned(u, ci[1..], known)
      else [ci[0]] + Unmentioned(u, ci[1..], known + {key})
  }

  function ManifestVsCi(u: Alphabet, declared: seq<DeclaredCommand>, ci: seq<string>): seq<string> {
    Unmentioned(u, ci, Keys(u, Raws(declared)))
  }

  method ManifestVsCiLoop(u: Alphabet, declared: seq<DeclaredCommand>, ci: seq<string>)
    returns (missing: seq<string>)
    ensures missing == ManifestVsCi(u, declared, ci)
  {
    hide CommandKey;
    var declaredKeys := Keys(u, Raws(declared));
    missing := [];
    ghost var known := declaredKeys;
    for i := 0 to |ci|
      invariant known == declaredKeys + Keys(u, missing)
      invariant missing + Unmentioned(u, ci[i..], known) == ManifestVsCi(u, declared, ci)
    {
      assert ci[i..][1..] == ci[i + 1..];
      var key := CommandKey(u, ci[i]);
      if key == "" || key in declaredKeys {
        continue;
      }
      if key in Keys(u, missing) {
        continue;
      }
      KeysAppend(u, missing, ci[i]);
      missing := missing + [ci[i]];
      known := known + {key};
    }
  }

  lemma KeysAppend(u: Alphabet, commands: seq<string>, command: string)
    ensures Keys(u, commands + [command]) == Keys(u, commands) + {CommandKey(u, command)}
  {
    hide CommandKey;
    var all := commands + [command];
    assert CommandKey(u, all[|commands|]) in Keys(u, all);
    forall key | key in Keys(u, commands) ensures key in Keys(u, all) {
      var i :| 0 <= i < |commands| && CommandKey(u, commands[i]) == key;
      assert all[i] == commands[i];
    }
  }
}
