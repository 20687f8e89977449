/** Reading the steps of a workflow (devrepro/agents/manifest.py): from a list of steps written out as YAML
    lines back to their commands. */
module Workflows {
  import opened Strings
  import opened AgentManifest
  import opened CommandLaws

  /** A `run` step on one line, a `run` step with a block below it, or any line the reader passes over. */
  datatype Step =
    | OneLine(indent: nat, dash: bool, command: string)
    | Body(indent: nat, dash: bool, style: string, lines: seq<string>)
    | Line(text: string)

  function Spaces(k: nat): (s: string)
    ensures |s| == k && forall i | 0 <= i < k :: s[i] == ' '
  {
    seq(k, _ => ' ')
  }

  function RunLine(k: nat, dash: bool, rest: string): string {
    Spaces(k) + ((if dash then "- run: " else "run: ") + rest)
  }

  /** The line a step starts with, and the lines after it. */
  function FirstLine(s: Step): string {
    match s
    case OneLine(indent, dash, command) => RunLine(indent, dash, command)
    case Body(indent, dash, style, _) => RunLine(indent, dash, style)
    case Line(text) => text
  }

  function WorkflowLines(steps: seq<Step>): seq<string> {
    if steps == [] then []
    else
      var body := if steps[0].Body? then steps[0].lines else [];
      [FirstLine(steps[0])] + body + WorkflowLines(steps[1..])
  }

  /** A line that can stand below a block header: blank, or indented further than it. */
  predicate IsBelow(k: nat, line: string) { Strip(line) == "" || Indent(line) > k }

  /** A line that starts no `run` step, however it is indented; it may be blank. */
  predicate IsPassedOver(line: string) { RunScalar(line).None? && RunBlock(line).None? }

  predicate IsStyle(style: string) { style in {"|", ">", "|-", "|+", ">-", ">+"} }

  predicate IsStep(s: Step) {
    match s
    case OneLine(_, _, command) => command != "" && Trimmed(command) && command[0] != '|' && command[0] != '>'
    case Body(indent, _, style, lines) => IsStyle(style) && forall i | 0 <= i < |lines| :: IsBelow(indent, lines[i])
    case Line(text) => IsPassedOver(text)
  }

  /** What follows a block starts with a line that cannot stand in it. */
  predicate CanFollow(s: Step, next: Step) {
    s.Body? ==> !IsBelow(s.indent, FirstLine(next))
  }

  predicate AreSteps(steps: seq<Step>) {
    && (forall i | 0 <= i < |steps| :: IsStep(steps[i]))
    && (forall i | 0 <= i < |steps| - 1 :: CanFollow(steps[i], steps[i + 1]))
  }

  /** The commands of the steps: a block's lines are read one by one. */
  function StepCommands(steps: seq<Step>): seq<string> {
    if steps == [] then [] else CommandsOf(steps[0]) + StepCommands(steps[1..])
  }

  function CommandsOf(step: Step): seq<string> {
    match step
    case OneLine(_, _, command) => SplitCommandLine(command)
    case Body(_, _, _, lines) => SplitAll(lines)
    case Line(_) => []
  }

  // ---------------------------------------------------------------- single lines

  lemma {:induction false} TrimSpaces(k: nat, s: string)
    requires s != "" && !IsSpace(s[0])
    ensures TrimLeft(Spaces(k) + s, IsSpace) == s
  {
    if k == 0 {
      assert Spaces(0) + s == s;
    } else {
      assert (Spaces(k) + s)[1..] == Spaces(k - 1) + s;
      TrimSpaces(k - 1, s);
    }
  }

  lemma RunLineIndent(k: nat, dash: bool, rest: string)
    ensures Indent(RunLine(k, dash, rest)) == k && Strip(RunLine(k, dash, rest)) != ""
  {
    hide TrimLeft, TrimRight;
    var s := (if dash then "- run: " else "run: ") + rest;
    assert s[0] == '-' || s[0] == 'r';
    TrimSpaces(k, s);
    TrimRightStarts(s);
  }

  lemma {:induction false} TrimRightStarts(s: string)
    requires s != "" && !IsSpace(s[0])
    ensures TrimRight(s, IsSpace) != ""
  {
    if IsSpace(s[|s| - 1]) { TrimRightStarts(s[..|s| - 1]); }
  }

  lemma RunLineRest(k: nat, dash: bool, rest: string)
    requires rest != "" && !IsSpace(rest[0])
    ensures AfterRun(RunLine(k, dash, rest)) == Some(rest)
  {
    hide TrimLeft, AfterRun, IsSpace, RunLine;
    RunLineTrimmed(k, dash, rest);
    if dash { DashedRun(RunLine(k, dash, rest), rest); } else { PlainRun(RunLine(k, dash, rest), rest); }
  }

  lemma RunLineTrimmed(k: nat, dash: bool, rest: string)
    ensures TrimLeft(RunLine(k, dash, rest), IsSpace) == (if dash then "- run: " else "run: ") + rest
  {
    hide TrimLeft;
    var s := (if dash then "- run: " else "run: ") + rest;
    assert s[0] == '-' || s[0] == 'r';
    TrimSpaces(k, s);
  }

  lemma AfterDash(rest: string)
    ensures TrimLeft(("- run: " + rest)[1..], IsSpace) == "run: " + rest
  {
    hide TrimLeft;
    var step := "run: " + rest;
    assert step[0] == 'r';
    assert "- run: " == "-" + (Spaces(1) + "run: ");
    assert ("- run: " + rest)[1..] == Spaces(1) + step;
    TrimSpaces(1, step);
  }

  lemma RunPrefix(rest: string)
    requires rest != "" && !IsSpace(rest[0])
    ensures StartsWith("run: " + rest, "run:") && TrimLeft(("run: " + rest)[4..], IsSpace) == rest
  {
    hide TrimLeft;
    var step := "run: " + rest;
    assert step[..4] == "run:" && step[4..] == Spaces(1) + rest;
    TrimSpaces(1, rest);
  }

  lemma PlainRun(line: string, rest: string)
    requires rest != "" && !IsSpace(rest[0]) && TrimLeft(line, IsSpace) == "run: " + rest
    ensures AfterRun(line) == Some(rest)
  {
    hide TrimLeft;
    RunPrefix(rest);
    assert !StartsWith("run: " + rest, "-") by { assert ("run: " + rest)[0..1] == "r"; }
  }

  lemma DashedRun(line: string, rest: string)
    requires rest != "" && !IsSpace(rest[0]) && TrimLeft(line, IsSpace) == "- run: " + rest
    ensures AfterRun(line) == Some(rest)
  {
    hide TrimLeft, IsSpace;
    RunPrefix(rest);
    AfterDash(rest);
    assert StartsWith("- run: " + rest, "-") by { assert ("- run: " + rest)[0..1] == "-"; }
  }

  lemma OneLineReads(k: nat, dash: bool, command: string)
    requires IsStep(OneLine(k, dash, command))
    ensures RunScalar(RunLine(k, dash, command)) == Some(command)
  {
    hide AfterRun;
    RunLineRest(k, dash, command);
  }

  lemma HeaderReads(k: nat, dash: bool, style: string)
    requires IsStyle(style)
    ensures RunScalar(RunLine(k, dash, style)).None? && RunBlock(RunLine(k, dash, style)) == Some(k)
  {
    hide AfterRun, Indent, RunLine, Strip, IsSpace;
    StyleTail(style);
    RunLineRest(k, dash, style);
    RunLineIndent(k, dash, style);
  }

  lemma StyleTail(style: string)
    requires IsStyle(style)
    ensures style != "" && (style[0] == '|' || style[0] == '>') && !IsSpace(style[0])
    ensures Strip(if |style| > 1 && (style[1] == '-' || style[1] == '+') then style[2..] else style[1..]) == ""
  {
    hide Strip;
    var tail := if |style| > 1 && (style[1] == '-' || style[1] == '+') then style[2..] else style[1..];
    assert tail == "";
  }

  // ---------------------------------------------------------------- blocks

  /** A body ends where the lines below its header do. */
  lemma {:induction false} BodyLength(lines: seq<string>, rest: seq<string>, k: nat)
    requires forall i | 0 <= i < |lines| :: IsBelow(k, lines[i])
    requires rest != [] ==> !IsBelow(k, rest[0])
    ensures BlockLen(lines + rest, k) == |lines|
  {
    hide Strip, Indent;
    if lines == [] {
      assert lines + rest == rest;
    } else {
      assert (lines + rest)[1..] == lines[1..] + rest;
      BodyLength(lines[1..], rest, k);
    }
  }

  lemma ReadOneLine(line: string, command: string, rest: seq<string>)
    requires RunScalar(line) == Some(command)
    ensures RunSteps([line] + rest) == SplitCommandLine(command) + RunSteps(rest)
  {
    hide SplitCommandLine, RunScalar, RunBlock;
    assert ([line] + rest)[1..] == rest;
  }

  lemma ReadBlock(line: string, k: nat, body: seq<string>, rest: seq<string>)
    requires RunScalar(line).None? && RunBlock(line) == Some(k) && BlockLen(body + rest, k) == |body|
    ensures RunSteps([line] + body + rest) == SplitAll(body) + RunSteps(rest)
  {
    hide SplitAll, RunScalar, RunBlock, BlockLen;
    var lines := [line] + body + rest;
    assert lines[1..] == body + rest;
    assert (body + rest)[..|body|] == body && (body + rest)[|body|..] == rest;
  }

  lemma ReadOther(line: string, rest: seq<string>)
    requires RunScalar(line).None? && RunBlock(line).None?
    ensures RunSteps([line] + rest) == RunSteps(rest)
  {
    hide RunScalar, RunBlock;
    assert ([line] + rest)[1..] == rest;
  }

  lemma StepsTail(steps: seq<Step>)
    requires AreSteps(steps) && steps != []
    ensures AreSteps(steps[1..])
  {
    hide IsStep, CanFollow;
    var tail := steps[1..];
    assert forall i | 0 <= i < |tail| :: tail[i] == steps[i + 1];
  }

  lemma LinesStart(steps: seq<Step>)
    requires steps != []
    ensures WorkflowLines(steps) != [] && WorkflowLines(steps)[0] == FirstLine(steps[0])
  {
    hide FirstLine;
  }

  /** Reading the lines of a workflow gives the commands of its steps, in order, each block with exactly
      the lines below its header. */
  lemma {:induction false} StepsReadBack(steps: seq<Step>)
    requires AreSteps(steps)
    ensures RunSteps(WorkflowLines(steps)) == StepCommands(steps)
  {
    hide SplitCommandLine, SplitAll, BlockLen, RunScalar, RunBlock, RunLine, RunSteps, IsBelow, Strip, Indent;
    if steps == [] {
      NoLinesNoCommands();
    } else {
      var s, rest := steps[0], WorkflowLines(steps[1..]);
      assert IsStep(s);
      StepsTail(steps);
      StepsReadBack(steps[1..]);
      match s
      case OneLine(indent, dash, command) =>
        OneLineReads(indent, dash, command);
        assert WorkflowLines(steps) == [RunLine(indent, dash, command)] + rest;
        ReadOneLine(RunLine(indent, dash, command), command, rest);
      case Body(indent, dash, style, body) =>
        HeaderReads(indent, dash, style);
        if |steps| > 1 {
          LinesStart(steps[1..]);
          assert CanFollow(steps[0], steps[1]);
        }
        BodyLength(body, rest, indent);
        ReadBlock(RunLine(indent, dash, style), indent, body, rest);
      case Line(text) =>
        assert WorkflowLines(steps) == [text] + rest;
        ReadOther(text, rest);
    }
  }

  lemma NoLinesNoCommands()
    ensures RunSteps(WorkflowLines([])) == []
  {
  }

  // ---------------------------------------------------------------- every list of pieces is some workflow's

  /** A step that runs the piece alone. */
  function Alone(p: string): string { ";" + p + ";" }

  lemma {:induction false} SplitShellEnd(p: string)
    requires NoSeparators(p)
    ensures SplitShell(p + ";") == [p, ""]
    decreases |p|
  {
    hide SeparatorLen, NoSeparators;
    var s := p + ";";
    if p == "" {
      SemicolonSplits("");
      assert s == ";" + "" && SplitShell("") == [""];
    } else {
      NoSeparatorAhead(p);
      assert s[1..] == p[1..] + ";" && s[0] == p[0];
      SplitShellEnd(p[1..]);
      assert [s[0]] + p[1..] == p;
      PlainStart(s);
    }
  }

  lemma PlainStart(s: string)
    requires s != "" && SeparatorLen(s) == 0
    ensures SplitShell(s) == [[s[0]] + SplitShell(s[1..])[0]] + SplitShell(s[1..])[1..]
  {
    hide SeparatorLen;
  }

  lemma NoSeparatorAhead(p: string)
    requires p != "" && NoSeparators(p)
    ensures SeparatorLen(p + ";") == 0 && NoSeparators(p[1..])
  {
    var s := p + ";";
    assert s[0] == p[0] && p[0] != ';';
    assert !StartsWith(s, ";") by { assert s[0..1][0] == s[0]; }
    assert |p| > 1 ==> s[1] == p[1];
    assert !StartsWith(s, "&&") && !StartsWith(s, "||") by { assert s[0..2] == [s[0], s[1]]; }
    assert forall i | 0 <= i < |p| - 1 :: p[1..][i] == p[i + 1];
  }

  lemma SemicolonSplits(rest: string)
    ensures SplitShell(";" + rest) == [""] + SplitShell(rest)
  {
    var s := ";" + rest;
    assert s[0..1] == ";" && s[1..] == rest;
    assert !StartsWith(s, "&&") && !StartsWith(s, "||") by { if |s| > 1 { assert s[0..2][0] == ';'; } }
  }

  lemma AloneIsPlain(p: string)
    requires IsPiece(p)
    ensures Trimmed(Alone(p)) && NoComment(Alone(p)) && NoBreaks(Alone(p))
  {
    var c := Alone(p);
    assert forall i | 0 < i <= |p| :: c[i] == p[i - 1];
    assert c[0] == ';' && c[|c| - 1] == ';';
  }

  lemma AloneIsText(p: string)
    requires IsPiece(p)
    ensures !HasPrompt(Alone(p)) && CommandText(Alone(p)) == Alone(p)
  {
    hide IsPiece, NoComment, NoBreaks, TrimLeft, TrimRight, Contains, DropComment;
    var c := Alone(p);
    AloneIsPlain(p);
    NoCommentIsAbsence(c);
    assert c[0] == ';' && c[|c| - 1] == ';';
    assert TrimLeft(c, IsSpace) == c && TrimRight(c, IsBackslash) == c;
  }

  lemma AloneReads(p: string)
    requires IsPiece(p)
    ensures SplitCommandLine(Alone(p)) == [p]
  {
    hide NoSeparators, NoComment, NoBreaks, HasPrompt, CommandText, SplitShell, Strip;
    var c := Alone(p);
    AloneIsPlain(p);
    AloneIsText(p);
    assert c == ";" + (p + ";");
    SemicolonSplits(p + ";");
    SplitShellEnd(p);
    assert SplitShell(c) == ["", p, ""];
    OnlyPiece(p);
  }

  lemma OnlyPiece(p: string)
    requires p != "" && Trimmed(p)
    ensures StripNonempty(["", p, ""]) == [p]
  {
    hide Strip;
    assert ["", p, ""][1..] == [p, ""] && [p, ""][1..] == [""] && [""][1..] == [];
    assert Strip("") == "";
    assert StripNonempty([""]) == [] && StripNonempty([p, ""]) == [p];
  }

  function AloneSteps(ps: seq<string>): seq<Step> {
    if ps == [] then [] else [OneLine(2, true, Alone(ps[0]))] + AloneSteps(ps[1..])
  }

  /** A workflow for pull requests that runs each of the commands in a step of its own. */
  function StepsOf(ps: seq<string>): seq<Step> { [Line("on: pull_request"), Line("jobs:")] + AloneSteps(ps) }

  function WorkflowOf(ps: seq<string>): string { Unlines(WorkflowLines(StepsOf(ps))) }

  lemma {:induction false} AloneStepsRead(ps: seq<string>)
    requires ArePieces(ps)
    ensures StepCommands(AloneSteps(ps)) == ps
    ensures forall i | 0 <= i < |AloneSteps(ps)| :: IsStep(AloneSteps(ps)[i]) && AloneSteps(ps)[i].OneLine?
    ensures AreLines(WorkflowLines(AloneSteps(ps)))
  {
    hide IsPiece, SplitCommandLine, NoBreaks, Trimmed, Alone;
    if ps != [] {
      assert IsPiece(ps[0]);
      AloneStepsRead(ps[1..]);
      AloneReads(ps[0]);
      AloneIsPlain(ps[0]);
      AloneStarts(ps[0]);
      RunLineBreaks(2, true, Alone(ps[0]));
    }
  }

  lemma AloneStarts(p: string)
    ensures Alone(p) != "" && Alone(p)[0] == ';'
  {
  }

  lemma RunLineBreaks(k: nat, dash: bool, rest: string)
    requires NoBreaks(rest)
    ensures NoBreaks(RunLine(k, dash, rest))
  {
  }

  lemma HeadersPassOver()
    ensures IsPassedOver("on: pull_request") && IsPassedOver("jobs:")
  {
    hide IsPassedOver, IsSpace;
    assert !IsSpace('o') && !IsSpace('j') by { LettersAreVisible(); }
    NotRun("on: pull_request");
    NotRun("jobs:");
  }

  lemma LettersAreVisible()
    ensures !IsSpace('o') && !IsSpace('j')
  {
  }

  lemma HeadersAreLines()
    ensures AreLines(["on: pull_request", "jobs:"])
  {
  }

  lemma NotRun(line: string)
    requires line != "" && !IsSpace(line[0]) && line[0] != '-' && line[0] != 'r'
    ensures IsPassedOver(line)
  {
    hide TrimLeft, IsSpace;
    assert TrimLeft(line, IsSpace) == line;
    assert !StartsWith(line, "-") by { assert line[0..1] == [line[0]]; }
    assert !StartsWith(line, "run:") by { if |line| >= 4 { assert line[0..4][0] == line[0]; } }
    assert AfterRun(line).None?;
  }

  lemma TwoLinesFirst(ps: seq<string>)
    ensures StepCommands(StepsOf(ps)) == StepCommands(AloneSteps(ps))
    ensures WorkflowLines(StepsOf(ps)) == ["on: pull_request", "jobs:"] + WorkflowLines(AloneSteps(ps))
  {
    hide AloneSteps, SplitCommandLine, SplitAll;
    var steps := StepsOf(ps);
    assert steps[1..] == [Line("jobs:")] + AloneSteps(ps) && steps[1..][1..] == AloneSteps(ps);
  }

  lemma StepsOfAreSteps(ps: seq<string>)
    requires ArePieces(ps)
    ensures AreSteps(StepsOf(ps)) && AreLines(WorkflowLines(StepsOf(ps)))
  {
    hide ArePieces, IsPassedOver, AloneSteps, WorkflowLines, StepsOf, StepCommands, IsStep, AreSteps, NoBreaks, AreLines;
    HeadersAreLines();
    AloneStepsRead(ps);
    TwoLinesFirst(ps);
    StepsOfRun(ps);
    StepsWithoutBodies(StepsOf(ps));
    LinesConcat(["on: pull_request", "jobs:"], WorkflowLines(AloneSteps(ps)));
  }

  lemma StepsOfRun(ps: seq<string>)
    requires ArePieces(ps)
    ensures forall i | 0 <= i < |StepsOf(ps)| :: IsStep(StepsOf(ps)[i]) && !StepsOf(ps)[i].Body?
  {
    hide ArePieces, IsPassedOver, AloneSteps, WorkflowLines, StepCommands, IsStep, AreLines;
    HeadersPassOver();
    AloneStepsRead(ps);
    LineIsStep("on: pull_request");
    LineIsStep("jobs:");
    var alone := AloneSteps(ps);
    assert forall i | 2 <= i < |alone| + 2 :: StepsOf(ps)[i] == alone[i - 2];
  }

  lemma StepsWithoutBodies(steps: seq<Step>)
    requires forall i | 0 <= i < |steps| :: IsStep(steps[i]) && !steps[i].Body?
    ensures AreSteps(steps)
  {
    hide IsStep, IsBelow, FirstLine;
  }

  lemma LinesConcat(a: seq<string>, b: seq<string>)
    requires AreLines(a) && AreLines(b)
    ensures AreLines(a + b)
  {
    hide NoBreaks;
  }

  lemma LineIsStep(text: string)
    requires IsPassedOver(text)
    ensures IsStep(Line(text))
  {
  }

  /** A separator that starts with a character not among the first n cannot cut before them. */
  lemma {:induction false} SplitOnStarts(s: string, sep: string, n: nat)
    requires sep != "" && n <= |s| && forall q | 0 <= q < n :: s[q] != sep[0]
    ensures |SplitOn(s, sep)[0]| >= n
  {
    if n > 0 {
      assert !StartsWith(s, sep) by { if |s| >= |sep| { assert s[0..|sep|][0] == s[0]; } }
      SplitOnStarts(s[1..], sep, n - 1);
    }
  }

  lemma WorkflowGates(rest: string)
    ensures GatesPullRequest("on: pull_request" + rest)
  {
    hide SplitOn;
    var key, word := "on: ", "pull_request";
    var text := "on: pull_request" + rest;
    assert "on: pull_request" == key + word && |key| == 4 && |word| == 12;
    assert forall q | 0 <= q < 16 :: text[q] == (key + word)[q];
    assert forall q | 0 <= q < 16 :: text[q] != 'j' by { NoJob(key); NoJob(word); }
    SplitOnStarts(text, "jobs:", 16);
    var trigger := SplitOn(text, "jobs:")[0];
    assert trigger[..16] == text[..16] == key + word;
    assert trigger[4..16] == trigger[..16][4..16] == word;
    assert Occurs(word, trigger, 4);
  }

  lemma NoJob(s: string)
    requires s == "on: " || s == "pull_request"
    ensures forall q | 0 <= q < |s| :: s[q] != 'j'
  {
  }

  lemma WorkflowStarts(ps: seq<string>) returns (rest: string)
    ensures WorkflowOf(ps) == "on: pull_request" + rest
  {
    hide AloneSteps;
    TwoLinesFirst(ps);
    var lines := WorkflowLines(StepsOf(ps));
    rest := "\n" + Unlines(lines[1..]);
    assert Unlines(lines) == lines[0] + "\n" + Unlines(lines[1..]);
  }

  /** Every list of pieces is what CI runs in some repository: the one with that workflow. */
  lemma PiecesOccur(ps: seq<string>)
    requires ArePieces(ps)
    ensures CiCommands([WorkflowOf(ps)]) == ps
  {
    hide ArePieces, AreLines, GatesPullRequest, RunSteps, SplitLines, StepsOf, WorkflowLines, Unlines, AreSteps;
    var text := WorkflowOf(ps);
    StepsOfAreSteps(ps);
    var rest := WorkflowStarts(ps);
    WorkflowGates(rest);
    SplitLinesUnlines(WorkflowLines(StepsOf(ps)));
    StepsReadBack(StepsOf(ps));
    TwoLinesFirst(ps);
    AloneStepsRead(ps);
    assert [text][1..] == [];
    assert CiCommands([]) == [] by { NoWorkflows(); }
    assert CiCommands([text]) == RunSteps(SplitLines(text)) + CiCommands([]);
  }

  lemma NoWorkflows()
    ensures CiCommands([]) == []
  {
  }

  /** Each workflow contributes its commands, whichever others there are. */
  lemma {:induction false} EveryWorkflowCounts(a: seq<string>, b: seq<string>)
    ensures CiCommands(a + b) == CiCommands(a) + CiCommands(b)
  {
    hide CiCommands;
    if a == [] {
      NoWorkflows();
      assert a + b == b;
    } else {
      assert (a + b)[0] == a[0] && (a + b)[1..] == a[1..] + b;
      FirstWorkflow(a + b);
      FirstWorkflow(a);
      EveryWorkflowCounts(a[1..], b);
    }
  }

  lemma FirstWorkflow(texts: seq<string>)
    requires texts != []
    ensures CiCommands(texts) == CiCommands([texts[0]]) + CiCommands(texts[1..])
  {
    hide GatesPullRequest, RunSteps, SplitLines;
    assert [texts[0]][1..] == [];
    NoWorkflows();
  }

  /** Two jobs written as two workflows run what both list. */
  lemma TwoWorkflows(ps: seq<string>, qs: seq<string>)
    requires ArePieces(ps) && ArePieces(qs)
    ensures CiCommands([WorkflowOf(ps), WorkflowOf(qs)]) == ps + qs
  {
    hide ArePieces, WorkflowOf, CiCommands;
    PiecesOccur(ps);
    PiecesOccur(qs);
    EveryWorkflowCounts([WorkflowOf(ps)], [WorkflowOf(qs)]);
    assert [WorkflowOf(ps)] + [WorkflowOf(qs)] == [WorkflowOf(ps), WorkflowOf(qs)];
  }

  // ---------------------------------------------------------------- which workflows count

  /** What is before the first `jobs:`. */
  lemma {:induction false} TriggerOf(trigger: string, rest: string)
    requires !Contains(trigger, "jobs:")
    ensures SplitOn(trigger + "jobs:" + rest, "jobs:")[0] == trigger
    decreases |trigger|
  {
    hide SplitOn, Contains;
    var s := trigger + "jobs:" + rest;
    JobsStep(s);
    if trigger == "" {
      assert s[0..5] == "jobs:";
    } else {
      NoJobsYet(trigger, rest);
      assert s[1..] == trigger[1..] + "jobs:" + rest && s[0] == trigger[0];
      TriggerOf(trigger[1..], rest);
      assert [trigger[0]] + trigger[1..] == trigger;
    }
  }

  lemma JobsStep(s: string)
    ensures s != "" && StartsWith(s, "jobs:") ==> SplitOn(s, "jobs:")[0] == ""
    ensures s != "" && !StartsWith(s, "jobs:") ==> SplitOn(s, "jobs:")[0] == [s[0]] + SplitOn(s[1..], "jobs:")[0]
  {
  }

  /** `jobs:` does not overlap itself. */
  lemma NoJobsYet(trigger: string, rest: string)
    requires trigger != "" && !Contains(trigger, "jobs:")
    ensures !StartsWith(trigger + "jobs:" + rest, "jobs:") && !Contains(trigger[1..], "jobs:")
  {
    var s := trigger + "jobs:" + rest;
    var n := |trigger|;
    assert s[n] == 'j';
    assert "jobs:"[1] != 'j' && "jobs:"[2] != 'j' && "jobs:"[3] != 'j' && "jobs:"[4] != 'j';
    if n >= 5 {
      assert s[0..5] == trigger[0..5];
      assert !Occurs("jobs:", trigger, 0);
    } else {
      assert s[0..5][n] == 'j';
    }
    assert trigger[1..n] == trigger[1..];
    if Contains(trigger[1..], "jobs:") { ContainsInSlice(trigger, 1, n, "jobs:"); }
  }

  /** A workflow counts exactly when what stands before its jobs mentions pull requests, or pushes to
      branches; its jobs make no difference. */
  lemma GatesExactly(trigger: string, rest: string)
    requires !Contains(trigger, "jobs:")
    ensures GatesPullRequest(trigger + "jobs:" + rest)
      <==> Contains(trigger, "pull_request") || (Contains(trigger, "push:") && Contains(trigger, "branches"))
  {
    hide SplitOn, Contains;
    TriggerOf(trigger, rest);
  }

  /** A release workflow, run for tags, does not, whatever its jobs mention. */
  lemma ReleasesDoNotGate(rest: string)
    ensures !GatesPullRequest("on: push: tags" + "jobs:" + rest)
    ensures CiCommands(["on: push: tags" + "jobs:" + rest]) == []
  {
    hide GatesPullRequest, RunSteps, SplitLines;
    NoBranches();
    GatesExactly("on: push: tags", rest);
    var text := "on: push: tags" + "jobs:" + rest;
    assert [text][1..] == [] && CiCommands([]) == [];
  }

  lemma NoBranches()
    ensures var t := "on: push: tags";
      !Contains(t, "jobs:") && !Contains(t, "pull_request") && !Contains(t, "branches")
  {
    var t := "on: push: tags";
    NeverStarts(t, "jobs:", 0);
    NeverStarts(t, "pull_request", 3);
    NeverStarts(t, "branches", 0);
  }

  /** A pattern whose character at some place the text has nowhere. */
  lemma NeverStarts(t: string, w: string, k: nat)
    requires k < |w| && w[k] !in t
    ensures !Contains(t, w)
  {
    hide Occurs;
    forall i: nat | i <= |t| ensures !Occurs(w, t, i) {
      if Occurs(w, t, i) { OccursChar(w, t, i, k); }
    }
  }

  lemma OccursChar(w: string, t: string, i: nat, k: nat)
    requires Occurs(w, t, i) && k < |w|
    ensures i + k < |t| && t[i + k] == w[k]
  {
    assert t[i..i + |w|][k] == t[i + k];
  }
}
