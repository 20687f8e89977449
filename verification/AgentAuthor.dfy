/** Drafting an AGENTS.md from the commands CI runs (devrepro/agents/author.py). */
module AgentAuthor {
  import opened Strings
  import opened AgentManifest
  import opened DraftWording

  datatype ProjectShape = ProjectShape(
    name: string,
    ecosystems: seq<string>,
    gates: seq<string>,
    directories: seq<string>,
    hasPrecommit: bool,
    existingManifests: seq<string>)

  const SETUP_PREFIXES: seq<string> := [
    "pip install", "python -m pip", "uv pip install", "uv sync", "poetry install", "npm ci",
    "npm install", "npm i ", "yarn install", "pnpm install", "bundle install", "go mod download",
    "cargo fetch", "apt-get", "sudo apt", "npx playwright install", "playwright install"
  ]

  /** Whether a step installs what the checks need rather than being a check. */
  predicate IsSetup(u: Alphabet, command: string) {
    var normalised := u.lower(Join(" ", Words(command)));
    exists i | 0 <= i < |SETUP_PREFIXES| :: StartsWith(normalised, SETUP_PREFIXES[i])
  }

  /** The commands that are, or are not, setup steps, in order. */
  function Select(u: Alphabet, commands: seq<string>, setup: bool): seq<string> {
    if commands == [] then []
    else (if IsSetup(u, commands[0]) == setup then [commands[0]] else []) + Select(u, commands[1..], setup)
  }

  method SplitSetupAndGates(u: Alphabet, commands: seq<string>)
    returns (setup: seq<string>, gates: seq<string>)
    ensures setup == Select(u, commands, true) && gates == Select(u, commands, false)
  {
    hide IsSetup;
    setup, gates := [], [];
    for i := 0 to |commands|
      invariant setup + Select(u, commands[i..], true) == Select(u, commands, true)
      invariant gates + Select(u, commands[i..], false) == Select(u, commands, false)
    {
      assert commands[i..][1..] == commands[i + 1..];
      if IsSetup(u, commands[i]) {
        setup := setup + [commands[i]];
      } else {
        gates := gates + [commands[i]];
      }
    }
  }

  /** The commands whose words were not seen before, stripped. */
  function Dedupe(commands: seq<string>, seen: set<string>): seq<string> {
    if commands == [] then []
    else
      var key := Join(" ", Words(commands[0]));
      if key != "" && key !in seen then [Strip(commands[0])] + Dedupe(commands[1..], seen + {key})
      else Dedupe(commands[1..], seen)
  }

  method DedupeLoop(commands: seq<string>) returns (out: seq<string>)
    ensures out == Dedupe(commands, {})
  {
    hide Words, Join, Strip;
    var seen: set<string> := {};
    out := [];
    for i := 0 to |commands|
      invariant out + Dedupe(commands[i..], seen) == Dedupe(commands, {})
    {
      assert commands[i..][1..] == commands[i + 1..];
      var key := Join(" ", Words(commands[i]));
      if key != "" && key !in seen {
        seen := seen + {key};
        out := out + [Strip(commands[i])];
      }
    }
  }

  // ---------------------------------------------------------------- sections

  function ShellBlock(commands: seq<string>): seq<string> {
    ["```bash"] + commands + ["```"]
  }

  function Header(name: string): seq<string> {
    ["# " + name, "", Instructions(), "", DraftedFrom(), IfACommandDisagrees(), WorkflowWins(),
     AfterChangingEither(), ""]
  }

  function WhatThisIs(ecosystems: seq<string>): seq<string> {
    if ecosystems == [] then []
    else ["## What this is", "", "A " + Join(" + ", ecosystems) + " project.", "",
          WhatItDoes(), GeneratorCannotKnow(), ""]
  }

  function SetupSection(setup: seq<string>): seq<string> {
    if setup == [] then [] else ["## Setup", ""] + ShellBlock(setup) + [""]
  }

  function ChecksIntro(): seq<string> {
    [EveryOneRuns(), SubsetFails(), "request.", ""]
  }

  function ChecksCount(n: nat): seq<string> {
    ["", "That is " + Decimal(n) + " command(s), read " + "from the workflows that",
     TriggerOnPullRequests(), ReleaseStepsExcluded(), ""]
  }

  function NoChecks(): seq<string> {
    [NoWorkflowFound(), ListTheCommands(), KeepThemIdentical(), ""]
  }

  function ChecksSection(gates: seq<string>): seq<string> {
    ["## Checks that gate a pull request", ""] +
    if gates == [] then NoChecks() else ChecksIntro() + ShellBlock(gates) + ChecksCount(|gates|)
  }

  function PrecommitSection(hasPrecommit: bool): seq<string> {
    if hasPrecommit then [PrecommitExists(), PrecommitCovers(), ""] else []
  }

  function LayoutEntries(directories: seq<string>): seq<string> {
    if directories == [] then [] else ["- `" + directories[0] + "/`"] + LayoutEntries(directories[1..])
  }

  function LayoutSection(directories: seq<string>): seq<string> {
    if directories == [] then [] else ["## Layout", ""] + LayoutEntries(directories) + [""]
  }

  function Conventions(): seq<string> {
    ["## Conventions", "", RulesNotObvious(), WhatToName(), WhichAreAccidents(), SectionMostNeeded(),
     LeftEmptyOnPurpose(), NotFilledWithGuesses(), ""]
  }

  function BeforeYouFinish(): seq<string> {
    ["## Before you finish", "", RunEveryCommand(), AgentCheckReports(), WhetherCommandsResolve(),
     CouldReach()]
  }

  function Quoted(manifests: seq<string>): seq<string> {
    if manifests == [] then []
    else (if manifests[0] != "AGENTS.md" then ["`" + manifests[0] + "`"] else []) + Quoted(manifests[1..])
  }

  function OtherFiles(manifests: seq<string>): seq<string> {
    ["", "## Other instruction files", "",
     "This repository also has " + Join(", ", Quoted(manifests)) + ". Keep them consistent:",
     WhereTheyDisagree(), WillNotSeeTheOthers()]
  }

  /** Everything after the checks, up to the last line that is not blank. */
  function Closing(shape: ProjectShape): seq<string> {
    PrecommitSection(shape.hasPrecommit) + LayoutSection(shape.directories) + Conventions()
      + BeforeYouFinish()
      + (if |shape.existingManifests| > 1 then OtherFiles(shape.existingManifests) else [])
  }

  /** The lines of the draft without the blank one it ends in. */
  function DraftLines(u: Alphabet, shape: ProjectShape): seq<string> {
    Header(shape.name) + WhatThisIs(shape.ecosystems)
      + SetupSection(Select(u, shape.gates, true)) + ChecksSection(Select(u, shape.gates, false))
      + Closing(shape)
  }

  /** `generate_agents_md`: the lines joined, trailing whitespace cut, one newline added. */
  function AgentsMd(u: Alphabet, shape: ProjectShape): string {
    TrimRight(Join("\n", DraftLines(u, shape) + [""]), IsSpace) + "\n"
  }

  method GenerateAgentsMd(u: Alphabet, shape: ProjectShape) returns (text: string)
    ensures text == AgentsMd(u, shape)
  {
    hide Header, WhatThisIs, SetupSection, ChecksSection, PrecommitSection, LayoutSection, Conventions,
      BeforeYouFinish, OtherFiles, TrimRight, Join, Select;
    var lines := Header(shape.name);
    lines := lines + WhatThisIs(shape.ecosystems);
    var setup, gates := SplitSetupAndGates(u, shape.gates);
    lines := lines + SetupSection(setup);
    lines := lines + ChecksSection(gates);
    lines := lines + PrecommitSection(shape.hasPrecommit);
    lines := lines + LayoutSection(shape.directories);
    lines := lines + Conventions();
    lines := lines + BeforeYouFinish();
    if |shape.existingManifests| > 1 {
      lines := lines + OtherFiles(shape.existingManifests);
    }
    lines := lines + [""];
    assert lines == DraftLines(u, shape) + [""];
    text := TrimRight(Join("\n", lines), IsSpace) + "\n";
  }
}
