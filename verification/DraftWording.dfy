/** The fixed text of the generated AGENTS.md (devrepro/agents/author.py), and the proof that no
    line of it is a fence or breaks.  Lines are written as short literals joined by `+`, which
    keeps each within reach of the verifier. */
module DraftWording {
  import opened Strings
  import opened AgentManifest

  /** A line the manifest reader passes over outside a shell block. */
  predicate Prose(l: string) {
    NoBreaks(l) && FenceLanguage(l).None?
  }

  predicate AllProse(lines: seq<string>) {
    forall i | 0 <= i < |lines| :: Prose(lines[i])
  }

  predicate Printable(s: string) {
    forall i | 0 <= i < |s| :: ' ' <= s[i] <= '~'
  }

  /** A line whose first visible character is no backtick, or is a lone one, is no fence. */
  lemma NotFence(l: string, k: nat)
    requires k < |l| && (forall i | 0 <= i < k :: IsSpace(l[i])) && !IsSpace(l[k])
    requires l[k] != '`' || (k + 1 < |l| && l[k + 1] != '`' && !IsSpace(l[k + 1]))
    ensures FenceLanguage(l).None?
  {
    hide Strip, IsSpace, IsLanguageChar;
    var s := Strip(l);
    StripFrom(l, k);
    assert s[0] == l[k];
    if |s| >= 3 {
      assert s[0..3][0] == s[0] && s[0..3][1] == s[1];
      assert s[1] == l[k + 1];
    }
  }

  lemma StripFrom(l: string, k: nat)
    requires k < |l| && (forall i | 0 <= i < k :: IsSpace(l[i])) && !IsSpace(l[k])
    ensures 0 < |Strip(l)| <= |l| - k && Strip(l) == l[k..][..|Strip(l)|]
  {
    hide TrimLeft, TrimRight, IsSpace;
    TrimLeftTo(l, k);
    TrimRightReaches(l[k..], 0);
  }

  lemma {:induction false} TrimLeftTo(l: string, k: nat)
    requires k < |l| && (forall i | 0 <= i < k :: IsSpace(l[i])) && !IsSpace(l[k])
    ensures TrimLeft(l, IsSpace) == l[k..]
  {
    if k > 0 {
      TrimLeftTo(l[1..], k - 1);
      assert l[1..][k - 1..] == l[k..];
    }
  }

  lemma {:induction false} TrimRightReaches(t: string, k: nat)
    requires k < |t| && !IsSpace(t[k])
    ensures |TrimRight(t, IsSpace)| > k
  {
    if IsSpace(t[|t| - 1]) {
      TrimRightReaches(t[..|t| - 1], k);
    }
  }

  lemma PrintableProse(l: string, k: nat)
    requires Printable(l)
    requires k < |l| && (forall i | 0 <= i < k :: l[i] == ' ') && l[k] != ' '
    requires l[k] != '`' || (k + 1 < |l| && l[k + 1] != '`' && l[k + 1] != ' ')
    ensures Prose(l)
  {
    NotFence(l, k);
  }

  lemma BlankProse()
    ensures Prose("")
  {
  }

  function Instructions(): (l: string)
    ensures Prose(l)
  {
    var l := "Instructions for an " + "automated contributor.";
    PrintableProse(l, 0);
    l
  }

  function DraftedFrom(): (l: string)
    ensures Prose(l)
  {
    var l := "> Drafted by `devrepro " + "generate agents-md` from " + "this repository's CI";
    PrintableProse(l, 0);
    l
  }

  function IfACommandDisagrees(): (l: string)
    ensures Prose(l)
  {
    var l := "> workflows. **If a " + "command below disagrees " + "with the workflow, the";
    PrintableProse(l, 0);
    l
  }

  function WorkflowWins(): (l: string)
    ensures Prose(l)
  {
    var l := "> workflow wins and this " + "file is the bug.** Re-run";
    PrintableProse(l, 0);
    l
  }

  function AfterChangingEither(): (l: string)
    ensures Prose(l)
  {
    var l := "> `devrepro agent-check " + ".` after changing either.";
    PrintableProse(l, 0);
    l
  }

  function WhatItDoes(): (l: string)
    ensures Prose(l)
  {
    var l := "<!-- TODO(human): one " + "paragraph on what it does " + "and who uses it. A";
    PrintableProse(l, 0);
    l
  }

  function GeneratorCannotKnow(): (l: string)
    ensures Prose(l)
  {
    var l := "     generator cannot " + "know this, and an agent " + "reads it first. -->";
    PrintableProse(l, 5);
    l
  }

  function EveryOneRuns(): (l: string)
    ensures Prose(l)
  {
    var l := "Every one of these runs " + "in CI. Run them all " + "before proposing a";
    PrintableProse(l, 0);
    l
  }

  function SubsetFails(): (l: string)
    ensures Prose(l)
  {
    var l := "change; a subset is how a " + "green local run still " + "fails the pull";
    PrintableProse(l, 0);
    l
  }

  function TriggerOnPullRequests(): (l: string)
    ensures Prose(l)
  {
    var l := "trigger on pull requests. " + "Release-only steps are " + "deliberately";
    PrintableProse(l, 0);
    l
  }

  function ReleaseStepsExcluded(): (l: string)
    ensures Prose(l)
  {
    var l := "excluded: an agent should " + "not be running `twine` or " + "`gh release`.";
    PrintableProse(l, 0);
    l
  }

  function NoWorkflowFound(): (l: string)
    ensures Prose(l)
  {
    var l := "<!-- TODO(human): no " + "pull-request workflow was " + "found, so this";
    PrintableProse(l, 0);
    l
  }

  function ListTheCommands(): (l: string)
    ensures Prose(l)
  {
    var l := "     section could not be " + "generated. List the " + "commands that must";
    PrintableProse(l, 5);
    l
  }

  function KeepThemIdentical(): (l: string)
    ensures Prose(l)
  {
    var l := "     pass, and keep them " + "identical to whatever " + "gates merges. -->";
    PrintableProse(l, 5);
    l
  }

  function PrecommitExists(): (l: string)
    ensures Prose(l)
  {
    var l := "A " + "`.pre-commit-config.yaml` " + "exists. `pre-commit run " + "--all-files`";
    PrintableProse(l, 0);
    l
  }

  function PrecommitCovers(): (l: string)
    ensures Prose(l)
  {
    var l := "covers the hooks in it, " + "which may be a subset of " + "the list above.";
    PrintableProse(l, 0);
    l
  }

  function RulesNotObvious(): (l: string)
    ensures Prose(l)
  {
    var l := "<!-- TODO(human): the " + "rules that are not " + "obvious from the code -- " + "what";
    PrintableProse(l, 0);
    l
  }

  function WhatToName(): (l: string)
    ensures Prose(l)
  {
    var l := "     to name things, what " + "never to touch, which " + "patterns were chosen";
    PrintableProse(l, 5);
    l
  }

  function WhichAreAccidents(): (l: string)
    ensures Prose(l)
  {
    var l := "     deliberately and " + "which are accidents " + "nobody has cleaned up. " + "This";
    PrintableProse(l, 5);
    l
  }

  function SectionMostNeeded(): (l: string)
    ensures Prose(l)
  {
    var l := "     is the section an " + "agent most needs and the " + "one a generator is";
    PrintableProse(l, 5);
    l
  }

  function LeftEmptyOnPurpose(): (l: string)
    ensures Prose(l)
  {
    var l := "     least able to write, " + "so it is left empty on " + "purpose rather than";
    PrintableProse(l, 5);
    l
  }

  function NotFilledWithGuesses(): (l: string)
    ensures Prose(l)
  {
    var l := "     filled with " + "plausible guesses. -->";
    PrintableProse(l, 5);
    l
  }

  function RunEveryCommand(): (l: string)
    ensures Prose(l)
  {
    var l := "- Run every command in " + "the gate list above.";
    PrintableProse(l, 0);
    l
  }

  function AgentCheckReports(): (l: string)
    ensures Prose(l)
  {
    var l := "- `devrepro agent-check " + ".` reports whether this " + "file still matches CI,";
    PrintableProse(l, 0);
    l
  }

  function WhetherCommandsResolve(): (l: string)
    ensures Prose(l)
  {
    var l := "  whether every declared " + "command resolves on this " + "machine, and what a";
    PrintableProse(l, 2);
    l
  }

  function CouldReach(): (l: string)
    ensures Prose(l)
  {
    var l := "  session here could " + "reach.";
    PrintableProse(l, 2);
    l
  }

  function WhereTheyDisagree(): (l: string)
    ensures Prose(l)
  {
    var l := "`devrepro agent-check .` " + "reports where they " + "disagree, and an agent";
    PrintableProse(l, 0);
    l
  }

  function WillNotSeeTheOthers(): (l: string)
    ensures Prose(l)
  {
    var l := "reading one of them will " + "not see the others.";
    PrintableProse(l, 0);
    l
  }
}
