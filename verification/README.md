# devrepro: verified kernels

Models and proofs of the parts of devrepro that compute rather than probe. Strings are sequences of
characters; files, directory listings, clocks, version commands and scanners are parameters.

The loops of the source are methods here, each proved equal to a function of its inputs (the cache, whose
method updates fields, is a class); the laws are proved about those functions. One module stands for one
component:

- `AgentManifest`, `CommandLaws`, `AgentAuthor`, `DraftWording`, `RoundTrip`, `DriftFree`, `DriftLimits`,
  `FencedDocuments`, `CdLaws`, `Workflows`, `SplitLaws`, `KeyLaws`: from workflow texts to an AGENTS.md draft, back through the manifest reader,
  to the list of CI commands nothing mentions.
- `Versioning`, `VersionOrders`, `SpecRoundTrip`, `PartialVersions`, `SpecMeaning`: versions, the two orders on them, range specifications.
- `Redaction`: the home-directory and account-name passes of the privacy gate.
- `PathResolution`, `ResolutionOrder`, `Toolchains`: PATH lookup, the PATH probe's advice, detection with a thread pool.
- `Watch`, `Timeline`, `SnapshotDiff`, `DiffMeaning`: what changed, while watching, over a history, between two machines.
- `GitConfig`, `Mounts`, `ReportCache`: the git config reader, mount lookup, the report cache.
- `Strings`, `Ordering`: the string operations and sorting the others use.

## What the proofs found

Where the code and its documentation or advice differ, the model follows the code and the exact limit is
a theorem:

- The no-drift claim of a fresh draft (devrepro/agents/author.py:13-17) fails for a CI command that is read
  back with another key: one that begins with `#` but runs a module (`#/py -m x` has key `x` and is read
  back as a comment), one that ends in a backslash, and one that looks like a fence, which hides commands
  and can have the prose read as commands. `NoDriftExactly` says for every list of CI commands when it
  holds; `CommentedModuleRunDrifts`, `TrailingBackslashDrifts` and `FencedCommandDrifts` are whole drafts,
  with a workflow they come from, for which it does not.
- The closing fence of a block that is no shell block opens a shell block
  (devrepro/agents/manifest.py:169-173), although the comment there says it closes what is open. After the
  first such block the reader declares the prose and none of the blocks, so it keeps its promise exactly when
  from there on neither has anything to declare (`PromiseKeptExactly`); `ProseAfterJsonIsDeclared` is a text
  it misreads.
- `Version._key` puts a release before its own pre-releases, the opposite of the module's documentation and
  of `_cmp_versions`, and keeps 1.2 and 1.2.0 apart. `OrdersDisagreeExactly` lists every disagreement.
- `<16` is read as `<17.0.0`, `>16` as `>=16.0.0` and `>=1.2-rc1` as `>=1.2.0`. A partial version means what
  its operator says exactly for `!=`, for `<` and `<=` with a minor number, and for `>=` without a tag. A bare `*` prints as `*0`, which reads as the range
  from 0.0.0 to below 1.0.0.
- The home directory survives in some text exactly when it has a tilde in it. An account name (without
  angle brackets) survives as a word in some text exactly when it is `user`, the marker's own word, or when
  one of its ends is a letter, digit or underscore and the other is not, as in `HOST$`.
- The "SAFE" advice to remove duplicate PATH entries can lose programs. On
  `/nonexistent/../usr/bin:/usr/bin` both entries normalise to `/usr/bin`, so the live entry is called the
  duplicate of the dead one, and removing it loses everything in `/usr/bin` (`SafeAdviceLosesLs`). For a
  given PATH and command the advice is safe exactly when every program a removed entry offers under the
  command's name is one an earlier entry offers (`RemovalIsSafeExactly`).
- The git config reader gives back the entries git printed exactly when no key has `=` or a line break in it,
  no value has a line break but the newline, no line of a value after its first has a tab, and the last value
  does not end in whitespace. A key with `=` is cut at the first one, or its entry dropped when it starts
  with it; a credential helper written as a shell fragment with a tab-indented body, the very shape
  devrepro/git/health.py:152-154 has in mind, is not read back (`IndentedHelperIsLost`).
- `parse_proc_mounts` is documented for `mount -v` output too (devrepro/platforms/mounts.py:69). On lines
  `device on point ...` it takes `on` for the mount point and the point for the type, so no absolute path is
  on any of those mounts (`MountOutputFindsNothing`).
- The report cache answers a call with a report on another root exactly when the last call that scanned
  asked about another one; only lists of calls about one root are safe from it.
- The timeline's documentation promises the first change; the code returns the last, which is the same
  exactly when there was only one.

## Model

| member | source | states |
|---|---|---|
| AgentManifest.ParseDeclaredCommands | devrepro/agents/manifest.py:156-195 | the fence machine over the lines of a file declares what the line-by-line reading says |
| AgentManifest.DeclareLineLoop | devrepro/agents/manifest.py:183-194 | one line's commands, each with the directory the `cd`s before it left |
| SplitLaws.KeepsEveryCommand | devrepro/agents/manifest.py:218-232 | a line written from stable commands with any separators between them is split into exactly those commands, in order; an indentation or prompt before and a comment or continuation after change nothing |
| SplitLaws.LineDeclaresEvery | devrepro/agents/manifest.py:183-194 | such a line of a shell block declares each of its commands |
| SplitLaws.StepRunsEvery | devrepro/agents/manifest.py:419-442 | such a one-line step of a workflow runs each of its commands |
| SplitLaws.IndentedFence | devrepro/agents/manifest.py:47 | a fence may be indented and may have spaces after it |
| SplitLaws.FenceExactly | devrepro/agents/manifest.py:47 | a fence is three backticks and a language and nothing else on its line |
| AgentManifest.ApplyCdLoop | devrepro/agents/manifest.py:198-215 | the stack loop computes the walk over the target's segments |
| AgentManifest.RunStepsLoop | devrepro/agents/manifest.py:419-442 | the indexed loop over workflow lines yields the one-line and block steps in order |
| Workflows.StepsReadBack | devrepro/agents/manifest.py:419-442 | workflow lines written from a list of steps, each at its own indentation among any lines that are no step, are read as the commands of those steps, each block with exactly the lines below its header |
| Workflows.PiecesOccur | devrepro/agents/manifest.py:387-442 | every list of pieces is what CI runs in the repository with the workflow given |
| AgentManifest.CiDeclaredCommands | devrepro/agents/manifest.py:387-416 | the commands of the workflows that gate pull requests, in order |
| Workflows.EveryWorkflowCounts | devrepro/agents/manifest.py:387-403 | the commands of a list of workflows are those of its first part followed by those of the rest, so each contributes its own |
| Workflows.TwoWorkflows | devrepro/agents/manifest.py:387-403 | two workflows written from two lists of pieces run both lists, in order |
| Workflows.GatesExactly | devrepro/agents/manifest.py:406-416 | a workflow counts if and only if what stands before its jobs mentions pull requests, or pushes and branches; its jobs make no difference |
| Workflows.ReleasesDoNotGate | devrepro/agents/manifest.py:406-416 | a workflow run for tags contributes no commands, whatever its jobs are |
| AgentManifest.ManifestVsCiLoop | devrepro/agents/manifest.py:445-466 | the loop reports one command per key that is nonempty and not declared |
| KeyLaws.SameKeyExactly | devrepro/agents/manifest.py:519-550 | two plain commands have one key if and only if both program and first argument are the same |
| KeyLaws.KeyIsProgramAndArgument | devrepro/agents/manifest.py:547-550 | the key of a plain command is its program and first argument with a space between |
| KeyLaws.FlagsDoNotCount | devrepro/agents/manifest.py:529 | a flag makes no difference wherever it stands, outside `python -m` |
| KeyLaws.ModuleRunKey | devrepro/agents/manifest.py:526-528 | `python -m` in front of a command, the interpreter in any spelling, leaves its key alone |
| KeyLaws.StemInDirectory | devrepro/agents/manifest.py:527 | the interpreter may be given with its directory |
| KeyLaws.StemWithExtension | devrepro/agents/manifest.py:527 | and with an extension |
| KeyLaws.WrappedProgram | devrepro/agents/manifest.py:533 | quotes and brackets around the program make no difference |
| KeyLaws.KeyedExactly | devrepro/agents/manifest.py:533-546 | a command has a key if and only if its first word names a command |
| KeyLaws.FlagsHaveNoKey | devrepro/agents/manifest.py:529-531 | flags alone have none |
| KeyLaws.ProgramIsFirstWord | devrepro/agents/manifest.py:235-242 | the program is the first word without its quotes, unless it is an assignment |
| KeyLaws.AssignmentsAreSkipped | devrepro/agents/manifest.py:239-240 | an assignment in front makes no difference to the program |
| KeyLaws.DriftOfOneExactly | devrepro/agents/manifest.py:445-466 | against a one-command manifest a CI command is drift if and only if its program or first argument differs |
| KeyLaws.DriftOfTextExactly | devrepro/agents/manifest.py:445-466 | the same from the text of a manifest with one shell block |
| KeyLaws.ScriptsDiffer | devrepro/agents/manifest.py:455-457 | the documented example: two scripts run by one interpreter are different commands |
| CommandLaws.SplitYieldsPieces | devrepro/agents/manifest.py:218-232 | every command out of the splitter is trimmed, nonempty and free of separators, comments and line breaks |
| CommandLaws.PieceReread | devrepro/agents/manifest.py:218-232 | the splitter never splits its own output: a piece comes back as one command, or as none |
| CommandLaws.StableReadsBack | devrepro/agents/manifest.py:218-232 | a piece without prompt, comment mark and trailing backslash comes back unchanged |
| CommandLaws.KeyOfWords | devrepro/agents/manifest.py:519-550 | the key of a command depends on its whitespace-separated words only |
| CommandLaws.KeyedHasProgram | devrepro/agents/manifest.py:235-242 | a command with a key has a program, so the reader keeps it |
| CommandLaws.PromptHasNoKey | devrepro/agents/manifest.py:519-550 | a command that opens with a prompt has no key |
| CommandLaws.MarkerHasNoKey | devrepro/agents/manifest.py:519-550 | so has one that opens with `#`, `$` or `>`, unless it is a module run |
| AgentAuthor.SplitSetupAndGates | devrepro/agents/author.py:171-184 | the loop divides the commands into setup steps and checks, keeping order |
| DriftFree.SetupExactly | devrepro/agents/author.py:171-184 | a command is a setup step if and only if it starts, in lower case and single-spaced, like a listed installation command; otherwise it is a check |
| AgentAuthor.DedupeLoop | devrepro/agents/author.py:187-201 | the loop keeps the first command of each spelling, stripped |
| RoundTrip.DraftTextLines | devrepro/agents/author.py:204-316 | a draft is its lines with a newline after each, and splitting it gives them back |
| RoundTrip.ReadFenced | devrepro/agents/manifest.py:167-176 | between two fences lines are read in the state the first leaves, and the second flips the state they leave |
| RoundTrip.DraftDeclares | devrepro/agents/manifest.py:156-195 | whatever its commands, reading a draft declares what is seen of its blocks, each from the state it is entered in, and the prose after a block that leaves the reader inside |
| RoundTrip.PlainDraftDeclares | devrepro/agents/manifest.py:156-195 | without a fence among the commands exactly the setup steps and checks are declared, at their lines, and nothing of the prose |
| DriftFree.CiCommandsPieces | devrepro/agents/manifest.py:387-442 | whatever the workflows say, every command read out of them is a piece |
| DriftLimits.CiListsAreExactlyPieces | devrepro/agents/manifest.py:387-442 | a list is what CI runs under some workflows if and only if its commands are pieces |
| DriftFree.DedupeCovers | devrepro/agents/author.py:187-201 | every command survives deduplication up to its spacing |
| DriftFree.DedupeDistinct | devrepro/agents/author.py:187-201 | no two kept commands have the same words |
| DriftFree.DedupeKeepsFirsts | devrepro/agents/author.py:187-201 | exactly the first command of each spelling is kept, stripped, in order |
| DriftFree.ParseKeys | devrepro/agents/manifest.py:445-466 | reading lines declares a key if and only if a command on a line that is seen has it |
| DriftFree.PiecesKeys | devrepro/agents/manifest.py:445-466 | printed commands have the keys they are read back with, and no others |
| DriftFree.DraftKeys | devrepro/agents/author.py:13-17 | a key is declared by a draft if and only if a command the reader sees is read back with it, or prose it comes to read has it |
| DriftFree.NothingUnmentioned | devrepro/agents/manifest.py:445-466 | the drift list is empty if and only if every nonempty key is declared |
| DriftFree.UnmentionedExact | devrepro/agents/manifest.py:445-466 | the drift list holds CI commands with undeclared keys, one per key, and misses none |
| DriftFree.NoDriftExactly | devrepro/agents/author.py:13-17 | for every list of CI commands, fences among them or not: no drift if and only if every keyed command is matched by one the reader sees and reads back with its key, or by prose it comes to read |
| DriftFree.NoDriftWhenBalanced | devrepro/agents/author.py:13-17 | when each block leaves the reader outside, if and only if the commands seen match |
| DriftFree.NoDriftWithoutFences | devrepro/agents/author.py:13-17 | without fences, if and only if the commands of the draft match |
| DriftFree.FreshDraftHasNoDrift | devrepro/agents/author.py:13-17 | a draft of commands that are no fence and neither commented nor continued has no drift |
| DriftFree.FreshDraftAgreesWithWorkflows | devrepro/agents/author.py:13-17 | the same end to end: workflow texts, commands, draft, text, reader, comparison, empty list |
| DriftLimits.OneCommandExactly | devrepro/agents/author.py:13-17 | the drift of a one-command draft: none, or that command when it is read back with another key |
| DriftLimits.CommentReadsAsNothing | devrepro/agents/manifest.py:224-226 | a piece that opens with `#` is read back as nothing |
| DriftLimits.CommentedModuleRunDrifts | devrepro/agents/manifest.py:519-550 | a workflow whose one command is `#/py -m x`, and the draft of it, which has it as drift |
| DriftLimits.TrailingBackslashDrifts | devrepro/agents/manifest.py:218-232 | a workflow whose one command ends in a backslash, and the draft of it, which has it as drift |
| DriftLimits.FenceTurnsInsideOut | devrepro/agents/manifest.py:167-176 | a fence among a block's commands ends it: later commands are not read and the prose after it is |
| DriftLimits.FencesHide | devrepro/agents/manifest.py:167-176 | two fences hide exactly the commands between them |
| DriftLimits.FencedCommandDrifts | devrepro/agents/author.py:13-17 | a workflow with two fences around a command, and the draft of it, whose drift is that command |
| FencedDocuments.ReadsDocument | devrepro/agents/manifest.py:156-195 | of every document of prose and blocks the shell blocks up to the first block of another language are declared, with their line numbers, and from there on the prose and nothing else |
| FencedDocuments.PromiseKeptExactly | devrepro/agents/manifest.py:156-173 | exactly the shell blocks' lines are declared if and only if after the first block of another language no line of prose or of a shell block declares anything |
| FencedDocuments.ReadsShellBlocks | devrepro/agents/manifest.py:156-195 | so a document whose blocks are all shell blocks is read as promised |
| FencedDocuments.ProseAfterJsonIsDeclared | devrepro/agents/manifest.py:169-173 | the text of a `json` block, a line of prose and a shell block: the prose is declared and the shell block is not |
| FencedDocuments.OtherBlockTurnsInsideOut | devrepro/agents/manifest.py:169-173 | after a block of another language the rest is read from inside a shell block |
| CdLaws.StackRoundTrip | devrepro/agents/manifest.py:206-215 | a stack of segments and the directory it prints as determine each other |
| CdLaws.ApplyCdCanonical | devrepro/agents/manifest.py:198-215 | a `cd` leaves a canonical directory: the root or real segments, never above the root |
| CdLaws.ChangeDirectoryComposes | devrepro/agents/manifest.py:198-215 | moving by a and then by b is moving by a/b |
| CdLaws.CdComposes | devrepro/agents/manifest.py:198-215 | the same for the commands `cd a`, `cd b` and `cd a/b` |
| CdLaws.EnterSegment | devrepro/agents/manifest.py:206-215 | `cd s` adds s to the directory |
| CdLaws.EnterAndLeave | devrepro/agents/manifest.py:206-215 | `cd s` and then `cd ..` leads back |
| CdLaws.StaysPut | devrepro/agents/manifest.py:206-215 | `..` at the root and `.` anywhere lead nowhere else |
| CdLaws.LeavingIsRoot | devrepro/agents/manifest.py:200-205 | a bare `cd` and one to an absolute path, a home directory or a drive end at the root |
| CdLaws.QuotedTarget | devrepro/agents/manifest.py:203 | quotes around the target make no difference |
| CdLaws.CwdIsFold | devrepro/agents/manifest.py:183-194 | along a line each command's directory is the fold of the earlier `cd`s, and canonical |
| Versioning.ParseSpecLoop | devrepro/core/versioning.py:190-211 | the outer loop parses the alternatives, failing where one fails |
| Versioning.ParseGroupLoop | devrepro/core/versioning.py:194-209 | the inner loop parses the clauses of one alternative |
| VersionOrders.CmpVersionsPreorder | devrepro/core/versioning.py:90-114 | `_cmp_versions` is a total preorder, for three operands of any lengths |
| VersionOrders.CmpVersionsCongruence | devrepro/core/versioning.py:95-114 | versions that compare equal compare alike with every other |
| VersionOrders.CmpKeysTotalOrder | devrepro/core/versioning.py:50-78 | `_key` is a total order in which only equal numbers with equal tags tie |
| VersionOrders.PlainOrPadded | devrepro/core/versioning.py:90-99 | plain comparison is the padded one, ties decided by length |
| VersionOrders.OrdersDisagreeExactly | devrepro/core/versioning.py:50-114 | the two orders disagree if and only if the padded numbers tie and length or tag tells them apart as listed |
| VersionOrders.ReleaseOrderDiffers | devrepro/core/versioning.py:50-53 | a release and its pre-release are ordered oppositely by the two |
| SpecMeaning.ReleasesExactly | devrepro/core/versioning.py:90-99 | releases are ordered by major, then minor, then patch number |
| SpecMeaning.TagsExactly | devrepro/core/versioning.py:100-114 | of equal numbers the tagged come first, among themselves in the order of their characters |
| SpecMeaning.VersionReads | devrepro/core/versioning.py:28-48 | numbers between dots and a tag after a dash or plus are read as written; a leading `v` makes no difference |
| VersionOrders.EqualVersionsMeetSameSpecs | devrepro/core/versioning.py:124-149 | versions equal under `_cmp_versions` meet exactly the same specifications |
| VersionOrders.GroupConvex | devrepro/core/versioning.py:124-149 | a conjunction without `!=` accepts everything between two versions it accepts |
| SpecMeaning.AlternativesExactly | devrepro/core/versioning.py:148-149 | `a` or-ed with `b` by two bars is accepted if and only if a is or b is |
| SpecMeaning.EmptyAlternative | devrepro/core/versioning.py:207-210 | an alternative without a clause is no alternative |
| SpecMeaning.ConjunctionExactly | devrepro/core/versioning.py:148-149 | `a,b` is accepted if and only if both are |
| SpecMeaning.OperatorAccepts | devrepro/core/versioning.py:124-137 | what each operator before a version that is not partial accepts, by the order alone |
| SpecMeaning.BareAccepts | devrepro/core/versioning.py:160-173 | without an operator exactly the equal versions |
| SpecMeaning.AnyAccepts | devrepro/core/versioning.py:199-210 | a star, and no text, accept every version |
| SpecMeaning.DocumentedAlternatives | devrepro/core/versioning.py:12 | the documented form of alternatives accepts what both say, for all numbers |
| SpecRoundTrip.ParsedText | devrepro/core/versioning.py:28-48 | a parsed version keeps its trimmed text, which parses to the same version |
| SpecRoundTrip.ParseSpecShape | devrepro/core/versioning.py:190-211 | every parsed specification has nonempty groups of clauses that print stably or are a bare star |
| SpecRoundTrip.StableReparses | devrepro/core/versioning.py:151-187 | printing and parsing a stable clause gives the clause |
| SpecRoundTrip.SpecReparses | devrepro/core/versioning.py:151-211 | printing and parsing replaces bare stars by the range from 0.0.0 to 1.0.0 and changes nothing else |
| SpecRoundTrip.SpecRoundTripExactly | devrepro/core/versioning.py:151-211 | the round trip holds if and only if no clause is a bare star |
| SpecRoundTrip.PartialRange | devrepro/core/versioning.py:160-187 | the versions a partial bound accepts, for each operator |
| PartialVersions.PartialIsKept | devrepro/core/versioning.py:28-48 | how the numbers of a partial version relate to those its text starts with; without a tag they are the same |
| PartialVersions.MeansItsOperatorExactly | devrepro/core/versioning.py:160-187 | a partial version accepts what its operator says if and only if the operator is `!=`, or `<` or `<=` with a minor number, or `>=` without a tag |
| SpecRoundTrip.StrictBoundAdmitsMajor | devrepro/core/versioning.py:174-178 | `<M` accepts every release of major version M |
| Redaction.RedactLoop | devrepro/privacy/gate.py:96-108 | the loop over the variants and the account-name pass compute the model's substitutions |
| Redaction.Origin | devrepro/privacy/gate.py:96-108 | where an occurrence in a replaced text comes from: the text itself or the inside of a marker |
| Redaction.HomeLoopRemoves | devrepro/privacy/gate.py:98-101 | no variant without a tilde is left after the loop, whatever the order |
| Redaction.HomeLoopIdempotent | devrepro/privacy/gate.py:98-101 | a second loop changes nothing |
| Redaction.HomeHiddenExactly | devrepro/privacy/gate.py:89-101 | the home directory is hidden in every text if and only if it has no tilde |
| Redaction.UserPassAdds | devrepro/privacy/gate.py:102-108 | the account-name pass brings back no path |
| Redaction.UserHiddenExactly | devrepro/privacy/gate.py:102-108 | a name without angle brackets is gone as a word from every text if and only if it is not `user` and its ends are alike: both name characters or neither |
| Redaction.DoubledNameStays | devrepro/privacy/gate.py:102-108 | a name whose ends differ, written twice in a row, stays as a word |
| Redaction.ReplaceIsSplitJoin | devrepro/privacy/gate.py:99-101 | replacing cuts the text at the variant and joins the pieces with the marker, so nothing else is lost |
| Redaction.UnchangedExactly | devrepro/privacy/gate.py:96-108 | a text comes back unchanged if and only if there is nothing in it to hide |
| Redaction.GateLeavesNothing | devrepro/privacy/gate.py:89-108 | after both passes neither a variant of the home directory nor an account name the pass can hide is left |
| Redaction.VariantsExactly | devrepro/privacy/gate.py:89-94 | the spellings looked for are the directory as given, with forward slashes, with backslashes and as folded, and no others |
| Redaction.GateHidesSpellings | devrepro/privacy/gate.py:89-108 | none of those spellings is left |
| Redaction.HomeComesFirst | devrepro/privacy/gate.py:97-108 | the directory is replaced before the name in it: it becomes the tilde alone |
| Redaction.UserPassExactly | devrepro/privacy/gate.py:102-108 | the name pass puts the marker exactly in place of the leftmost whole-word occurrences and keeps the rest |
| Redaction.LongerWordStays | devrepro/privacy/gate.py:104-105 | a name that a letter, digit or underscore follows stays |
| Redaction.WordGoes | devrepro/privacy/gate.py:104-105 | a name that anything else follows goes |
| PathResolution.ResolveAllOnPath | devrepro/probes/helpers.py:43-95 | the nested loops over directories and candidates compute the resolution |
| PathResolution.ResolveInDirectory | devrepro/probes/helpers.py:69-94 | one directory's matches and the real paths seen after it |
| PathResolution.ResolveRefines | devrepro/probes/helpers.py:43-95 | the result is, in order, exactly the runnable hits no earlier runnable hit shadows |
| PathResolution.SeenExactly | devrepro/probes/helpers.py:85-94 | the real paths seen are those of the runnable hits and no others |
| PathResolution.MatchesDistinct | devrepro/probes/helpers.py:88-94 | the real paths of the result are pairwise distinct |
| PathResolution.MatchesComplete | devrepro/probes/helpers.py:88-94 | no runnable hit is missed |
| PathResolution.ResolveExtends | devrepro/probes/helpers.py:69-95 | appending directories only appends matches |
| ResolutionOrder.ExtensionBeforeBare | devrepro/probes/helpers.py:51-67 | on Windows the file with an extension is matched before the bare one |
| ResolutionOrder.ExtensionsInOrder | devrepro/probes/helpers.py:51-67 | of two extensions the one given first in PATHEXT is matched first |
| ResolutionOrder.WindowsFindsExactly | devrepro/probes/helpers.py:43-95 | every file of the command in a directory is found, by its program, and nothing else is |
| ResolutionOrder.PosixFindsExactly | devrepro/probes/helpers.py:68-95 | elsewhere exactly the executable file of the command's name is found |
| ResolutionOrder.DirectoriesOfPath | devrepro/probes/helpers.py:114-116 | the directories are what stands between the platform's separators |
| PathResolution.ClassifyPath | devrepro/probes/path_env.py:31-53 | entries, duplicates and dead entries of a PATH |
| PathResolution.RemovedAreTheReported | devrepro/probes/path_env.py:41-53 | following the advice on duplicates removes exactly the entries the probe lists as duplicates |
| PathResolution.RemovalIsSafeExactly | devrepro/probes/path_env.py:94-95 | on a given PATH, following the advice leaves a command's resolution alone if and only if all that a removed entry offers under its name is offered by an earlier entry |
| PathResolution.RemovalIsSafe | devrepro/probes/path_env.py:94-95 | the safe direction, without any assumption on the machine |
| PathResolution.InterchangeableIsSafe | devrepro/probes/path_env.py:94-95 | it is safe for every command when, of the entries on this PATH, later ones of a normal form offer no more than earlier ones and dead ones nothing |
| PathResolution.DeadOriginalLosesPrograms | devrepro/probes/path_env.py:41-53 | a dead entry that normalises to a live one after it makes the live one the duplicate, and removing that loses its programs |
| PathResolution.SafeAdviceLosesLs | devrepro/probes/path_env.py:94-95 | with `/nonexistent/../usr/bin:/usr/bin` the advice loses `ls` |
| Toolchains.MakePlan | devrepro/probes/toolchains.py:158-163 | the nested loops plan every match of every command, in order |
| Toolchains.DetectToolchain | devrepro/probes/toolchains.py:147-196 | the in-place collection gives the sequential result in every completion order |
| Toolchains.StepSound | devrepro/probes/toolchains.py:171-183 | each step of the pool keeps the invariant and brings the end one step nearer |
| Toolchains.StopsOnlyWhenDone | devrepro/probes/toolchains.py:171-183 | the pool can always go on until everything is collected |
| Toolchains.EveryRunAgrees | devrepro/probes/toolchains.py:171-183 | every interleaving takes the same number of steps and ends with the sequential versions, failures as none |
| Toolchains.FinishedRunsAreOrders | devrepro/probes/toolchains.py:176-183 | a finished run collects every index, so `DetectToolchain` covers it |
| Toolchains.OneActiveEach | devrepro/probes/toolchains.py:158-196 | the active installations are exactly the files a shell would run, one per command found |
| Toolchains.EveryInstallation | devrepro/probes/toolchains.py:158-196 | every installation PATH has of every command is reported, in order |
| Toolchains.InstallationSays | devrepro/probes/toolchains.py:185-196 | the fields of an installation: a failed version is none, the first is active, numbered when not the only one |
| Toolchains.CommandSays | devrepro/probes/toolchains.py:158-196 | the installations of one command are its files in the order of PATH, the first active, each numbered by its place when there are several |
| Toolchains.CommandsOfTool | devrepro/probes/toolchains.py:159-160 | all commands of a tool are gone through, in order |
| Watch.WatchLoop | devrepro/watch.py:185-227 | the polling loop over any run of polls reports what the state machine reports |
| Watch.DiffCovers | devrepro/watch.py:177-182 | a comparison names exactly the added, removed and changed paths |
| Watch.MovedExactly | devrepro/watch.py:162-182 | a comparison comes out empty if and only if nothing differs |
| Watch.MergeCovers | devrepro/watch.py:230-235 | merging two changes covers the comparison across both |
| Watch.ReportsAreInOrder | devrepro/watch.py:177-235 | every change reported lists its paths once and in order |
| Watch.RunTruthful | devrepro/watch.py:185-235 | over every run no change is lost and none invented, in reports and in what is pending |
| Watch.RunDebounced | devrepro/watch.py:210-227 | over every run reports wait out the quiet period, have a change between them, and take at most half the polls |
| Watch.PendingIsReported | devrepro/watch.py:216-225 | a pending change followed by quiet polls is reported at the first that reaches the settling time |
| Timeline.ToolMapLoop | devrepro/drift/timeline.py:36-41 | the loop fills the name-to-version map, later records winning |
| Timeline.BuildTimeline | devrepro/drift/timeline.py:55-79 | the loop over snapshots logs every transition |
| Timeline.EventsExactly | devrepro/drift/timeline.py:55-79 | the log holds a change if and only if the value differs across the transition |
| Timeline.EventsInOrder | devrepro/drift/timeline.py:55-79 | at most one event per transition, component and name, in order of transition |
| Timeline.LogIsExactlyTrue | devrepro/drift/timeline.py:36-79 | the log holds exactly the events that are true of the snapshots' own records, with their kinds |
| Timeline.LogIsSorted | devrepro/drift/timeline.py:55-79 | by transition, tools before containers, each by name |
| Timeline.LogReplays | devrepro/drift/timeline.py:55-79 | replaying the log gives the last snapshot's map and undoing it gives the empty one |
| Timeline.SnapshotFromLog | devrepro/drift/timeline.py:55-79 | replaying the events up to an index gives that snapshot's map |
| Timeline.DirectHintIsLast | devrepro/drift/timeline.py:82-101 | a direct hint is the transition after which the value never changed again |
| Timeline.HintIsFirstExactly | devrepro/drift/timeline.py:5-6 | a direct hint is the first change, as documented, if and only if there was only one |
| Timeline.HintSkipsFirstChange | devrepro/drift/timeline.py:93-95 | a history whose first change is not the hint |
| Timeline.IndirectHints | devrepro/drift/timeline.py:96-101 | without a change of its own the hints are the first three tools of the last transition with any change |
| SnapshotDiff.DiffSnapshots | devrepro/diff/engine.py:115-342 | the sections appended one by one give the diff |
| SnapshotDiff.DiffSwaps | devrepro/diff/engine.py:115-342 | comparing the other way round gives the same entries with their sides exchanged |
| SnapshotDiff.SilentExactly | devrepro/diff/engine.py:115-342 | a diff reports no difference if and only if the two sides agree on everything it compares |
| DiffMeaning.DiffExactly | devrepro/diff/engine.py:115-342 | an entry is in the diff if and only if it is true of the snapshots: for each field that differs and each tool, A's value on the A side and B's on the B side |
| DiffMeaning.NoEntryTwice | devrepro/diff/engine.py:115-342 | no entry is given twice |
| SnapshotDiff.DiffOfSelf | devrepro/diff/engine.py:115-342 | a snapshot compared with itself has only entries that say the same |
| SnapshotDiff.DiffDeterminesTools | devrepro/diff/engine.py:140-207 | one side's tool versions and the entries determine the other side's |
| SnapshotDiff.OneToolEntryPerName | devrepro/diff/engine.py:140-207 | exactly one tool entry per name either side has, in order of name |
| GitConfig.ReadConfigLoop | devrepro/git/health.py:126-167 | the loop that appends entries and rewrites the last one reads the output line by line |
| GitConfig.ReadInvertsPrint | devrepro/git/health.py:112-167 | reading git's line form gives back the entries, continuation lines included, if and only if no key has `=` or a line break, no value a line break but the newline, no continuation line a tab, and the last value no whitespace at its end |
| GitConfig.IndentedHelperIsLost | devrepro/git/health.py:152-167 | a value whose second line starts with a tab is not read back |
| GitConfig.ReadLinesCount | devrepro/git/health.py:155-167 | lines give at most as many lines of values as they are, and when that many, an entry for each that has a tab |
| GitConfig.ReadIsClean | devrepro/git/health.py:155-167 | whatever the output, no key that is read has `=` or a line break in it and no value a line break but the newline |
| GitConfig.EqualsInKeyIsCut | devrepro/git/health.py:157-162 | what a key with `=` in it is read as: cut at the first one, the rest joining the value, or dropped when it starts with it |
| GitConfig.LookupIsLastWins | devrepro/git/health.py:170-175 | the backward search is lookup in the last-wins map, an empty value read as none |
| Mounts.ParseProcMountsLoop | devrepro/platforms/mounts.py:68-83 | the loop over lines and the stable sort give the mount list, an undecodable point failing |
| Mounts.FindMountLoop | devrepro/platforms/mounts.py:143-144 | the search with early return finds the first mount above the path |
| Mounts.LongestMountWins | devrepro/platforms/mounts.py:82-83 | the first match in the sorted list is the longest mount above the path, the first listed of those |
| Mounts.SlowExactly | devrepro/platforms/mounts.py:101-163 | the verdict is unknown if and only if no mount is above the path, and slow if and only if the longest one is of a slow type |
| Mounts.WindowsVerdict | devrepro/platforms/mounts.py:86-127 | on Windows a path is on a share if and only if it starts with two slashes of one kind |
| Mounts.DriveVerdict | devrepro/platforms/mounts.py:129-141 | from WSL a path below a drive letter in `/mnt` crosses into Windows |
| Mounts.OtherVerdict | devrepro/platforms/mounts.py:143-169 | any other path is judged by its mount alone |
| Mounts.UnderIsSegmentPrefix | devrepro/platforms/mounts.py:143-144 | a path is under a mount point if and only if the point's segments begin the path's |
| Mounts.DecodeEncode | devrepro/platforms/mounts.py:71-80 | octal decoding undoes the escaping of space, tab, newline and backslash |
| Mounts.MountTableLookup | devrepro/platforms/mounts.py:68-144 | from a mount table's text to the mount a path is on |
| Mounts.OutputLineIsMisread | devrepro/platforms/mounts.py:65-80 | a line `device on point ...` gives the mount point `on` and the point as the type |
| Mounts.MountOutputFindsNothing | devrepro/platforms/mounts.py:68-144 | from output of such lines no absolute path is on any mount |
| ReportCache.Cache.constructor | devrepro/mcp/protocol.py:108-120 | a new cache holds nothing |
| ReportCache.Cache.Get | devrepro/mcp/protocol.py:122-136 | the new state and the answer of a call; a scanner that raises leaves the state as it was |
| ReportCache.ScansExactly | devrepro/mcp/protocol.py:122-136 | a call scans if and only if it asks for it, nothing is kept, or what is kept is too old, and what it answers and keeps then |
| ReportCache.HoldsLastScan | devrepro/mcp/protocol.py:122-136 | over every run the cache holds the report and time of the last scan |
| ReportCache.AnswersAreRecent | devrepro/mcp/protocol.py:122-136 | every answer is the last scan's, recent enough or made by the call, and fresh if and only if the count grew |
| ReportCache.ScanRate | devrepro/mcp/protocol.py:122-136 | without refresh, k scans take at least k - 1 times the cache period |
| ReportCache.AnswersItsRootExactly | devrepro/mcp/protocol.py:122-136 | an answer is a report on the root asked about if and only if the last call that scanned asked about that root |
| ReportCache.OneRootExactly | devrepro/mcp/protocol.py:122-136 | every run over a list of roots answers each call about its own root if and only if the list names one root |
| ReportCache.RootsShareOneReport | devrepro/mcp/protocol.py:122-136 | a call about a second root in time gets the report on the first |

## Left out

- NoDriftExactly: supposes, as all results about drafts do (`NamesFit`), that the names a draft shows hold no line break; a directory name with a line break in it, which may put a line of its own such as a fence into the draft, is not covered.
- ReadInvertsPrint: is for what git always prints, a scope without tab or break and a key that is not empty and neither starts nor ends in whitespace; a setting git prints without `=`, read as one with an empty value, is not part of the model.
- PromiseKeptExactly: is for documents whose closing fences carry no language and whose last block is closed.
- UserHiddenExactly: is for account names without `<` and `>`, which the marker itself is made of.
- RemovalIsSafeExactly: its only-if half supposes that entries whose files join to one path have one normal form, which holds of textual joining and `normpath` unless a directory's name is blank.
- HomeHiddenExactly: assumes that folding case on Windows is per character and leaves `~`, `<`, `>` and `\` alone.
- PathStem: follows POSIX path rules, as `Path.stem` does there; Windows path rules are not part of the key model.
- Unicode: `isalnum` and `lower` are parameters of the command model, digits in versions, mount escapes and fences are the ASCII ones, and whitespace is the table in `Strings`.
- The email, private-host and secret patterns of the privacy gate, which run after the two passes modelled.
- `Path.resolve`, `normpath`, `normcase`, directory listings and access bits are functions of an abstract machine.
- `watched_paths` and `fingerprint`: each poll sees some map from path to digest; the endless watch loop is every finite run of it.
- Clock readings are real numbers, not floats.
- Mount verdicts without their explanations and diff entries without detail texts; the A-only and B-only labels are kept as counts; the platform section takes the key set in any given order.
- Snapshot documents are taken as already decoded, with the fields the timeline reads.
- Reading files, the 200,000-character limit, workflow globbing and sorting: the workflow texts are a list.
- A git too old for `--show-scope`, and the credential helper and submodule readers.
- The version regex of each tool, `find_duplicates` and the install-source table: one version command is one answer or one exception.
- Plain `satisfies`, `check_declared_commands`, MCP transport and everything that only probes or renders.
