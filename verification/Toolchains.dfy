/** Detecting installed tools (devrepro/probes/toolchains.py): whatever order the version commands
    complete in, the result is that of asking one after the other. */
module Toolchains {
  import opened Strings
  import PathResolution

  datatype ToolSpec = ToolSpec(name: string, commands: seq<string>, versionArgs: seq<string>, pattern: Option<string>)

  /** What asking an executable for its version comes to: an answer, perhaps unreadable, or an exception. */
  datatype Answer = Read(version: Option<string>) | Raised

  datatype Machine = Machine(
    host: PathResolution.Host,
    path: string,
    ask: (ToolSpec, string) -> Answer,
    sourceOf: string -> string)

  datatype Planned = Planned(spec: ToolSpec, exe: string, precedence: nat, total: nat)

  datatype Installation = Installation(
    name: string, version: Option<string>, exePath: string, source: string, isActive: bool, precedence: Option<nat>)

  function Resolved(m: Machine, command: string): seq<string> {
    PathResolution.Resolve(m.host, command, PathResolution.PathEntries(m.host, m.path))
  }

  function VersionOf(m: Machine, p: Planned): Option<string> {
    match m.ask(p.spec, p.exe) case Read(version) => version case Raised => None
  }

  // ---------------------------------------------------------------- the plan

  function CommandsOf(spec: ToolSpec, commands: seq<string>): seq<(ToolSpec, string)> {
    if commands == [] then [] else [(spec, commands[0])] + CommandsOf(spec, commands[1..])
  }

  /** Every command of every tool, in order. */
  function Commands(specs: seq<ToolSpec>): seq<(ToolSpec, string)> {
    if specs == [] then [] else CommandsOf(specs[0], specs[0].commands) + Commands(specs[1..])
  }

  function Group(spec: ToolSpec, matches: seq<string>): seq<Planned> {
    seq(|matches|, k requires 0 <= k < |matches| => Planned(spec, matches[k], k, |matches|))
  }

  function Plan(m: Machine, commands: seq<(ToolSpec, string)>): seq<Planned> {
    if commands == [] then []
    else Group(commands[0].0, Resolved(m, commands[0].1)) + Plan(m, commands[1..])
  }

  lemma {:induction false} PlanConcat(m: Machine, a: seq<(ToolSpec, string)>, b: seq<(ToolSpec, string)>)
    ensures Plan(m, a + b) == Plan(m, a) + Plan(m, b)
  {
    hide Group;
    if a == [] {
      assert a + b == b;
    } else {
      assert (a + b)[1..] == a[1..] + b;
      PlanConcat(m, a[1..], b);
    }
  }

  method MakePlan(m: Machine, specs: seq<ToolSpec>) returns (planned: seq<Planned>)
    ensures planned == Plan(m, Commands(specs))
  {
    hide Resolved, Plan, Group;
    planned := [];
    assert specs[0..] == specs;
    for i := 0 to |specs|
      invariant planned + Plan(m, Commands(specs[i..])) == Plan(m, Commands(specs))
    {
      var spec := specs[i];
      assert specs[i..][1..] == specs[i + 1..];
      PlanConcat(m, CommandsOf(spec, spec.commands), Commands(specs[i + 1..]));
      planned := PlanTool(m, spec, planned);
    }
    PlanOfNone(m);
  }

  lemma PlanOfNone(m: Machine)
    ensures Plan(m, []) == []
  {
  }

  /** The two inner loops: one tool's commands, and each one's matches. */
  method PlanTool(m: Machine, spec: ToolSpec, before: seq<Planned>) returns (planned: seq<Planned>)
    ensures planned == before + Plan(m, CommandsOf(spec, spec.commands))
  {
    hide Resolved;
    planned := before;
    var commands := spec.commands;
    assert commands[0..] == commands;
    for i := 0 to |commands|
      invariant planned + Plan(m, CommandsOf(spec, commands[i..])) == before + Plan(m, CommandsOf(spec, commands))
    {
      var matches := Resolved(m, commands[i]);
      ghost var sofar := planned;
      assert commands[i..][1..] == commands[i + 1..];
      assert CommandsOf(spec, commands[i..]) == [(spec, commands[i])] + CommandsOf(spec, commands[i + 1..]);
      for precedence := 0 to |matches|
        invariant planned == sofar + Group(spec, matches)[..precedence]
      {
        planned := planned + [Planned(spec, matches[precedence], precedence, |matches|)];
      }
    }
  }

  // ---------------------------------------------------------------- one after the other

  function Installed(m: Machine, p: Planned, version: Option<string>): Installation {
    Installation(p.spec.name, version, p.exe, m.sourceOf(p.exe), p.precedence == 0,
      if p.total > 1 then Some(p.precedence) else None)
  }

  /** The installations when each executable is asked in turn. */
  function Detected(m: Machine, plan: seq<Planned>): seq<Installation> {
    seq(|plan|, i requires 0 <= i < |plan| => Installed(m, plan[i], VersionOf(m, plan[i])))
  }

  /** An order the futures can be collected in: every index, and no others. */
  predicate IsOrder(order: seq<nat>, n: nat) {
    && (forall k | 0 <= k < |order| :: order[k] < n)
    && (forall i | 0 <= i < n :: i in order)
  }

  /** `detect_toolchain`, the futures collected in the given order. */
  method DetectToolchain(m: Machine, specs: seq<ToolSpec>, order: seq<nat>) returns (installs: seq<Installation>)
    requires IsOrder(order, |Plan(m, Commands(specs))|)
    ensures installs == Detected(m, Plan(m, Commands(specs)))
  {
    hide Plan, Commands, Installed;
    var planned := MakePlan(m, specs);
    if planned == [] {
      return [];
    }
    var versions := new Option<string>[|planned|](_ => None);
    for k := 0 to |order|
      invariant forall i | 0 <= i < |planned| :: i in order[..k] ==> versions[i] == VersionOf(m, planned[i])
    {
      versions[order[k]] := match m.ask(planned[order[k]].spec, planned[order[k]].exe)
        case Read(version) => version
        case Raised => None;
      assert versions[order[k]] == VersionOf(m, planned[order[k]]);
    }
    installs := [];
    for i := 0 to |planned|
      invariant |installs| == i
      invariant forall j | 0 <= j < i :: installs[j] == Installed(m, planned[j], VersionOf(m, planned[j]))
    {
      assert order[..|order|] == order;
      installs := installs + [Installed(m, planned[i], versions[i])];
    }
  }

  // ---------------------------------------------------------------- the thread pool

  /** The pool and its collector: how many futures have started, which are running, which have finished
      without being collected, and the versions collected. */
  datatype Pool = Pool(started: nat, running: set<nat>, finished: set<nat>, versions: seq<Option<string>>)

  datatype Event = Start | Finish(index: nat) | Collect(index: nat)

  function Submitted(n: nat): Pool { Pool(0, {}, {}, seq(n, _ => None)) }

  /** A worker takes the oldest waiting future; running ones finish, and finished ones are collected, in any order. */
  predicate Can(n: nat, workers: nat, p: Pool, e: Event) {
    match e
    case Start => p.started < n && |p.running| < workers
    case Finish(i) => i in p.running
    case Collect(i) => i in p.finished
  }

  function Step(m: Machine, plan: seq<Planned>, p: Pool, e: Event): Pool {
    match e
    case Start => p.(started := p.started + 1, running := p.running + {p.started})
    case Finish(i) => p.(running := p.running - {i}, finished := p.finished + {i})
    case Collect(i) =>
      if i < |plan| && i < |p.versions| then
        p.(finished := p.finished - {i}, versions := p.versions[i := VersionOf(m, plan[i])])
      else p
  }

  predicate CanRun(m: Machine, plan: seq<Planned>, workers: nat, p: Pool, events: seq<Event>)
    decreases |events|
  {
    events == [] || (Can(|plan|, workers, p, events[0]) && CanRun(m, plan, workers, Step(m, plan, p, events[0]), events[1..]))
  }

  function After(m: Machine, plan: seq<Planned>, p: Pool, events: seq<Event>): Pool
    decreases |events|
  {
    if events == [] then p else After(m, plan, Step(m, plan, p, events[0]), events[1..])
  }

  /** What every step keeps: no more running than workers, and every future that has gone through
      has its version at its own index. */
  ghost predicate Sound(m: Machine, plan: seq<Planned>, workers: nat, p: Pool) {
    && p.started <= |plan| == |p.versions|
    && |p.running| <= workers
    && p.running !! p.finished
    && (forall i | i in p.running + p.finished :: i < p.started)
    && (forall i | 0 <= i < p.started ::
          i in p.running || i in p.finished || p.versions[i] == VersionOf(m, plan[i]))
  }

  /** The steps still to be taken. */
  function Left(n: nat, p: Pool): int { 3 * (n - p.started) + 2 * |p.running| + |p.finished| }

  lemma StartSound(m: Machine, plan: seq<Planned>, workers: nat, p: Pool)
    requires Sound(m, plan, workers, p) && Can(|plan|, workers, p, Start)
    ensures Sound(m, plan, workers, Step(m, plan, p, Start))
    ensures Left(|plan|, Step(m, plan, p, Start)) == Left(|plan|, p) - 1
  {
    hide VersionOf;
    var q := Step(m, plan, p, Start);
    assert p.started !in p.running && p.started !in p.finished by {
      assert forall i | i in p.running + p.finished :: i < p.started;
    }
    assert |q.running| == |p.running| + 1;
    forall i | i in q.running + q.finished ensures i < q.started { assert i == p.started || i in p.running + p.finished; }
  }

  lemma FinishSound(m: Machine, plan: seq<Planned>, workers: nat, p: Pool, i: nat)
    requires Sound(m, plan, workers, p) && i in p.running
    ensures Sound(m, plan, workers, Step(m, plan, p, Finish(i)))
    ensures Left(|plan|, Step(m, plan, p, Finish(i))) == Left(|plan|, p) - 1
  {
    hide VersionOf;
    var q := Step(m, plan, p, Finish(i));
    assert q.running + q.finished == p.running + p.finished;
    assert |q.running| == |p.running| - 1 && |q.finished| == |p.finished| + 1;
  }

  lemma CollectSound(m: Machine, plan: seq<Planned>, workers: nat, p: Pool, i: nat)
    requires Sound(m, plan, workers, p) && i in p.finished
    ensures Sound(m, plan, workers, Step(m, plan, p, Collect(i)))
    ensures Left(|plan|, Step(m, plan, p, Collect(i))) == Left(|plan|, p) - 1
  {
    hide VersionOf;
    var q := Step(m, plan, p, Collect(i));
    assert i in p.running + p.finished;
    assert q.running + q.finished == p.running + p.finished - {i};
    assert |q.finished| == |p.finished| - 1;
  }

  lemma StepSound(m: Machine, plan: seq<Planned>, workers: nat, p: Pool, e: Event)
    requires Sound(m, plan, workers, p) && Can(|plan|, workers, p, e)
    ensures Sound(m, plan, workers, Step(m, plan, p, e))
    ensures Left(|plan|, Step(m, plan, p, e)) == Left(|plan|, p) - 1
  {
    hide Sound, Left, Step;
    match e
    case Start => StartSound(m, plan, workers, p);
    case Finish(i) => FinishSound(m, plan, workers, p, i);
    case Collect(i) => CollectSound(m, plan, workers, p, i);
  }

  /** The pool can always go on until everything is collected. */
  lemma StopsOnlyWhenDone(m: Machine, plan: seq<Planned>, workers: nat, p: Pool)
    requires Sound(m, plan, workers, p) && workers > 0
    ensures (forall e :: !Can(|plan|, workers, p, e)) <==> Left(|plan|, p) == 0
  {
    if p.finished != {} {
      var i :| i in p.finished;
      assert Can(|plan|, workers, p, Collect(i));
    } else if p.running != {} {
      var i :| i in p.running;
      assert Can(|plan|, workers, p, Finish(i));
    } else if p.started < |plan| {
      assert Can(|plan|, workers, p, Start);
    }
  }

  lemma {:induction false} RunSound(m: Machine, plan: seq<Planned>, workers: nat, p: Pool, events: seq<Event>)
    requires Sound(m, plan, workers, p) && CanRun(m, plan, workers, p, events)
    ensures Sound(m, plan, workers, After(m, plan, p, events))
    ensures Left(|plan|, After(m, plan, p, events)) == Left(|plan|, p) - |events|
    decreases |events|
  {
    hide Sound, Left, Step, Can;
    if events != [] {
      StepSound(m, plan, workers, p, events[0]);
      RunSound(m, plan, workers, Step(m, plan, p, events[0]), events[1..]);
    }
  }

  /** Every run of the pool that cannot go on has taken three steps per executable, whatever the
      interleaving, and has collected the versions of the sequential loop. */
  lemma EveryRunAgrees(m: Machine, plan: seq<Planned>, workers: nat, events: seq<Event>)
    requires workers > 0 && CanRun(m, plan, workers, Submitted(|plan|), events)
    ensures var end := After(m, plan, Submitted(|plan|), events);
      && |events| <= 3 * |plan|
      && |end.running| <= workers
      && |end.versions| == |plan|
      && ((forall e :: !Can(|plan|, workers, end, e)) <==> |events| == 3 * |plan|)
      && (|events| == 3 * |plan| ==> forall i | 0 <= i < |plan| :: end.versions[i] == VersionOf(m, plan[i]))
  {
    hide VersionOf, CanRun, After, Can;
    var start := Submitted(|plan|);
    assert Sound(m, plan, workers, start);
    RunSound(m, plan, workers, start, events);
    var end := After(m, plan, start, events);
    assert Left(|plan|, end) >= 0;
    StopsOnlyWhenDone(m, plan, workers, end);
  }

  function CollectOrder(events: seq<Event>): seq<nat> {
    if events == [] then []
    else (if events[0].Collect? then [events[0].index] else []) + CollectOrder(events[1..])
  }

  lemma {:induction false} CollectsInRange(m: Machine, plan: seq<Planned>, workers: nat, p: Pool, events: seq<Event>)
    requires Sound(m, plan, workers, p) && CanRun(m, plan, workers, p, events)
    ensures forall k | 0 <= k < |CollectOrder(events)| :: CollectOrder(events)[k] < |plan|
    decreases |events|
  {
    hide Left, Step, VersionOf;
    if events != [] {
      StepSound(m, plan, workers, p, events[0]);
      CollectsInRange(m, plan, workers, Step(m, plan, p, events[0]), events[1..]);
      assert events[0].Collect? ==> events[0].index in p.running + p.finished;
    }
  }

  /** A future that is through at the end and was not at the start has been collected. */
  lemma {:induction false} ThroughMeansCollected(m: Machine, plan: seq<Planned>, p: Pool, events: seq<Event>, i: nat)
    requires i >= p.started || i in p.running || i in p.finished
    requires var end := After(m, plan, p, events); i < end.started && i !in end.running && i !in end.finished
    ensures i in CollectOrder(events)
    decreases |events|
  {
    hide VersionOf;
    if events != [] && events[0] != Collect(i) {
      ThroughMeansCollected(m, plan, Step(m, plan, p, events[0]), events[1..], i);
    }
  }

  /** The orders `DetectToolchain` is proved for include that of every finished run of the pool. */
  lemma FinishedRunsAreOrders(m: Machine, plan: seq<Planned>, workers: nat, events: seq<Event>)
    requires workers > 0 && CanRun(m, plan, workers, Submitted(|plan|), events) && |events| == 3 * |plan|
    ensures IsOrder(CollectOrder(events), |plan|)
  {
    hide VersionOf, CanRun, After, Can, Step, CollectOrder;
    var start := Submitted(|plan|);
    assert Sound(m, plan, workers, start);
    RunSound(m, plan, workers, start, events);
    CollectsInRange(m, plan, workers, start, events);
    var end := After(m, plan, start, events);
    assert |end.running| == 0 && |end.finished| == 0 && end.started == |plan|;
    forall i | 0 <= i < |plan| ensures i in CollectOrder(events) {
      ThroughMeansCollected(m, plan, start, events, i);
    }
  }

  // ---------------------------------------------------------------- which installation is active

  function Actives(installs: seq<Installation>): seq<Installation> {
    if installs == [] then []
    else (if installs[0].isActive then [installs[0]] else []) + Actives(installs[1..])
  }

  /** The first hit the machine would run. */
  function FirstRunnable(host: PathResolution.Host, hits: seq<string>): Option<string> {
    if hits == [] then None
    else if PathResolution.Accepted(host, hits[0]) then Some(hits[0])
    else FirstRunnable(host, hits[1..])
  }

  /** The file a shell would run for the command. */
  function WhichOne(m: Machine, command: string): Option<string> {
    FirstRunnable(m.host, PathResolution.Hits(m.host, PathResolution.Candidates(m.host, command),
      PathResolution.PathEntries(m.host, m.path)))
  }

  /** Tool and file of every command a shell would find. */
  function Runnable(m: Machine, commands: seq<(ToolSpec, string)>): seq<(string, string)> {
    if commands == [] then []
    else
      var here := match WhichOne(m, commands[0].1) case None => [] case Some(exe) => [(commands[0].0.name, exe)];
      here + Runnable(m, commands[1..])
  }

  function NamesAndPaths(installs: seq<Installation>): seq<(string, string)> {
    if installs == [] then [] else [(installs[0].name, installs[0].exePath)] + NamesAndPaths(installs[1..])
  }

  lemma {:induction false} FirstMatchIsRunnable(host: PathResolution.Host, hits: seq<string>)
    ensures FirstRunnable(host, hits) ==
      var matches := PathResolution.Matches(host, hits, {}); if matches == [] then None else Some(matches[0])
  {
    if hits != [] { FirstMatchIsRunnable(host, hits[1..]); }
  }

  lemma {:induction false} ActivesConcat(x: seq<Installation>, y: seq<Installation>)
    ensures Actives(x + y) == Actives(x) + Actives(y)
  {
    if x == [] {
      assert x + y == y;
    } else {
      ActivesConcat(x[1..], y);
      ActivesCons(x[0], x[1..]);
      ActivesCons(x[0], x[1..] + y);
      assert [x[0]] + x[1..] == x;
      assert [x[0]] + (x[1..] + y) == x + y;
    }
  }

  lemma ActivesCons(first: Installation, rest: seq<Installation>)
    ensures Actives([first] + rest) == (if first.isActive then [first] else []) + Actives(rest)
  {
    assert ([first] + rest)[1..] == rest;
  }

  lemma {:induction false} NoActives(installs: seq<Installation>)
    requires forall i | 0 <= i < |installs| :: !installs[i].isActive
    ensures Actives(installs) == []
  {
    if installs != [] { NoActives(installs[1..]); }
  }

  /** In one command's group the first match, and only it, is active. */
  lemma GroupActive(m: Machine, spec: ToolSpec, command: string)
    ensures NamesAndPaths(Actives(Detected(m, Group(spec, Resolved(m, command))))) == Runnable(m, [(spec, command)])
  {
    hide PathResolution.Matches, PathResolution.Hits, PathResolution.Candidates, PathResolution.PathEntries, VersionOf,
      FirstRunnable;
    var here := Detected(m, Group(spec, Resolved(m, command)));
    FirstMatchIsRunnable(m.host, PathResolution.Hits(m.host, PathResolution.Candidates(m.host, command),
      PathResolution.PathEntries(m.host, m.path)));
    assert [(spec, command)][1..] == [];
    if here != [] {
      NoActives(here[1..]);
      assert Actives(here) == [here[0]];
      assert NamesAndPaths([here[0]]) == [(here[0].name, here[0].exePath)];
    }
  }

  lemma {:induction false} NamesConcat(x: seq<Installation>, y: seq<Installation>)
    ensures NamesAndPaths(x + y) == NamesAndPaths(x) + NamesAndPaths(y)
  {
    if x == [] {
      assert x + y == y;
    } else {
      assert (x + y)[1..] == x[1..] + y;
      NamesConcat(x[1..], y);
    }
  }

  /** The active installations are exactly the files a shell would run, one for each command found on PATH. */
  lemma {:induction false} OneActiveEach(m: Machine, commands: seq<(ToolSpec, string)>)
    ensures NamesAndPaths(Actives(Detected(m, Plan(m, commands)))) == Runnable(m, commands)
  {
    hide WhichOne, Group, Resolved, Installed, VersionOf;
    if commands != [] {
      var (spec, command) := commands[0];
      var group, rest := Group(spec, Resolved(m, command)), Plan(m, commands[1..]);
      assert Plan(m, commands) == group + rest;
      assert Detected(m, group + rest) == Detected(m, group) + Detected(m, rest);
      ActivesConcat(Detected(m, group), Detected(m, rest));
      NamesConcat(Actives(Detected(m, group)), Actives(Detected(m, rest)));
      GroupActive(m, spec, command);
      assert [(spec, command)][1..] == [];
      assert Runnable(m, [(spec, command)]) + Runnable(m, commands[1..]) == Runnable(m, commands);
      OneActiveEach(m, commands[1..]);
    }
  }

  // ---------------------------------------------------------------- what an installation says

  /** Each installation found is the planned one, with the version its executable answered, none when it
      failed, active when it is the first of its command, and numbered when it is not the only one. */
  lemma InstallationSays(m: Machine, plan: seq<Planned>, i: nat)
    requires i < |plan|
    ensures var found, p := Detected(m, plan)[i], plan[i];
      && found.name == p.spec.name && found.exePath == p.exe && found.source == m.sourceOf(p.exe)
      && (m.ask(p.spec, p.exe).Raised? ==> found.version == None)
      && (forall v :: m.ask(p.spec, p.exe) == Read(v) ==> found.version == v)
      && (found.isActive <==> p.precedence == 0)
      && (found.precedence == if p.total > 1 then Some(p.precedence) else None)
  {
  }

  lemma {:induction false} CommandsOfOne(spec: ToolSpec, commands: seq<string>)
    ensures |CommandsOf(spec, commands)| == |commands|
    ensures forall j | 0 <= j < |commands| :: CommandsOf(spec, commands)[j] == (spec, commands[j])
  {
    if commands != [] { CommandsOfOne(spec, commands[1..]); }
  }

  /** The commands gone through are those of each tool, tool after tool. */
  lemma {:induction false} CommandsConcat(a: seq<ToolSpec>, b: seq<ToolSpec>)
    ensures Commands(a + b) == Commands(a) + Commands(b)
  {
    hide CommandsOf;
    if a == [] {
      assert a + b == b;
    } else {
      assert (a + b)[1..] == a[1..] + b;
      CommandsConcat(a[1..], b);
    }
  }

  lemma CommandsOfTool(spec: ToolSpec)
    ensures |Commands([spec])| == |spec.commands|
    ensures forall j | 0 <= j < |spec.commands| :: Commands([spec])[j] == (spec, spec.commands[j])
  {
    assert [spec][1..] == [] && Commands([]) == [];
    CommandsOfOne(spec, spec.commands);
  }

  /** Tool and path of everything PATH has for the commands, command after command. */
  function AllFound(m: Machine, commands: seq<(ToolSpec, string)>): seq<(string, string)> {
    if commands == [] then []
    else
      var found := PathResolution.Resolve(m.host, commands[0].1, PathResolution.PathEntries(m.host, m.path));
      seq(|found|, k requires 0 <= k < |found| => (commands[0].0.name, found[k])) + AllFound(m, commands[1..])
  }

  lemma {:induction false} NamesAt(installs: seq<Installation>)
    ensures |NamesAndPaths(installs)| == |installs|
    ensures forall i | 0 <= i < |installs| :: NamesAndPaths(installs)[i] == (installs[i].name, installs[i].exePath)
  {
    if installs != [] { NamesAt(installs[1..]); }
  }

  /** Every installation on PATH is reported, none twice, in the order of PATH. */
  lemma {:induction false} EveryInstallation(m: Machine, commands: seq<(ToolSpec, string)>)
    ensures NamesAndPaths(Detected(m, Plan(m, commands))) == AllFound(m, commands)
  {
    hide PathResolution.Resolve, PathResolution.PathEntries, VersionOf;
    if commands != [] {
      var (spec, command) := commands[0];
      var found := Resolved(m, command);
      var group, rest := Group(spec, found), Plan(m, commands[1..]);
      assert Plan(m, commands) == group + rest;
      assert Detected(m, group + rest) == Detected(m, group) + Detected(m, rest);
      NamesConcat(Detected(m, group), Detected(m, rest));
      NamesAt(Detected(m, group));
      assert NamesAndPaths(Detected(m, group)) == seq(|found|, k requires 0 <= k < |found| => (spec.name, found[k]));
      EveryInstallation(m, commands[1..]);
    }
  }

  /** The installations of one command are its files in the order of PATH: the first is active, and each
      is numbered by its place when there are several. */
  lemma CommandSays(m: Machine, spec: ToolSpec, command: string, k: nat)
    requires k < |Resolved(m, command)|
    ensures var found, paths := Detected(m, Plan(m, [(spec, command)])), Resolved(m, command);
      && |found| == |paths| && found[k].name == spec.name && found[k].exePath == paths[k]
      && (found[k].isActive <==> k == 0)
      && (found[k].precedence == if |paths| > 1 then Some(k) else None)
  {
    hide Resolved, VersionOf;
    assert [(spec, command)][1..] == [] && Plan(m, []) == [];
    var paths := Resolved(m, command);
    assert Plan(m, [(spec, command)]) == Group(spec, paths);
    InstallationSays(m, Group(spec, paths), k);
  }
}
