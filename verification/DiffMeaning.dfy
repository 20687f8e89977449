/** What every entry of a snapshot diff says (devrepro/diff/engine.py), stated of the two snapshots field by
    field: the A side is A's value and the B side B's, and there is an entry exactly where they differ. */
module DiffMeaning {
  import opened Strings
  import opened Ordering
  import opened SnapshotDiff

  // ---------------------------------------------------------------- the snapshots' own values

  /** `str(value)` */
  function Written(v: Value): string {
    match v
    case Absent => "None"
    case Text(text) => text
    case Flag(flag) => if flag then "True" else "False"
  }

  /** An unknown text is nothing on its side. */
  function Known(s: Option<string>): Side { if s.None? then Nothing else Shown(s.value) }

  /** The record that counts for a tool: the last of its name. */
  function LastTool(tools: seq<ToolRecord>, name: string): Option<ToolRecord> {
    if tools == [] then None
    else if tools[|tools| - 1].name == name then Some(tools[|tools| - 1])
    else LastTool(tools[..|tools| - 1], name)
  }

  /** The requirement that counts: the last of its ecosystem and name. */
  function LastSpec(rs: seq<Requirement>, ecosystem: string, name: string): Option<string> {
    if rs == [] then None
    else if rs[|rs| - 1].ecosystem == ecosystem && rs[|rs| - 1].name == name then Some(rs[|rs| - 1].spec)
    else LastSpec(rs[..|rs| - 1], ecosystem, name)
  }

  predicate IsRequired(a: Snapshot, b: Snapshot, name: string) {
    || (exists i | 0 <= i < |a.requirements| :: a.requirements[i].name == name)
    || (exists i | 0 <= i < |b.requirements| :: b.requirements[i].name == name)
  }

  /** The entries of one PATH that another does not have. */
  function OwnIndices(mine: seq<string>, other: seq<string>): set<int> {
    set i | 0 <= i < |mine| && mine[i] !in other
  }

  // ---------------------------------------------------------------- what there is to say

  predicate FieldSays(component: Component, name: string, classification: Classification, critical: bool, a: Value, b: Value, e: Entry) {
    a != b && e == Entry(component, name, classification, Shown(Written(a)), Shown(Written(b)), critical)
  }

  predicate AxisSays(name: string, critical: bool, a: Value, b: Value, e: Entry) {
    && a != b
    && e == Entry(ContainerC, name, if critical then ProjectCritical else VersionDrift,
         if a == Absent then Nothing else Shown(Written(a)), if b == Absent then Nothing else Shown(Written(b)), critical)
  }

  predicate PlatformSays(order: seq<PlatformKey>, a: Platform, b: Platform, e: Entry) {
    || (OsName in order && FieldSays(PlatformC, "os_name", PlatformExpected, false, a.osName, b.osName, e))
    || (OsVersion in order && FieldSays(PlatformC, "os_version", PlatformExpected, false, a.osVersion, b.osVersion, e))
    || (Arch in order && FieldSays(PlatformC, "arch", PlatformExpected, false, a.arch, b.arch, e))
    || (Kernel in order && FieldSays(PlatformC, "kernel", PlatformExpected, false, a.kernel, b.kernel, e))
  }

  predicate ToolSays(a: Option<ToolRecord>, b: Option<ToolRecord>, name: string, critical: bool, e: Entry) {
    match (a, b)
    case (None, None) => false
    case (None, Some(y)) => e == Entry(ToolC, name, Missing, Nothing, Known(y.version), critical)
    case (Some(x), None) => e == Entry(ToolC, name, Missing, Known(x.version), Nothing, critical)
    case (Some(x), Some(y)) =>
      if OrEmpty(x.version) != OrEmpty(y.version) then
        e == Entry(ToolC, name, VersionDrift, Known(x.version), Known(y.version), critical)
      else if OrEmpty(x.exePath) != OrEmpty(y.exePath) then
        e == Entry(ToolC, name, PathPrecedence, Known(x.exePath), Known(y.exePath), critical)
      else e == Entry(ToolC, name, Same, Known(x.version), Known(y.version), false)
  }

  ghost predicate SomeToolSays(a: Snapshot, b: Snapshot, e: Entry) {
    ToolSays(LastTool(a.tools, e.name), LastTool(b.tools, e.name), e.name, IsRequired(a, b, e.name), e)
  }

  predicate PathSays(a: seq<string>, b: seq<string>, e: Entry) {
    && a != b
    && e == Entry(PathC, "PATH", PathPrecedence, PathSize(|a|, |OwnIndices(a, b)|), PathSize(|b|, |OwnIndices(b, a)|), false)
  }

  predicate RequirementSays(a: Snapshot, b: Snapshot, ecosystem: string, name: string, e: Entry) {
    var x, y := LastSpec(a.requirements, ecosystem, name), LastSpec(b.requirements, ecosystem, name);
    x != y && e == Entry(RequirementC, ecosystem + ":" + name, ProjectCritical, Known(x), Known(y), true)
  }

  predicate DaemonSays(a: Option<Containers>, b: Option<Containers>, e: Entry) {
    && (a.Some? != b.Some? || (a.Some? && b.Some? && a.value.daemonOk != b.value.daemonOk))
    && e == Entry(ContainerC, "docker-daemon", ProjectCritical,
         Shown(if a.None? then "None" else Written(a.value.daemonOk)),
         Shown(if b.None? then "None" else Written(b.value.daemonOk)), true)
  }

  predicate AxesSay(a: Containers, b: Containers, e: Entry) {
    || AxisSays("engine-backend", true, a.backend, b.backend, e)
    || AxisSays("engine-arch", true, a.serverArch, b.serverArch, e)
    || AxisSays("cgroup-version", true, a.cgroupVersion, b.cgroupVersion, e)
    || AxisSays("storage-driver", false, a.storageDriver, b.storageDriver, e)
    || AxisSays("engine-version", false, a.serverVersion, b.serverVersion, e)
    || AxisSays("buildx-version", false, a.buildxVersion, b.buildxVersion, e)
    || AxisSays("rootless", true, a.rootless, b.rootless, e)
  }

  predicate CliSays(a: Option<Containers>, b: Option<Containers>, e: Entry) {
    FieldSays(ContainerC, "docker-cli", VersionDrift, false,
      if a.None? then Absent else a.value.dockerCli, if b.None? then Absent else b.value.dockerCli, e)
  }

  predicate WslSays(a: Option<Wsl>, b: Option<Wsl>, e: Entry) {
    || FieldSays(WslC, "wsl-available", PlatformExpected, false,
         if a.None? then Absent else a.value.available, if b.None? then Absent else b.value.available, e)
    || FieldSays(WslC, "wsl-default-distro", PlatformExpected, false,
         if a.None? then Absent else a.value.defaultDistro, if b.None? then Absent else b.value.defaultDistro, e)
  }

  predicate GpuSays(a: Option<Gpu>, b: Option<Gpu>, e: Entry) {
    || FieldSays(GpuC, "nvidia-driver", ProjectCritical, true,
         if a.None? then Absent else a.value.nvidiaDriver, if b.None? then Absent else b.value.nvidiaDriver, e)
    || FieldSays(GpuC, "cuda-toolkit", ProjectCritical, true,
         if a.None? then Absent else a.value.cudaToolkit, if b.None? then Absent else b.value.cudaToolkit, e)
    || FieldSays(GpuC, "rocm", ProjectCritical, true,
         if a.None? then Absent else a.value.rocm, if b.None? then Absent else b.value.rocm, e)
  }

  /** The entry says of A and B what is so. */
  ghost predicate IsTrueOf(order: seq<PlatformKey>, a: Snapshot, b: Snapshot, e: Entry) {
    || PlatformSays(order, a.platform, b.platform, e)
    || SomeToolSays(a, b, e)
    || PathSays(a.pathEntries, b.pathEntries, e)
    || (exists ecosystem, name :: RequirementSays(a, b, ecosystem, name, e))
    || DaemonSays(a.containers, b.containers, e)
    || (a.containers.Some? && b.containers.Some? && AxesSay(a.containers.value, b.containers.value, e))
    || CliSays(a.containers, b.containers, e)
    || WslSays(a.wsl, b.wsl, e)
    || GpuSays(a.gpu, b.gpu, e)
  }

  // ---------------------------------------------------------------- section by section

  lemma {:induction false} CollectExactly<K>(keys: seq<K>, f: K -> seq<Entry>, e: Entry)
    ensures e in Collect(keys, f) <==> exists i | 0 <= i < |keys| :: e in f(keys[i])
  {
    if keys != [] {
      CollectExactly(keys[1..], f, e);
      assert forall i | 0 < i < |keys| :: keys[i] == keys[1..][i - 1];
      assert forall i | 0 <= i < |keys| - 1 :: keys[1..][i] == keys[i + 1];
    }
  }

  lemma WrittenIsShown(v: Value)
    ensures Show(v) == Shown(Written(v))
    ensures ShowPresent(v) == if v == Absent then Nothing else Shown(Written(v))
  {
  }

  lemma CompareExactly(component: Component, name: string, classification: Classification, critical: bool, a: Value, b: Value, e: Entry)
    ensures e in Compare(component, name, classification, critical, a, b, Show)
      <==> FieldSays(component, name, classification, critical, a, b, e)
  {
    WrittenIsShown(a);
    WrittenIsShown(b);
  }

  lemma PlatformExactly(order: seq<PlatformKey>, a: Platform, b: Platform, e: Entry)
    ensures e in Collect(order, key => PlatformEntry(a, b, key)) <==> PlatformSays(order, a, b, e)
  {
    hide Collect, Compare, FieldSays;
    var f := (key: PlatformKey) => PlatformEntry(a, b, key);
    CollectExactly(order, f, e);
    forall key: PlatformKey
      ensures e in f(key) <==> FieldSays(PlatformC, PlatformName(key), PlatformExpected, false, PlatformValue(a, key), PlatformValue(b, key), e)
    {
      CompareExactly(PlatformC, PlatformName(key), PlatformExpected, false, PlatformValue(a, key), PlatformValue(b, key), e);
    }
    if PlatformSays(order, a, b, e) {
      var key :| key in order && e in f(key);
      var i :| 0 <= i < |order| && order[i] == key;
    }
  }

  lemma {:induction false} TableIsLast(tools: seq<ToolRecord>, name: string)
    ensures LastTool(tools, name) == if name in ToolTable(tools) then Some(ToolTable(tools)[name]) else None
  {
    if tools != [] { TableIsLast(tools[..|tools| - 1], name); }
  }

  lemma CriticalExactly(a: Snapshot, b: Snapshot, name: string)
    ensures name in CriticalNames(a, b) <==> IsRequired(a, b, name)
  {
    if name in CriticalNames(a, b) {
      var r :| (r in a.requirements || r in b.requirements) && r.name == name;
    }
  }

  lemma ToolsExactly(a: Snapshot, b: Snapshot, e: Entry)
    ensures e in ToolEntries(a, b) <==> SomeToolSays(a, b, e)
  {
    hide ToolEntry, Collect, Sorted, ToolTable, CriticalNames, IsRequired, LastTool, ToolSays;
    var ta, tb, critical := ToolTable(a.tools), ToolTable(b.tools), CriticalNames(a, b);
    var names, f := ToolNames(a, b), (name: string) => ToolEntry(ta, tb, critical, name);
    CollectExactly(names, f, e);
    forall name: string
      ensures e in f(name) <==> e.name == name && ToolSays(LastTool(a.tools, name), LastTool(b.tools, name), name, IsRequired(a, b, name), e)
    {
      ToolExactly(a, b, name, e);
    }
    if SomeToolSays(a, b, e) {
      SayingIsNamed(a, b, e);
      var i :| 0 <= i < |names| && names[i] == e.name;
      assert e in f(names[i]);
    }
  }

  lemma SayingIsNamed(a: Snapshot, b: Snapshot, e: Entry)
    requires SomeToolSays(a, b, e)
    ensures e.name in ToolNames(a, b)
  {
    hide Sorted, ToolTable, LastTool, IsRequired;
    TableIsLast(a.tools, e.name);
    TableIsLast(b.tools, e.name);
  }

  lemma ToolExactly(a: Snapshot, b: Snapshot, name: string, e: Entry)
    ensures e in ToolEntry(ToolTable(a.tools), ToolTable(b.tools), CriticalNames(a, b), name)
      <==> e.name == name && ToolSays(LastTool(a.tools, name), LastTool(b.tools, name), name, IsRequired(a, b, name), e)
  {
    hide ToolTable, LastTool, CriticalNames, IsRequired;
    TableIsLast(a.tools, name);
    TableIsLast(b.tools, name);
    CriticalExactly(a, b, name);
  }

  lemma {:induction false} OwnAppend(mine: seq<string>, last: string, other: seq<string>)
    ensures OwnEntries(mine + [last], other) == OwnEntries(mine, other) + if last in other then 0 else 1
  {
    if mine == [] {
      assert [last][1..] == [] && mine + [last] == [last];
    } else {
      assert (mine + [last])[1..] == mine[1..] + [last];
      OwnAppend(mine[1..], last, other);
    }
  }

  lemma {:induction false} OwnExactly(mine: seq<string>, other: seq<string>)
    ensures OwnEntries(mine, other) == |OwnIndices(mine, other)|
    decreases |mine|
  {
    if mine == [] {
      assert OwnIndices(mine, other) == {};
    } else {
      var n := |mine| - 1;
      var init := mine[..n];
      assert mine == init + [mine[n]];
      OwnAppend(init, mine[n], other);
      OwnExactly(init, other);
      var here: set<int> := if mine[n] in other then {} else {n};
      assert n !in OwnIndices(init, other);
      assert OwnIndices(mine, other) == OwnIndices(init, other) + here by {
        assert forall i | 0 <= i < n :: init[i] == mine[i];
      }
    }
  }

  lemma PathExactly(a: seq<string>, b: seq<string>, e: Entry)
    ensures e in PathEntry(a, b) <==> PathSays(a, b, e)
  {
    hide OwnEntries, OwnIndices;
    OwnExactly(a, b);
    OwnExactly(b, a);
  }

  lemma {:induction false} SpecIsLast(rs: seq<Requirement>, ecosystem: string, name: string)
    ensures SpecOf(RequirementTable(rs), (ecosystem, name)) == Known(LastSpec(rs, ecosystem, name))
  {
    if rs != [] { SpecIsLast(rs[..|rs| - 1], ecosystem, name); }
  }

  lemma KnownApart(x: Option<string>, y: Option<string>)
    ensures Known(x) == Known(y) <==> x == y
  {
  }

  lemma RequirementExactly(a: Snapshot, b: Snapshot, key: (string, string), e: Entry)
    ensures e in RequirementEntry(RequirementTable(a.requirements), RequirementTable(b.requirements), key)
      <==> RequirementSays(a, b, key.0, key.1, e)
  {
    hide RequirementTable, SpecOf, Known, LastSpec;
    SpecIsLast(a.requirements, key.0, key.1);
    SpecIsLast(b.requirements, key.0, key.1);
    KnownApart(LastSpec(a.requirements, key.0, key.1), LastSpec(b.requirements, key.0, key.1));
    assert key == (key.0, key.1);
  }

  lemma RequirementsExactly(a: Snapshot, b: Snapshot, e: Entry)
    ensures e in RequirementEntries(a, b) <==> exists ecosystem, name :: RequirementSays(a, b, ecosystem, name, e)
  {
    hide RequirementEntry, Collect, RequirementTable, RequirementKeys, RequirementSays;
    var ra, rb := RequirementTable(a.requirements), RequirementTable(b.requirements);
    var keys, f := RequirementKeys(ra.Keys + rb.Keys), (key: (string, string)) => RequirementEntry(ra, rb, key);
    CollectExactly(keys, f, e);
    forall key: (string, string) ensures e in f(key) <==> RequirementSays(a, b, key.0, key.1, e) { RequirementExactly(a, b, key, e); }
    if ecosystem, name :| RequirementSays(a, b, ecosystem, name, e) {
      var key := (ecosystem, name);
      SayingIsKeyed(a, b, ecosystem, name, e);
      RequirementKeysExactly(ra.Keys + rb.Keys, key);
      var i :| 0 <= i < |keys| && keys[i] == key;
      assert e in f(keys[i]);
    }
  }

  lemma SayingIsKeyed(a: Snapshot, b: Snapshot, ecosystem: string, name: string, e: Entry)
    requires RequirementSays(a, b, ecosystem, name, e)
    ensures (ecosystem, name) in RequirementTable(a.requirements).Keys + RequirementTable(b.requirements).Keys
  {
    hide RequirementTable, LastSpec;
    SpecIsLast(a.requirements, ecosystem, name);
    SpecIsLast(b.requirements, ecosystem, name);
  }

  lemma DaemonExactly(a: Option<Containers>, b: Option<Containers>, e: Entry)
    ensures e in DaemonEntry(a, b) <==> DaemonSays(a, b, e)
  {
    WrittenIsShown(DaemonValue(a));
    WrittenIsShown(DaemonValue(b));
  }

  lemma AxisExactly(a: Containers, b: Containers, axis: Axis, e: Entry)
    ensures e in AxisEntry(a, b, axis) <==> AxisSays(axis.name, axis.critical, axis.value(a), axis.value(b), e)
  {
    WrittenIsShown(axis.value(a));
    WrittenIsShown(axis.value(b));
  }

  predicate AxisAtSays(a: Containers, b: Containers, i: nat, e: Entry)
    requires i < |Axes()|
  {
    AxisSays(Axes()[i].name, Axes()[i].critical, Axes()[i].value(a), Axes()[i].value(b), e)
  }

  lemma AxesAre(a: Containers, b: Containers, e: Entry)
    ensures (exists i | 0 <= i < |Axes()| :: AxisAtSays(a, b, i, e)) <==> AxesSay(a, b, e)
  {
    hide AxisSays;
    assert |Axes()| == 7;
    assert AxisAtSays(a, b, 0, e) <==> AxisSays("engine-backend", true, a.backend, b.backend, e);
    assert AxisAtSays(a, b, 1, e) <==> AxisSays("engine-arch", true, a.serverArch, b.serverArch, e);
    assert AxisAtSays(a, b, 2, e) <==> AxisSays("cgroup-version", true, a.cgroupVersion, b.cgroupVersion, e);
    assert AxisAtSays(a, b, 3, e) <==> AxisSays("storage-driver", false, a.storageDriver, b.storageDriver, e);
    assert AxisAtSays(a, b, 4, e) <==> AxisSays("engine-version", false, a.serverVersion, b.serverVersion, e);
    assert AxisAtSays(a, b, 5, e) <==> AxisSays("buildx-version", false, a.buildxVersion, b.buildxVersion, e);
    assert AxisAtSays(a, b, 6, e) <==> AxisSays("rootless", true, a.rootless, b.rootless, e);
  }

  lemma AxesExactly(a: Option<Containers>, b: Option<Containers>, e: Entry)
    ensures e in AxisEntries(a, b) <==> a.Some? && b.Some? && AxesSay(a.value, b.value, e)
  {
    hide Collect, Axes, AxisEntry, AxesSay, AxisSays;
    if a.Some? && b.Some? {
      var f, axes := (axis: Axis) => AxisEntry(a.value, b.value, axis), Axes();
      CollectExactly(axes, f, e);
      forall i | 0 <= i < |axes| ensures e in f(axes[i]) <==> AxisAtSays(a.value, b.value, i, e) {
        AxisExactly(a.value, b.value, axes[i], e);
      }
      AxesAre(a.value, b.value, e);
    }
  }

  predicate ProbeSays<T>(component: Component, classification: Classification, critical: bool, a: Option<T>, b: Option<T>,
    probe: Probe<T>, e: Entry)
  {
    FieldSays(component, probe.name, classification, critical, Field(a, probe.value), Field(b, probe.value), e)
  }

  lemma ProbesExactly<T>(component: Component, classification: Classification, critical: bool, a: Option<T>, b: Option<T>,
    probes: seq<Probe<T>>, e: Entry)
    ensures e in Collect(probes, probe => ProbeEntry(component, classification, critical, a, b, probe))
      <==> exists i | 0 <= i < |probes| :: ProbeSays(component, classification, critical, a, b, probes[i], e)
  {
    hide Collect, Compare, Field, FieldSays;
    var f := (probe: Probe<T>) => ProbeEntry(component, classification, critical, a, b, probe);
    CollectExactly(probes, f, e);
    forall i | 0 <= i < |probes| ensures e in f(probes[i]) <==> ProbeSays(component, classification, critical, a, b, probes[i], e) {
      CompareExactly(component, probes[i].name, classification, critical, Field(a, probes[i].value), Field(b, probes[i].value), e);
    }
  }

  lemma CliExactly(a: Option<Containers>, b: Option<Containers>, e: Entry)
    ensures e in Collect(CliProbes(), probe => ProbeEntry(ContainerC, VersionDrift, false, a, b, probe)) <==> CliSays(a, b, e)
  {
    hide Collect, FieldSays, ProbeEntry;
    ProbesExactly(ContainerC, VersionDrift, false, a, b, CliProbes(), e);
    assert ProbeSays(ContainerC, VersionDrift, false, a, b, CliProbes()[0], e) <==> CliSays(a, b, e);
  }

  lemma WslExactly(a: Option<Wsl>, b: Option<Wsl>, e: Entry)
    ensures e in Collect(WslProbes(), probe => ProbeEntry(WslC, PlatformExpected, false, a, b, probe)) <==> WslSays(a, b, e)
  {
    hide Collect, FieldSays, ProbeEntry;
    ProbesExactly(WslC, PlatformExpected, false, a, b, WslProbes(), e);
    assert WslSays(a, b, e) <==>
      ProbeSays(WslC, PlatformExpected, false, a, b, WslProbes()[0], e) ||
      ProbeSays(WslC, PlatformExpected, false, a, b, WslProbes()[1], e);
  }

  lemma GpuExactly(a: Option<Gpu>, b: Option<Gpu>, e: Entry)
    ensures e in Collect(GpuProbes(), probe => ProbeEntry(GpuC, ProjectCritical, true, a, b, probe)) <==> GpuSays(a, b, e)
  {
    hide Collect, FieldSays, ProbeEntry;
    ProbesExactly(GpuC, ProjectCritical, true, a, b, GpuProbes(), e);
    assert GpuSays(a, b, e) <==>
      ProbeSays(GpuC, ProjectCritical, true, a, b, GpuProbes()[0], e) ||
      ProbeSays(GpuC, ProjectCritical, true, a, b, GpuProbes()[1], e) ||
      ProbeSays(GpuC, ProjectCritical, true, a, b, GpuProbes()[2], e);
  }

  /** A diff holds exactly the entries that are true of the two snapshots: an entry for every field compared
      that differs and for every tool, with A's value on the A side and B's on the B side. */
  lemma DiffExactly(order: seq<PlatformKey>, a: Snapshot, b: Snapshot, e: Entry)
    requires a.schema == b.schema
    ensures e in Diff(order, a, b).value <==> IsTrueOf(order, a, b, e)
  {
    hide Collect, ToolEntries, PathEntry, RequirementEntries, DaemonEntry, AxisEntries, CliProbes, WslProbes, GpuProbes,
      ProbeEntry, PlatformEntry, PlatformSays, SomeToolSays, PathSays, RequirementSays, DaemonSays, AxesSay, CliSays, WslSays, GpuSays;
    PlatformExactly(order, a.platform, b.platform, e);
    ToolsExactly(a, b, e);
    PathExactly(a.pathEntries, b.pathEntries, e);
    RequirementsExactly(a, b, e);
    DaemonExactly(a.containers, b.containers, e);
    AxesExactly(a.containers, b.containers, e);
    CliExactly(a.containers, b.containers, e);
    WslExactly(a.wsl, b.wsl, e);
    GpuExactly(a.gpu, b.gpu, e);
  }

  // ---------------------------------------------------------------- no entry twice

  predicate AreApart(es: seq<Entry>) {
    forall i, j | 0 <= i < j < |es| :: es[i] != es[j]
  }

  lemma ApartConcat(x: seq<Entry>, y: seq<Entry>)
    requires AreApart(x) && AreApart(y) && forall e | e in x :: e !in y
    ensures AreApart(x + y)
  {
    var all := x + y;
    forall i, j | 0 <= i < j < |all| ensures all[i] != all[j] {
      if i < |x| <= j { assert all[i] in x && all[j] in y; }
    }
  }

  lemma {:induction false} CollectApart<K>(keys: seq<K>, f: K -> seq<Entry>)
    requires forall i | 0 <= i < |keys| :: |f(keys[i])| <= 1
    requires forall i, j | 0 <= i < j < |keys| :: forall e | e in f(keys[i]) :: e !in f(keys[j])
    ensures AreApart(Collect(keys, f))
  {
    if keys != [] {
      assert forall i | 0 <= i < |keys| - 1 :: keys[1..][i] == keys[i + 1];
      CollectApart(keys[1..], f);
      forall e | e in f(keys[0]) ensures e !in Collect(keys[1..], f) { CollectExactly(keys[1..], f, e); }
      ApartConcat(f(keys[0]), Collect(keys[1..], f));
    }
  }

  /** The platform keys are a set. */
  predicate IsSet(order: seq<PlatformKey>) {
    forall i, j | 0 <= i < j < |order| :: order[i] != order[j]
  }

  predicate AreOf(es: seq<Entry>, component: Component) {
    forall e | e in es :: e.component == component
  }

  lemma PlatformApart(order: seq<PlatformKey>, a: Platform, b: Platform)
    requires IsSet(order)
    ensures var es := Collect(order, key => PlatformEntry(a, b, key)); AreApart(es) && AreOf(es, PlatformC)
  {
    hide Collect, AreApart;
    var f := (key: PlatformKey) => PlatformEntry(a, b, key);
    PlatformNamesDiffer();
    CollectApart(order, f);
    forall e | e in Collect(order, f) ensures e.component == PlatformC { CollectExactly(order, f, e); }
  }

  lemma PlatformNamesDiffer()
    ensures forall x, y :: PlatformName(x) == PlatformName(y) ==> x == y
  {
    assert |PlatformName(OsName)| == 7 && |PlatformName(OsVersion)| == 10 && |PlatformName(Arch)| == 4 && |PlatformName(Kernel)| == 6;
  }

  lemma ToolsApart(a: Snapshot, b: Snapshot)
    ensures AreApart(ToolEntries(a, b)) && AreOf(ToolEntries(a, b), ToolC)
  {
    hide Collect, ToolEntries, ToolNames, ToolTable;
    OneToolEntryPerName(a, b);
    var es := ToolEntries(a, b);
    assert forall e | e in es :: exists i | 0 <= i < |es| :: es[i] == e;
  }

  /** No ecosystem has a colon in it, so that an ecosystem and a name can be told from their entry's name. */
  predicate HasPlainEcosystems(rs: seq<Requirement>) {
    forall i | 0 <= i < |rs| :: ':' !in rs[i].ecosystem
  }

  lemma ColonCuts(x: string, a: string, y: string, b: string)
    requires ':' !in x && ':' !in y && x + ":" + a == y + ":" + b
    ensures x == y && a == b
  {
    hide SplitOn;
    assert x + ":" + a == x + [':'] + a && y + ":" + b == y + [':'] + b;
    SplitOnFirst(x, ':', a);
    SplitOnFirst(y, ':', b);
    assert ([x] + SplitOn(a, [':']))[0] == x && ([y] + SplitOn(b, [':']))[0] == y;
    assert (x + ":" + a)[|x| + 1..] == a && (y + ":" + b)[|y| + 1..] == b;
  }

  lemma {:induction false} TableEcosystems(rs: seq<Requirement>, key: (string, string))
    requires HasPlainEcosystems(rs) && key in RequirementTable(rs)
    ensures ':' !in key.0
  {
    var n := |rs| - 1;
    assert HasPlainEcosystems(rs[..n]);
    if key != (rs[n].ecosystem, rs[n].name) { TableEcosystems(rs[..n], key); }
  }

  lemma RequirementsApart(a: Snapshot, b: Snapshot)
    requires HasPlainEcosystems(a.requirements) && HasPlainEcosystems(b.requirements)
    ensures AreApart(RequirementEntries(a, b)) && AreOf(RequirementEntries(a, b), RequirementC)
  {
    hide Collect, RequirementTable, RequirementKeys, SpecOf, AreApart, HasPlainEcosystems;
    var ra, rb := RequirementTable(a.requirements), RequirementTable(b.requirements);
    var keys, f := RequirementKeys(ra.Keys + rb.Keys), (key: (string, string)) => RequirementEntry(ra, rb, key);
    KeysApart(ra.Keys + rb.Keys);
    forall i, j | 0 <= i < j < |keys| ensures forall e | e in f(keys[i]) :: e !in f(keys[j]) {
      assert keys[i] in keys && keys[j] in keys;
      RequirementKeysExactly(ra.Keys + rb.Keys, keys[i]);
      RequirementKeysExactly(ra.Keys + rb.Keys, keys[j]);
      PlainKey(a, b, keys[i]);
      PlainKey(a, b, keys[j]);
      if keys[i].0 + ":" + keys[i].1 == keys[j].0 + ":" + keys[j].1 {
        ColonCuts(keys[i].0, keys[i].1, keys[j].0, keys[j].1);
      }
    }
    CollectApart(keys, f);
    forall e | e in Collect(keys, f) ensures e.component == RequirementC { CollectExactly(keys, f, e); }
  }

  lemma PlainKey(a: Snapshot, b: Snapshot, key: (string, string))
    requires HasPlainEcosystems(a.requirements) && HasPlainEcosystems(b.requirements)
    requires key in RequirementTable(a.requirements).Keys + RequirementTable(b.requirements).Keys
    ensures ':' !in key.0
  {
    hide RequirementTable, HasPlainEcosystems;
    if key in RequirementTable(a.requirements) { TableEcosystems(a.requirements, key); } else { TableEcosystems(b.requirements, key); }
  }

  predicate KeysDiffer(keys: seq<(string, string)>) {
    forall i, j | 0 <= i < j < |keys| :: keys[i] != keys[j]
  }

  lemma KeysDifferConcat(x: seq<(string, string)>, y: seq<(string, string)>)
    requires KeysDiffer(x) && KeysDiffer(y) && forall k | k in x :: k !in y
    ensures KeysDiffer(x + y)
  {
    var all := x + y;
    forall i, j | 0 <= i < j < |all| ensures all[i] != all[j] {
      if i < |x| <= j { assert all[i] in x && all[j] in y; }
    }
  }

  lemma {:induction false} PairsDiffer(ecosystem: string, names: seq<string>)
    requires forall i, j | 0 <= i < j < |names| :: names[i] != names[j]
    ensures KeysDiffer(PairsOf(ecosystem, names))
  {
    if names != [] {
      var rest := names[1..];
      assert forall i | 0 <= i < |rest| :: rest[i] == names[i + 1];
      PairsDiffer(ecosystem, rest);
      PairsExactly(ecosystem, rest, (ecosystem, names[0]));
      KeysDifferConcat([(ecosystem, names[0])], PairsOf(ecosystem, rest));
    }
  }

  lemma {:induction false} EcosystemsDiffer(ecosystems: seq<string>, keys: set<(string, string)>)
    requires forall i, j | 0 <= i < j < |ecosystems| :: ecosystems[i] != ecosystems[j]
    ensures KeysDiffer(KeysOf(ecosystems, keys))
  {
    hide Sorted, PairsOf, KeysDiffer;
    if ecosystems == [] {
      assert KeysDiffer([]) by { NoKeysDiffer(); }
    } else {
      var rest := ecosystems[1..];
      var names := Sorted(set k | k in keys && k.0 == ecosystems[0] :: k.1);
      assert forall i | 0 <= i < |rest| :: rest[i] == ecosystems[i + 1];
      EcosystemsDiffer(rest, keys);
      PairsDiffer(ecosystems[0], names);
      forall k | k in PairsOf(ecosystems[0], names) ensures k !in KeysOf(rest, keys) {
        PairsExactly(ecosystems[0], names, k);
        KeysExactly(rest, keys, k);
      }
      KeysDifferConcat(PairsOf(ecosystems[0], names), KeysOf(rest, keys));
    }
  }

  lemma NoKeysDiffer()
    ensures KeysDiffer([])
  {
  }

  lemma KeysApart(keys: set<(string, string)>)
    ensures KeysDiffer(RequirementKeys(keys))
  {
    hide Sorted, KeysOf, KeysDiffer;
    EcosystemsDiffer(Sorted(set k | k in keys :: k.0), keys);
  }

  lemma AxesApart(a: Containers, b: Containers)
    ensures var es := Collect(Axes(), axis => AxisEntry(a, b, axis));
      AreApart(es) && forall e | e in es :: e.component == ContainerC && e.name != "docker-daemon" && e.name != "docker-cli"
  {
    hide Collect, AreApart, Axes;
    var f, axes := (axis: Axis) => AxisEntry(a, b, axis), Axes();
    AxisNames();
    CollectApart(axes, f);
    forall e | e in Collect(axes, f) ensures e.component == ContainerC && e.name != "docker-daemon" && e.name != "docker-cli" {
      CollectExactly(axes, f, e);
    }
  }

  lemma AxisNames()
    ensures forall i, j | 0 <= i < j < |Axes()| :: Axes()[i].name != Axes()[j].name
    ensures forall i | 0 <= i < |Axes()| :: Axes()[i].name != "docker-daemon" && Axes()[i].name != "docker-cli"
  {
    var n := Axes();
    assert |n| == 7;
    assert |n[0].name| == 14 && n[0].name[7] == 'b' && |n[1].name| == 11 && |n[2].name| == 14 && n[2].name[0] == 'c';
    assert |n[3].name| == 14 && n[3].name[0] == 's' && |n[4].name| == 14 && n[4].name[7] == 'v' && n[4].name[0] == 'e';
    assert |n[5].name| == 14 && n[5].name[0] == 'b' && |n[6].name| == 8 && n[0].name[0] == 'e';
    assert |"docker-daemon"| == 13 && |"docker-cli"| == 10;
  }

  lemma ProbesApart<T>(component: Component, classification: Classification, critical: bool, a: Option<T>, b: Option<T>,
    probes: seq<Probe<T>>)
    requires forall i, j | 0 <= i < j < |probes| :: probes[i].name != probes[j].name
    ensures var es := Collect(probes, probe => ProbeEntry(component, classification, critical, a, b, probe));
      AreApart(es) && forall e | e in es :: e.component == component && exists i | 0 <= i < |probes| :: probes[i].name == e.name
  {
    hide Collect, AreApart, ProbeEntry;
    var f := (probe: Probe<T>) => ProbeEntry(component, classification, critical, a, b, probe);
    forall probe: Probe<T> ensures |f(probe)| <= 1 && forall e | e in f(probe) :: e.component == component && e.name == probe.name {
      ProbeIsNamed(component, classification, critical, a, b, probe);
    }
    CollectApart(probes, f);
    forall e | e in Collect(probes, f) ensures e.component == component && exists i | 0 <= i < |probes| :: probes[i].name == e.name {
      CollectExactly(probes, f, e);
    }
  }

  lemma ProbeIsNamed<T>(component: Component, classification: Classification, critical: bool, a: Option<T>, b: Option<T>, probe: Probe<T>)
    ensures var es := ProbeEntry(component, classification, critical, a, b, probe);
      |es| <= 1 && forall e | e in es :: e.component == component && e.name == probe.name
  {
    hide Field;
  }

  /** Everything said of containers, once. */
  lemma ContainersApart(a: Option<Containers>, b: Option<Containers>)
    ensures var es := DaemonEntry(a, b) + AxisEntries(a, b)
        + Collect(CliProbes(), probe => ProbeEntry(ContainerC, VersionDrift, false, a, b, probe));
      AreApart(es) && AreOf(es, ContainerC)
  {
    hide Collect, AreApart, Axes, ProbeEntry;
    var daemon, axes := DaemonEntry(a, b), AxisEntries(a, b);
    var cli := Collect(CliProbes(), probe => ProbeEntry(ContainerC, VersionDrift, false, a, b, probe));
    assert AreApart(daemon) by { FewApart(daemon); }
    assert "docker-daemon" != "docker-cli" by { assert |"docker-daemon"| != |"docker-cli"|; }
    if a.Some? && b.Some? { AxesApart(a.value, b.value); } else { FewApart(axes); }
    ProbesApart(ContainerC, VersionDrift, false, a, b, CliProbes());
    assert forall e | e in cli :: e.name == "docker-cli";
    ApartConcat(daemon, axes);
    ApartConcat(daemon + axes, cli);
  }

  lemma FewApart(es: seq<Entry>)
    requires |es| <= 1
    ensures AreApart(es)
  {
  }

  lemma WslApart(a: Option<Wsl>, b: Option<Wsl>)
    ensures var es := Collect(WslProbes(), probe => ProbeEntry(WslC, PlatformExpected, false, a, b, probe)); AreApart(es) && AreOf(es, WslC)
  {
    hide Collect, AreApart, ProbeEntry;
    assert |WslProbes()[0].name| != |WslProbes()[1].name|;
    ProbesApart(WslC, PlatformExpected, false, a, b, WslProbes());
  }

  lemma GpuApart(a: Option<Gpu>, b: Option<Gpu>)
    ensures var es := Collect(GpuProbes(), probe => ProbeEntry(GpuC, ProjectCritical, true, a, b, probe)); AreApart(es) && AreOf(es, GpuC)
  {
    hide Collect, AreApart, ProbeEntry;
    assert |GpuProbes()[0].name| == 13 && |GpuProbes()[1].name| == 12 && |GpuProbes()[2].name| == 4;
    ProbesApart(GpuC, ProjectCritical, true, a, b, GpuProbes());
  }

  lemma OtherComponents(x: seq<Entry>, c: Component, y: seq<Entry>)
    requires AreApart(x) && AreApart(y) && AreOf(x, c) && forall e | e in y :: e.component != c
    ensures AreApart(x + y)
  {
    hide AreApart;
    ApartConcat(x, y);
  }

  /** No entry is given twice. */
  lemma NoEntryTwice(order: seq<PlatformKey>, a: Snapshot, b: Snapshot)
    requires a.schema == b.schema && IsSet(order) && HasPlainEcosystems(a.requirements) && HasPlainEcosystems(b.requirements)
    ensures AreApart(Diff(order, a, b).value)
  {
    hide Collect, ToolEntries, PathEntry, RequirementEntries, DaemonEntry, AxisEntries, CliProbes, WslProbes, GpuProbes,
      ProbeEntry, PlatformEntry, AreApart, HasPlainEcosystems;
    var platform, tools := Collect(order, key => PlatformEntry(a.platform, b.platform, key)), ToolEntries(a, b);
    var path, requirements := PathEntry(a.pathEntries, b.pathEntries), RequirementEntries(a, b);
    var daemon, axes := DaemonEntry(a.containers, b.containers), AxisEntries(a.containers, b.containers);
    var cli := Collect(CliProbes(), probe => ProbeEntry(ContainerC, VersionDrift, false, a.containers, b.containers, probe));
    var containers := daemon + axes + cli;
    var wsl := Collect(WslProbes(), probe => ProbeEntry(WslC, PlatformExpected, false, a.wsl, b.wsl, probe));
    var gpu := Collect(GpuProbes(), probe => ProbeEntry(GpuC, ProjectCritical, true, a.gpu, b.gpu, probe));
    PlatformApart(order, a.platform, b.platform);
    ToolsApart(a, b);
    PathApart(a.pathEntries, b.pathEntries);
    RequirementsApart(a, b);
    ContainersApart(a.containers, b.containers);
    WslApart(a.wsl, b.wsl);
    GpuApart(a.gpu, b.gpu);
    OtherComponents(wsl, WslC, gpu);
    OtherComponents(containers, ContainerC, wsl + gpu);
    OtherComponents(requirements, RequirementC, containers + (wsl + gpu));
    OtherComponents(path, PathC, requirements + (containers + (wsl + gpu)));
    OtherComponents(tools, ToolC, path + (requirements + (containers + (wsl + gpu))));
    OtherComponents(platform, PlatformC, tools + (path + (requirements + (containers + (wsl + gpu)))));
    Regrouped(platform, tools, path, requirements, daemon, axes, cli, wsl, gpu);
  }

  lemma PathApart(a: seq<string>, b: seq<string>)
    ensures AreApart(PathEntry(a, b)) && AreOf(PathEntry(a, b), PathC)
  {
    FewApart(PathEntry(a, b));
  }

  lemma Regrouped(platform: seq<Entry>, tools: seq<Entry>, path: seq<Entry>, requirements: seq<Entry>, daemon: seq<Entry>,
    axes: seq<Entry>, cli: seq<Entry>, wsl: seq<Entry>, gpu: seq<Entry>)
    ensures platform + tools + (path + requirements + daemon + axes + cli + wsl + gpu)
         == platform + (tools + (path + (requirements + ((daemon + axes + cli) + (wsl + gpu)))))
  {
  }
}
