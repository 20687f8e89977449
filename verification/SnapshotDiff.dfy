/** Comparing two environment snapshots (devrepro/diff/engine.py): the entries are the same seen from
    either side, say nothing of equal snapshots, and determine one side's tools from the other's. */
module SnapshotDiff {
  import opened Strings
  import opened Ordering

  /** A compared field: absent, a text, or a flag. */
  datatype Value = Absent | Text(text: string) | Flag(flag: bool)

  datatype Platform = Platform(osName: Value, osVersion: Value, arch: Value, kernel: Value)

  datatype ToolRecord = ToolRecord(name: string, version: Option<string>, exePath: Option<string>)

  datatype Requirement = Requirement(ecosystem: string, name: string, spec: string)

  datatype Containers = Containers(
    daemonOk: Value, backend: Value, serverArch: Value, cgroupVersion: Value, storageDriver: Value,
    serverVersion: Value, buildxVersion: Value, rootless: Value, dockerCli: Value)

  datatype Wsl = Wsl(available: Value, defaultDistro: Value)

  datatype Gpu = Gpu(nvidiaDriver: Value, cudaToolkit: Value, rocm: Value)

  datatype Snapshot = Snapshot(
    schema: string,
    platform: Platform,
    tools: seq<ToolRecord>,
    requirements: seq<Requirement>,
    pathEntries: seq<string>,
    containers: Option<Containers>,
    wsl: Option<Wsl>,
    gpu: Option<Gpu>)

  datatype Classification =
    PlatformExpected | Missing | VersionDrift | PathPrecedence | Same | ProjectCritical

  datatype Component = PlatformC | ToolC | PathC | RequirementC | ContainerC | WslC | GpuC

  /** One side of an entry: nothing, a text, or the size of a PATH and how much of it is its own. */
  datatype Side = Nothing | Shown(text: string) | PathSize(entries: nat, own: nat)

  datatype Entry = Entry(
    component: Component, name: string, classification: Classification, a: Side, b: Side, critical: bool)

  /** The entry with its sides exchanged. */
  function Swapped(e: Entry): Entry { e.(a := e.b, b := e.a) }

  function AllSwapped(es: seq<Entry>): (r: seq<Entry>)
    ensures |r| == |es| && forall i | 0 <= i < |r| :: r[i] == Swapped(es[i])
  {
    seq(|es|, i requires 0 <= i < |es| => Swapped(es[i]))
  }

  /** `str(value)` */
  function Show(v: Value): Side {
    match v
    case Absent => Shown("None")
    case Text(t) => Shown(t)
    case Flag(b) => Shown(if b then "True" else "False")
  }

  /** The same, an absent value staying nothing. */
  function ShowPresent(v: Value): Side { if v == Absent then Nothing else Show(v) }

  /** `_compare_optional` and its relatives: an entry when the values differ. */
  function Compare(component: Component, name: string, classification: Classification, critical: bool,
    a: Value, b: Value, show: Value -> Side): seq<Entry>
  {
    if a == b then [] else [Entry(component, name, classification, show(a), show(b), critical)]
  }

  /** The entries of each key, in order. */
  function Collect<K>(keys: seq<K>, entriesOf: K -> seq<Entry>): seq<Entry> {
    if keys == [] then [] else entriesOf(keys[0]) + Collect(keys[1..], entriesOf)
  }

  // ---------------------------------------------------------------- platform

  datatype PlatformKey = OsName | OsVersion | Arch | Kernel

  function PlatformValue(p: Platform, key: PlatformKey): Value {
    match key
    case OsName => p.osName
    case OsVersion => p.osVersion
    case Arch => p.arch
    case Kernel => p.kernel
  }

  function PlatformName(key: PlatformKey): string {
    match key
    case OsName => "os_name"
    case OsVersion => "os_version"
    case Arch => "arch"
    case Kernel => "kernel"
  }

  function PlatformEntry(a: Platform, b: Platform, key: PlatformKey): seq<Entry> {
    Compare(PlatformC, PlatformName(key), PlatformExpected, false,
      PlatformValue(a, key), PlatformValue(b, key), Show)
  }

  // ---------------------------------------------------------------- tools

  /** The tools by name; a later record replaces an earlier one. */
  function ToolTable(tools: seq<ToolRecord>): map<string, ToolRecord> {
    if tools == [] then map[]
    else
      var last := tools[|tools| - 1];
      ToolTable(tools[..|tools| - 1])[last.name := last]
  }

  function ShowText(s: Option<string>): Side { match s case None => Nothing case Some(t) => Shown(t) }

  /** `s or ""`: tools are compared with an unknown value as the empty text. */
  function OrEmpty(s: Option<string>): string { match s case None => "" case Some(t) => t }

  function CriticalNames(a: Snapshot, b: Snapshot): set<string> {
    (set r | r in a.requirements :: r.name) + (set r | r in b.requirements :: r.name)
  }

  /** The one entry a tool name gets. */
  function ToolEntry(a: map<string, ToolRecord>, b: map<string, ToolRecord>, critical: set<string>, name: string): seq<Entry> {
    var isCritical := name in critical;
    if name !in a && name !in b then []
    else if name !in a then [Entry(ToolC, name, Missing, Nothing, ShowText(b[name].version), isCritical)]
    else if name !in b then [Entry(ToolC, name, Missing, ShowText(a[name].version), Nothing, isCritical)]
    else if OrEmpty(a[name].version) != OrEmpty(b[name].version) then
      [Entry(ToolC, name, VersionDrift, ShowText(a[name].version), ShowText(b[name].version), isCritical)]
    else if OrEmpty(a[name].exePath) != OrEmpty(b[name].exePath) then
      [Entry(ToolC, name, PathPrecedence, ShowText(a[name].exePath), ShowText(b[name].exePath), isCritical)]
    else [Entry(ToolC, name, Same, ShowText(a[name].version), ShowText(b[name].version), false)]
  }

  function ToolNames(a: Snapshot, b: Snapshot): seq<string> {
    Sorted(ToolTable(a.tools).Keys + ToolTable(b.tools).Keys)
  }

  function ToolEntries(a: Snapshot, b: Snapshot): seq<Entry> {
    var ta, tb, critical := ToolTable(a.tools), ToolTable(b.tools), CriticalNames(a, b);
    Collect(ToolNames(a, b), name => ToolEntry(ta, tb, critical, name))
  }

  // ---------------------------------------------------------------- PATH and requirements

  /** How many of the entries the other PATH does not have. */
  function OwnEntries(mine: seq<string>, other: seq<string>): nat {
    if mine == [] then 0 else (if mine[0] in other then 0 else 1) + OwnEntries(mine[1..], other)
  }

  function PathEntry(a: seq<string>, b: seq<string>): seq<Entry> {
    if a == b then []
    else [Entry(PathC, "PATH", PathPrecedence, PathSize(|a|, OwnEntries(a, b)), PathSize(|b|, OwnEntries(b, a)), false)]
  }

  /** The requirements by ecosystem and name; a later one replaces an earlier one. */
  function RequirementTable(rs: seq<Requirement>): map<(string, string), string> {
    if rs == [] then map[]
    else
      var last := rs[|rs| - 1];
      RequirementTable(rs[..|rs| - 1])[(last.ecosystem, last.name) := last.spec]
  }

  function SpecOf(table: map<(string, string), string>, key: (string, string)): Side {
    if key in table then Shown(table[key]) else Nothing
  }

  function RequirementEntry(a: map<(string, string), string>, b: map<(string, string), string>, key: (string, string)): seq<Entry> {
    if SpecOf(a, key) == SpecOf(b, key) then []
    else [Entry(RequirementC, key.0 + ":" + key.1, ProjectCritical, SpecOf(a, key), SpecOf(b, key), true)]
  }

  /** The keys in the order of their pairs: by ecosystem, then by name. */
  function RequirementKeys(keys: set<(string, string)>): seq<(string, string)> {
    KeysOf(Sorted(set k | k in keys :: k.0), keys)
  }

  function KeysOf(ecosystems: seq<string>, keys: set<(string, string)>): seq<(string, string)> {
    if ecosystems == [] then []
    else PairsOf(ecosystems[0], Sorted(set k | k in keys && k.0 == ecosystems[0] :: k.1)) + KeysOf(ecosystems[1..], keys)
  }

  function PairsOf(ecosystem: string, names: seq<string>): seq<(string, string)> {
    if names == [] then [] else [(ecosystem, names[0])] + PairsOf(ecosystem, names[1..])
  }

  function RequirementEntries(a: Snapshot, b: Snapshot): seq<Entry> {
    var ra, rb := RequirementTable(a.requirements), RequirementTable(b.requirements);
    Collect(RequirementKeys(ra.Keys + rb.Keys), key => RequirementEntry(ra, rb, key))
  }

  // ---------------------------------------------------------------- containers, WSL, GPU

  function DaemonValue(c: Option<Containers>): Value {
    match c case None => Absent case Some(x) => x.daemonOk
  }

  function DaemonEntry(a: Option<Containers>, b: Option<Containers>): seq<Entry> {
    if a.Some? != b.Some? || (a.Some? && b.Some? && a.value.daemonOk != b.value.daemonOk) then
      [Entry(ContainerC, "docker-daemon", ProjectCritical, Show(DaemonValue(a)), Show(DaemonValue(b)), true)]
    else []
  }

  datatype Axis = Axis(name: string, value: Containers -> Value, critical: bool)

  function Axes(): seq<Axis> {
    [Axis("engine-backend", (c: Containers) => c.backend, true),
     Axis("engine-arch", (c: Containers) => c.serverArch, true),
     Axis("cgroup-version", (c: Containers) => c.cgroupVersion, true),
     Axis("storage-driver", (c: Containers) => c.storageDriver, false),
     Axis("engine-version", (c: Containers) => c.serverVersion, false),
     Axis("buildx-version", (c: Containers) => c.buildxVersion, false),
     Axis("rootless", (c: Containers) => c.rootless, true)]
  }

  function AxisEntry(a: Containers, b: Containers, axis: Axis): seq<Entry> {
    Compare(ContainerC, axis.name, if axis.critical then ProjectCritical else VersionDrift, axis.critical,
      axis.value(a), axis.value(b), ShowPresent)
  }

  function AxisEntries(a: Option<Containers>, b: Option<Containers>): seq<Entry> {
    if a.Some? && b.Some? then Collect(Axes(), axis => AxisEntry(a.value, b.value, axis)) else []
  }

  /** A field of a record that may be absent as a whole. */
  datatype Probe<!T> = Probe(name: string, value: T -> Value)

  function Field<T>(record: Option<T>, value: T -> Value): Value {
    match record case None => Absent case Some(x) => value(x)
  }

  function ProbeEntry<T>(component: Component, classification: Classification, critical: bool,
    a: Option<T>, b: Option<T>, probe: Probe<T>): seq<Entry>
  {
    Compare(component, probe.name, classification, critical, Field(a, probe.value), Field(b, probe.value), Show)
  }

  function CliProbes(): seq<Probe<Containers>> { [Probe("docker-cli", (c: Containers) => c.dockerCli)] }

  function WslProbes(): seq<Probe<Wsl>> {
    [Probe("wsl-available", (w: Wsl) => w.available), Probe("wsl-default-distro", (w: Wsl) => w.defaultDistro)]
  }

  function GpuProbes(): seq<Probe<Gpu>> {
    [Probe("nvidia-driver", (g: Gpu) => g.nvidiaDriver), Probe("cuda-toolkit", (g: Gpu) => g.cudaToolkit),
     Probe("rocm", (g: Gpu) => g.rocm)]
  }

  // ---------------------------------------------------------------- the diff

  /** `diff_snapshots`; None is the error for different schema versions.  The platform keys are a set the
      code walks in whatever order it has. */
  function Diff(order: seq<PlatformKey>, a: Snapshot, b: Snapshot): Option<seq<Entry>> {
    if a.schema != b.schema then None
    else Some(
      Collect(order, key => PlatformEntry(a.platform, b.platform, key))
      + ToolEntries(a, b)
      + OtherEntries(a, b))
  }

  /** The sections after the tools. */
  function OtherEntries(a: Snapshot, b: Snapshot): seq<Entry> {
    PathEntry(a.pathEntries, b.pathEntries)
    + RequirementEntries(a, b)
    + DaemonEntry(a.containers, b.containers)
    + AxisEntries(a.containers, b.containers)
    + Collect(CliProbes(), probe => ProbeEntry(ContainerC, VersionDrift, false, a.containers, b.containers, probe))
    + Collect(WslProbes(), probe => ProbeEntry(WslC, PlatformExpected, false, a.wsl, b.wsl, probe))
    + Collect(GpuProbes(), probe => ProbeEntry(GpuC, ProjectCritical, true, a.gpu, b.gpu, probe))
  }

  method DiffSnapshots(order: seq<PlatformKey>, a: Snapshot, b: Snapshot) returns (r: Option<seq<Entry>>)
    ensures r == Diff(order, a, b)
  {
    hide ToolTable, ToolNames, ToolEntry, CriticalNames, RequirementTable, RequirementKeys, RequirementEntry,
      PathEntry, DaemonEntry, AxisEntry, ProbeEntry, PlatformEntry, Axes, CliProbes, WslProbes, GpuProbes, Collect;
    if a.schema != b.schema {
      return None;
    }
    var entries := Append([], order, key => PlatformEntry(a.platform, b.platform, key));
    var ta, tb, critical := ToolTable(a.tools), ToolTable(b.tools), CriticalNames(a, b);
    entries := Append(entries, ToolNames(a, b), name => ToolEntry(ta, tb, critical, name));
    ghost var before := entries;
    entries := entries + PathEntry(a.pathEntries, b.pathEntries);
    var ra, rb := RequirementTable(a.requirements), RequirementTable(b.requirements);
    entries := Append(entries, RequirementKeys(ra.Keys + rb.Keys), key => RequirementEntry(ra, rb, key));
    entries := entries + DaemonEntry(a.containers, b.containers);
    if a.containers.Some? && b.containers.Some? {
      entries := Append(entries, Axes(), axis => AxisEntry(a.containers.value, b.containers.value, axis));
    }
    entries := Append(entries, CliProbes(),
      probe => ProbeEntry(ContainerC, VersionDrift, false, a.containers, b.containers, probe));
    entries := Append(entries, WslProbes(), probe => ProbeEntry(WslC, PlatformExpected, false, a.wsl, b.wsl, probe));
    entries := Append(entries, GpuProbes(), probe => ProbeEntry(GpuC, ProjectCritical, true, a.gpu, b.gpu, probe));
    assert before == Collect(order, key => PlatformEntry(a.platform, b.platform, key)) + ToolEntries(a, b);
    assert entries == before + OtherEntries(a, b);
    r := Some(entries);
  }

  /** One section's loop: the entries of each key appended to the shared list. */
  method Append<K>(before: seq<Entry>, keys: seq<K>, entriesOf: K -> seq<Entry>) returns (entries: seq<Entry>)
    ensures entries == before + Collect(keys, entriesOf)
  {
    entries := before;
    assert keys[0..] == keys;
    for i := 0 to |keys|
      invariant entries + Collect(keys[i..], entriesOf) == before + Collect(keys, entriesOf)
    {
      assert keys[i..][1..] == keys[i + 1..];
      entries := entries + entriesOf(keys[i]);
    }
  }

  // ---------------------------------------------------------------- seen from the other side

  lemma {:induction false} CollectSwaps<K>(keys: seq<K>, f: K -> seq<Entry>, g: K -> seq<Entry>)
    requires forall i | 0 <= i < |keys| :: g(keys[i]) == AllSwapped(f(keys[i]))
    ensures Collect(keys, g) == AllSwapped(Collect(keys, f))
  {
    if keys != [] {
      assert forall i | 0 <= i < |keys| - 1 :: keys[1..][i] == keys[i + 1];
      CollectSwaps(keys[1..], f, g);
      SwappedConcat(f(keys[0]), Collect(keys[1..], f));
    }
  }

  lemma SwappedConcat(x: seq<Entry>, y: seq<Entry>)
    ensures AllSwapped(x + y) == AllSwapped(x) + AllSwapped(y)
  {
  }

  lemma CompareSwaps(component: Component, name: string, classification: Classification, critical: bool,
    a: Value, b: Value, show: Value -> Side)
    ensures Compare(component, name, classification, critical, b, a, show)
         == AllSwapped(Compare(component, name, classification, critical, a, b, show))
  {
  }

  lemma PlatformSwaps(order: seq<PlatformKey>, a: Platform, b: Platform)
    ensures Collect(order, key => PlatformEntry(b, a, key)) == AllSwapped(Collect(order, key => PlatformEntry(a, b, key)))
  {
    hide Compare, Collect;
    var f, g := (key: PlatformKey) => PlatformEntry(a, b, key), (key: PlatformKey) => PlatformEntry(b, a, key);
    forall key: PlatformKey ensures g(key) == AllSwapped(f(key)) {
      CompareSwaps(PlatformC, PlatformName(key), PlatformExpected, false, PlatformValue(a, key), PlatformValue(b, key), Show);
    }
    CollectSwaps(order, f, g);
  }

  lemma ToolEntrySwaps(a: map<string, ToolRecord>, b: map<string, ToolRecord>, critical: set<string>, name: string)
    ensures ToolEntry(b, a, critical, name) == AllSwapped(ToolEntry(a, b, critical, name))
  {
  }

  lemma ToolsSwap(a: Snapshot, b: Snapshot)
    ensures ToolEntries(b, a) == AllSwapped(ToolEntries(a, b))
  {
    hide ToolEntry, Collect, Sorted, ToolTable, AllSwapped;
    var ta, tb, critical := ToolTable(a.tools), ToolTable(b.tools), CriticalNames(a, b);
    assert CriticalNames(b, a) == critical;
    assert tb.Keys + ta.Keys == ta.Keys + tb.Keys;
    assert ToolNames(b, a) == ToolNames(a, b);
    var f, g := (name: string) => ToolEntry(ta, tb, critical, name), (name: string) => ToolEntry(tb, ta, critical, name);
    forall name: string ensures g(name) == AllSwapped(f(name)) { ToolEntrySwaps(ta, tb, critical, name); }
    CollectSwaps(ToolNames(a, b), f, g);
  }

  lemma RequirementsSwap(a: Snapshot, b: Snapshot)
    ensures RequirementEntries(b, a) == AllSwapped(RequirementEntries(a, b))
  {
    hide Collect, RequirementTable, RequirementKeys, SpecOf;
    var ra, rb := RequirementTable(a.requirements), RequirementTable(b.requirements);
    assert rb.Keys + ra.Keys == ra.Keys + rb.Keys;
    var f, g := (key: (string, string)) => RequirementEntry(ra, rb, key), (key: (string, string)) => RequirementEntry(rb, ra, key);
    forall key: (string, string) ensures g(key) == AllSwapped(f(key)) {}
    CollectSwaps(RequirementKeys(ra.Keys + rb.Keys), f, g);
  }

  lemma AxesSwap(a: Option<Containers>, b: Option<Containers>)
    ensures AxisEntries(b, a) == AllSwapped(AxisEntries(a, b))
  {
    hide Collect, Axes, Compare;
    if a.Some? && b.Some? {
      var f, g := (axis: Axis) => AxisEntry(a.value, b.value, axis), (axis: Axis) => AxisEntry(b.value, a.value, axis);
      forall axis: Axis ensures g(axis) == AllSwapped(f(axis)) {
        CompareSwaps(ContainerC, axis.name, if axis.critical then ProjectCritical else VersionDrift, axis.critical,
          axis.value(a.value), axis.value(b.value), ShowPresent);
      }
      CollectSwaps(Axes(), f, g);
    }
  }

  lemma ProbesSwap<T>(component: Component, classification: Classification, critical: bool,
    a: Option<T>, b: Option<T>, probes: seq<Probe<T>>)
    ensures Collect(probes, probe => ProbeEntry(component, classification, critical, b, a, probe))
         == AllSwapped(Collect(probes, probe => ProbeEntry(component, classification, critical, a, b, probe)))
  {
    hide Collect, Compare;
    var f := (probe: Probe<T>) => ProbeEntry(component, classification, critical, a, b, probe);
    var g := (probe: Probe<T>) => ProbeEntry(component, classification, critical, b, a, probe);
    forall i | 0 <= i < |probes| ensures g(probes[i]) == AllSwapped(f(probes[i])) {
      CompareSwaps(component, probes[i].name, classification, critical,
        Field(a, probes[i].value), Field(b, probes[i].value), Show);
    }
    CollectSwaps(probes, f, g);
  }

  lemma PathAndDaemonSwap(a: Snapshot, b: Snapshot)
    ensures PathEntry(b.pathEntries, a.pathEntries) == AllSwapped(PathEntry(a.pathEntries, b.pathEntries))
    ensures DaemonEntry(b.containers, a.containers) == AllSwapped(DaemonEntry(a.containers, b.containers))
  {
  }

  /** Comparing the other way round gives the same entries with their sides exchanged. */
  lemma DiffSwaps(order: seq<PlatformKey>, a: Snapshot, b: Snapshot)
    ensures Diff(order, b, a) ==
      match Diff(order, a, b) case None => None case Some(entries) => Some(AllSwapped(entries))
  {
    hide AllSwapped, Collect, ToolEntries, PathEntry, RequirementEntries, DaemonEntry, AxisEntries,
      CliProbes, WslProbes, GpuProbes, ProbeEntry, PlatformEntry;
    if a.schema == b.schema {
      PlatformSwaps(order, a.platform, b.platform);
      ToolsSwap(a, b);
      RequirementsSwap(a, b);
      PathAndDaemonSwap(a, b);
      AxesSwap(a.containers, b.containers);
      ProbesSwap(ContainerC, VersionDrift, false, a.containers, b.containers, CliProbes());
      ProbesSwap(WslC, PlatformExpected, false, a.wsl, b.wsl, WslProbes());
      ProbesSwap(GpuC, ProjectCritical, true, a.gpu, b.gpu, GpuProbes());
      SwappedConcats();
    }
  }

  lemma SwappedConcats()
    ensures forall x, y: seq<Entry> :: AllSwapped(x + y) == AllSwapped(x) + AllSwapped(y)
  {
    hide AllSwapped;
    forall x: seq<Entry>, y: seq<Entry> ensures AllSwapped(x + y) == AllSwapped(x) + AllSwapped(y) {
      SwappedConcat(x, y);
    }
  }

  // ---------------------------------------------------------------- what a diff is silent about

  /** Nothing in the list is a difference. */
  predicate AllSame(es: seq<Entry>) {
    forall i | 0 <= i < |es| :: es[i].classification == Same
  }

  lemma SameConcat(x: seq<Entry>, y: seq<Entry>)
    ensures AllSame(x + y) <==> AllSame(x) && AllSame(y)
  {
    if AllSame(x + y) {
      assert forall i | 0 <= i < |x| :: (x + y)[i] == x[i];
      assert forall i | 0 <= i < |y| :: (x + y)[|x| + i] == y[i];
    }
  }

  lemma {:induction false} CollectSame<K>(keys: seq<K>, f: K -> seq<Entry>)
    ensures AllSame(Collect(keys, f)) <==> forall i | 0 <= i < |keys| :: AllSame(f(keys[i]))
  {
    hide AllSame;
    if keys == [] {
      assert AllSame([]) by { NothingSame(); }
    } else {
      var rest := keys[1..];
      CollectSame(rest, f);
      SameConcat(f(keys[0]), Collect(rest, f));
      assert forall i | 0 <= i < |rest| :: rest[i] == keys[i + 1];
      assert forall i | 0 < i < |keys| :: keys[i] == rest[i - 1];
    }
  }

  lemma NothingSame()
    ensures AllSame([])
  {
  }

  lemma OneSame(e: Entry)
    ensures AllSame([e]) <==> e.classification == Same
  {
    assert [e][0] == e;
  }

  lemma CompareSame(component: Component, name: string, classification: Classification, critical: bool,
    a: Value, b: Value, show: Value -> Side)
    requires classification != Same
    ensures AllSame(Compare(component, name, classification, critical, a, b, show)) <==> a == b
  {
    OneSame(Entry(component, name, classification, show(a), show(b), critical));
  }

  predicate PlatformsAgree(order: seq<PlatformKey>, a: Platform, b: Platform) {
    forall i | 0 <= i < |order| :: PlatformValue(a, order[i]) == PlatformValue(b, order[i])
  }

  lemma PlatformSilent(order: seq<PlatformKey>, a: Platform, b: Platform)
    ensures AllSame(Collect(order, key => PlatformEntry(a, b, key))) <==> PlatformsAgree(order, a, b)
  {
    hide AllSame, Collect, Compare;
    var f := (key: PlatformKey) => PlatformEntry(a, b, key);
    forall key: PlatformKey ensures AllSame(f(key)) <==> PlatformValue(a, key) == PlatformValue(b, key) {
      CompareSame(PlatformC, PlatformName(key), PlatformExpected, false, PlatformValue(a, key), PlatformValue(b, key), Show);
    }
    CollectSame(order, f);
  }

  predicate ToolAgrees(a: map<string, ToolRecord>, b: map<string, ToolRecord>, name: string) {
    && (name in a <==> name in b)
    && (name in a && name in b ==>
          && OrEmpty(a[name].version) == OrEmpty(b[name].version)
          && OrEmpty(a[name].exePath) == OrEmpty(b[name].exePath))
  }

  ghost predicate ToolsAgree(a: seq<ToolRecord>, b: seq<ToolRecord>) {
    forall name :: ToolAgrees(ToolTable(a), ToolTable(b), name)
  }

  lemma ToolSilent(a: map<string, ToolRecord>, b: map<string, ToolRecord>, critical: set<string>, name: string)
    ensures AllSame(ToolEntry(a, b, critical, name)) <==> ToolAgrees(a, b, name)
  {
    var es := ToolEntry(a, b, critical, name);
    if es != [] { OneSame(es[0]); assert es == [es[0]]; }
  }

  lemma ToolsSilent(a: Snapshot, b: Snapshot)
    ensures AllSame(ToolEntries(a, b)) <==> ToolsAgree(a.tools, b.tools)
  {
    hide ToolEntry, Collect, Sorted, ToolTable, AllSame, Increasing, ToolAgrees;
    var ta, tb, critical := ToolTable(a.tools), ToolTable(b.tools), CriticalNames(a, b);
    var names, f := ToolNames(a, b), (name: string) => ToolEntry(ta, tb, critical, name);
    forall name: string ensures AllSame(f(name)) <==> ToolAgrees(ta, tb, name) { ToolSilent(ta, tb, critical, name); }
    CollectSame(names, f);
    forall name: string ensures ToolAgrees(ta, tb, name) || name in names {
      if name !in names { UnknownAgrees(ta, tb, name); }
    }
    assert forall i | 0 <= i < |names| :: AllSame(f(names[i])) <==> ToolAgrees(ta, tb, names[i]);
  }

  lemma UnknownAgrees(a: map<string, ToolRecord>, b: map<string, ToolRecord>, name: string)
    requires name !in a && name !in b
    ensures ToolAgrees(a, b, name)
  {
  }

  lemma {:induction false} PairsExactly(ecosystem: string, names: seq<string>, key: (string, string))
    ensures key in PairsOf(ecosystem, names) <==> key.0 == ecosystem && key.1 in names
  {
    if names != [] { PairsExactly(ecosystem, names[1..], key); }
  }

  lemma {:induction false} KeysExactly(ecosystems: seq<string>, keys: set<(string, string)>, key: (string, string))
    ensures key in KeysOf(ecosystems, keys) <==> key in keys && key.0 in ecosystems
  {
    hide Sorted, PairsOf;
    if ecosystems != [] {
      var names := set k | k in keys && k.0 == ecosystems[0] :: k.1;
      PairsExactly(ecosystems[0], Sorted(names), key);
      assert key.1 in names && key.0 == ecosystems[0] ==> key in keys by {
        if key.1 in names { var k :| k in keys && k.0 == ecosystems[0] && k.1 == key.1; assert k == (k.0, k.1); }
      }
      KeysExactly(ecosystems[1..], keys, key);
    }
  }

  /** Every requirement of either side is compared, and no other. */
  lemma RequirementKeysExactly(keys: set<(string, string)>, key: (string, string))
    ensures key in RequirementKeys(keys) <==> key in keys
  {
    hide Sorted, KeysOf;
    KeysExactly(Sorted(set k | k in keys :: k.0), keys, key);
  }

  lemma RequirementSilent(a: map<(string, string), string>, b: map<(string, string), string>, key: (string, string))
    ensures AllSame(RequirementEntry(a, b, key)) <==> SpecOf(a, key) == SpecOf(b, key)
  {
    var es := RequirementEntry(a, b, key);
    if es != [] { OneSame(es[0]); assert es == [es[0]]; }
  }

  lemma RequirementsSilent(a: Snapshot, b: Snapshot)
    ensures AllSame(RequirementEntries(a, b)) <==> RequirementTable(a.requirements) == RequirementTable(b.requirements)
  {
    hide RequirementEntry, Collect, RequirementTable, RequirementKeys, AllSame;
    var ra, rb := RequirementTable(a.requirements), RequirementTable(b.requirements);
    var keys, f := RequirementKeys(ra.Keys + rb.Keys), (key: (string, string)) => RequirementEntry(ra, rb, key);
    forall key: (string, string) ensures AllSame(f(key)) <==> SpecOf(ra, key) == SpecOf(rb, key) {
      RequirementSilent(ra, rb, key);
    }
    CollectSame(keys, f);
    if forall i | 0 <= i < |keys| :: AllSame(f(keys[i])) {
      forall key: (string, string) ensures SpecOf(ra, key) == SpecOf(rb, key) {
        RequirementKeysExactly(ra.Keys + rb.Keys, key);
      }
      SameSpecs(ra, rb);
    }
  }

  lemma SameSpecs(a: map<(string, string), string>, b: map<(string, string), string>)
    requires forall key: (string, string) :: SpecOf(a, key) == SpecOf(b, key)
    ensures a == b
  {
    forall key: (string, string) ensures (key in a <==> key in b) && (key in a ==> a[key] == b[key]) {
      assert SpecOf(a, key) == SpecOf(b, key);
    }
  }

  predicate AxesAgree(a: Containers, b: Containers) {
    && a.backend == b.backend && a.serverArch == b.serverArch && a.cgroupVersion == b.cgroupVersion
    && a.storageDriver == b.storageDriver && a.serverVersion == b.serverVersion
    && a.buildxVersion == b.buildxVersion && a.rootless == b.rootless
  }

  predicate ContainersAgree(a: Option<Containers>, b: Option<Containers>) {
    && a.Some? == b.Some?
    && (a.Some? && b.Some? ==>
          && a.value.daemonOk == b.value.daemonOk && a.value.dockerCli == b.value.dockerCli
          && AxesAgree(a.value, b.value))
  }

  lemma AxesRead(a: Containers, b: Containers)
    ensures AxesAgree(a, b) <==> forall i | 0 <= i < |Axes()| :: Axes()[i].value(a) == Axes()[i].value(b)
  {
    var axes := Axes();
    assert axes[0].value(a) == a.backend && axes[0].value(b) == b.backend;
    assert axes[1].value(a) == a.serverArch && axes[1].value(b) == b.serverArch;
    assert axes[2].value(a) == a.cgroupVersion && axes[2].value(b) == b.cgroupVersion;
    assert axes[3].value(a) == a.storageDriver && axes[3].value(b) == b.storageDriver;
    assert axes[4].value(a) == a.serverVersion && axes[4].value(b) == b.serverVersion;
    assert axes[5].value(a) == a.buildxVersion && axes[5].value(b) == b.buildxVersion;
    assert axes[6].value(a) == a.rootless && axes[6].value(b) == b.rootless;
  }

  lemma AxesSilent(a: Containers, b: Containers)
    ensures AllSame(Collect(Axes(), axis => AxisEntry(a, b, axis))) <==> AxesAgree(a, b)
  {
    hide AllSame, Collect, Compare, Axes, AxesAgree;
    var f, axes := (axis: Axis) => AxisEntry(a, b, axis), Axes();
    forall i | 0 <= i < |axes| ensures AllSame(f(axes[i])) <==> axes[i].value(a) == axes[i].value(b) {
      CompareSame(ContainerC, axes[i].name, if axes[i].critical then ProjectCritical else VersionDrift, axes[i].critical,
        axes[i].value(a), axes[i].value(b), ShowPresent);
    }
    CollectSame(axes, f);
    AxesRead(a, b);
  }

  lemma ProbesSilent<T>(component: Component, classification: Classification, critical: bool,
    a: Option<T>, b: Option<T>, probes: seq<Probe<T>>)
    requires classification != Same
    ensures AllSame(Collect(probes, probe => ProbeEntry(component, classification, critical, a, b, probe)))
      <==> forall i | 0 <= i < |probes| :: Field(a, probes[i].value) == Field(b, probes[i].value)
  {
    hide AllSame, Collect, Compare, Field;
    var f := (probe: Probe<T>) => ProbeEntry(component, classification, critical, a, b, probe);
    forall i | 0 <= i < |probes|
      ensures AllSame(f(probes[i])) <==> Field(a, probes[i].value) == Field(b, probes[i].value)
    {
      CompareSame(component, probes[i].name, classification, critical,
        Field(a, probes[i].value), Field(b, probes[i].value), Show);
    }
    CollectSame(probes, f);
  }

  predicate WslAgree(a: Option<Wsl>, b: Option<Wsl>) {
    && Field(a, (w: Wsl) => w.available) == Field(b, (w: Wsl) => w.available)
    && Field(a, (w: Wsl) => w.defaultDistro) == Field(b, (w: Wsl) => w.defaultDistro)
  }

  predicate GpusAgree(a: Option<Gpu>, b: Option<Gpu>) {
    && Field(a, (g: Gpu) => g.nvidiaDriver) == Field(b, (g: Gpu) => g.nvidiaDriver)
    && Field(a, (g: Gpu) => g.cudaToolkit) == Field(b, (g: Gpu) => g.cudaToolkit)
    && Field(a, (g: Gpu) => g.rocm) == Field(b, (g: Gpu) => g.rocm)
  }

  lemma DaemonSilent(a: Option<Containers>, b: Option<Containers>)
    ensures AllSame(DaemonEntry(a, b))
      <==> a.Some? == b.Some? && (a.Some? && b.Some? ==> a.value.daemonOk == b.value.daemonOk)
  {
    var es := DaemonEntry(a, b);
    if es != [] { OneSame(es[0]); assert es == [es[0]]; }
  }

  lemma CliSilent(a: Option<Containers>, b: Option<Containers>)
    ensures AllSame(Collect(CliProbes(), probe => ProbeEntry(ContainerC, VersionDrift, false, a, b, probe)))
      <==> Field(a, (c: Containers) => c.dockerCli) == Field(b, (c: Containers) => c.dockerCli)
  {
    hide Collect, AllSame, Field, ProbeEntry;
    ProbesSilent(ContainerC, VersionDrift, false, a, b, CliProbes());
    var probes := CliProbes();
    assert Field(a, probes[0].value) == Field(b, probes[0].value)
      <==> Field(a, (c: Containers) => c.dockerCli) == Field(b, (c: Containers) => c.dockerCli);
  }

  lemma ContainersSilent(a: Option<Containers>, b: Option<Containers>)
    ensures AllSame(DaemonEntry(a, b)) && AllSame(AxisEntries(a, b))
        && AllSame(Collect(CliProbes(), probe => ProbeEntry(ContainerC, VersionDrift, false, a, b, probe)))
      <==> ContainersAgree(a, b)
  {
    hide Collect, Axes, AxesAgree, CliProbes, ProbeEntry, DaemonEntry;
    DaemonSilent(a, b);
    CliSilent(a, b);
    if a.Some? && b.Some? { AxesSilent(a.value, b.value); }
  }

  lemma WslSilent(a: Option<Wsl>, b: Option<Wsl>)
    ensures AllSame(Collect(WslProbes(), probe => ProbeEntry(WslC, PlatformExpected, false, a, b, probe))) <==> WslAgree(a, b)
  {
    hide Collect, AllSame, Field, ProbeEntry;
    ProbesSilent(WslC, PlatformExpected, false, a, b, WslProbes());
    var probes := WslProbes();
    assert Field(a, probes[0].value) == Field(b, probes[0].value)
      <==> Field(a, (w: Wsl) => w.available) == Field(b, (w: Wsl) => w.available);
    assert Field(a, probes[1].value) == Field(b, probes[1].value)
      <==> Field(a, (w: Wsl) => w.defaultDistro) == Field(b, (w: Wsl) => w.defaultDistro);
  }

  lemma GpuSilent(a: Option<Gpu>, b: Option<Gpu>)
    ensures AllSame(Collect(GpuProbes(), probe => ProbeEntry(GpuC, ProjectCritical, true, a, b, probe))) <==> GpusAgree(a, b)
  {
    hide Collect, AllSame, Field, ProbeEntry;
    ProbesSilent(GpuC, ProjectCritical, true, a, b, GpuProbes());
    var probes := GpuProbes();
    assert Field(a, probes[0].value) == Field(b, probes[0].value)
      <==> Field(a, (g: Gpu) => g.nvidiaDriver) == Field(b, (g: Gpu) => g.nvidiaDriver);
    assert Field(a, probes[1].value) == Field(b, probes[1].value)
      <==> Field(a, (g: Gpu) => g.cudaToolkit) == Field(b, (g: Gpu) => g.cudaToolkit);
    assert Field(a, probes[2].value) == Field(b, probes[2].value)
      <==> Field(a, (g: Gpu) => g.rocm) == Field(b, (g: Gpu) => g.rocm);
  }

  lemma PathSilent(a: seq<string>, b: seq<string>)
    ensures AllSame(PathEntry(a, b)) <==> a == b
  {
    var es := PathEntry(a, b);
    if es != [] { OneSame(es[0]); assert es == [es[0]]; }
  }

  /** Everything a diff compares is the same on both sides. */
  ghost predicate Agree(order: seq<PlatformKey>, a: Snapshot, b: Snapshot) {
    && PlatformsAgree(order, a.platform, b.platform)
    && ToolsAgree(a.tools, b.tools)
    && a.pathEntries == b.pathEntries
    && RequirementTable(a.requirements) == RequirementTable(b.requirements)
    && ContainersAgree(a.containers, b.containers)
    && WslAgree(a.wsl, b.wsl)
    && GpusAgree(a.gpu, b.gpu)
  }

  lemma OthersSilent(a: Snapshot, b: Snapshot)
    ensures AllSame(OtherEntries(a, b))
      <==> && a.pathEntries == b.pathEntries
           && RequirementTable(a.requirements) == RequirementTable(b.requirements)
           && ContainersAgree(a.containers, b.containers) && WslAgree(a.wsl, b.wsl) && GpusAgree(a.gpu, b.gpu)
  {
    hide AllSame, Collect, PathEntry, RequirementEntries, DaemonEntry, AxisEntries, CliProbes, WslProbes, GpuProbes,
      ProbeEntry, RequirementTable, ContainersAgree, WslAgree, GpusAgree;
    PathSilent(a.pathEntries, b.pathEntries);
    RequirementsSilent(a, b);
    ContainersSilent(a.containers, b.containers);
    WslSilent(a.wsl, b.wsl);
    GpuSilent(a.gpu, b.gpu);
    var path, requirements := PathEntry(a.pathEntries, b.pathEntries), RequirementEntries(a, b);
    var daemon, axes := DaemonEntry(a.containers, b.containers), AxisEntries(a.containers, b.containers);
    var cli := Collect(CliProbes(), probe => ProbeEntry(ContainerC, VersionDrift, false, a.containers, b.containers, probe));
    var wsl := Collect(WslProbes(), probe => ProbeEntry(WslC, PlatformExpected, false, a.wsl, b.wsl, probe));
    var gpu := Collect(GpuProbes(), probe => ProbeEntry(GpuC, ProjectCritical, true, a.gpu, b.gpu, probe));
    SameConcat(path, requirements);
    SameConcat(path + requirements, daemon);
    SameConcat(path + requirements + daemon, axes);
    SameConcat(path + requirements + daemon + axes, cli);
    SameConcat(path + requirements + daemon + axes + cli, wsl);
    SameConcat(path + requirements + daemon + axes + cli + wsl, gpu);
  }

  /** A diff reports no difference exactly when the snapshots agree on all it compares: the platform keys,
      the tools by name, PATH, the requirements, the container engine, WSL and the GPU. */
  lemma SilentExactly(order: seq<PlatformKey>, a: Snapshot, b: Snapshot)
    requires a.schema == b.schema
    ensures AllSame(Diff(order, a, b).value) <==> Agree(order, a, b)
  {
    hide AllSame, Collect, ToolEntries, OtherEntries, PlatformsAgree, ToolsAgree, RequirementTable, ContainersAgree,
      WslAgree, GpusAgree, PlatformEntry;
    PlatformSilent(order, a.platform, b.platform);
    ToolsSilent(a, b);
    OthersSilent(a, b);
    var platform := Collect(order, key => PlatformEntry(a.platform, b.platform, key));
    SameConcat(platform, ToolEntries(a, b));
    SameConcat(platform + ToolEntries(a, b), OtherEntries(a, b));
  }

  /** A snapshot compared with itself has no entry but that its tools are the same. */
  lemma DiffOfSelf(order: seq<PlatformKey>, a: Snapshot)
    ensures Diff(order, a, a).Some? && AllSame(Diff(order, a, a).value)
  {
    hide AllSame, Diff, RequirementTable, ToolTable, Field;
    assert Diff(order, a, a).Some? by { SameSchema(order, a, a); }
    SilentExactly(order, a, a);
  }

  lemma SameSchema(order: seq<PlatformKey>, a: Snapshot, b: Snapshot)
    ensures Diff(order, a, b).Some? <==> a.schema == b.schema
  {
  }

  // ---------------------------------------------------------------- the tools can be recovered

  /** Name to version, "" for none known. */
  function Versions(table: map<string, ToolRecord>): map<string, string> {
    map name | name in table :: OrEmpty(table[name].version)
  }

  /** A side's text, "" for nothing. */
  function TextOf(s: Side): string { if s.Shown? then s.text else "" }

  /** One entry applied to a version table. */
  function Patch(versions: map<string, string>, e: Entry): map<string, string> {
    if e.component != ToolC then versions
    else match e.classification
      case Missing => if e.name in versions then versions - {e.name} else versions[e.name := TextOf(e.b)]
      case VersionDrift => versions[e.name := TextOf(e.b)]
      case _ => versions
  }

  function PatchAll(versions: map<string, string>, es: seq<Entry>): map<string, string>
    decreases |es|
  {
    if es == [] then versions else PatchAll(Patch(versions, es[0]), es[1..])
  }

  lemma {:induction false} PatchConcat(versions: map<string, string>, x: seq<Entry>, y: seq<Entry>)
    ensures PatchAll(versions, x + y) == PatchAll(PatchAll(versions, x), y)
    decreases |x|
  {
    hide Patch;
    if x == [] {
      assert x + y == y;
    } else {
      assert (x + y)[1..] == x[1..] + y;
      PatchConcat(Patch(versions, x[0]), x[1..], y);
    }
  }

  function Lookup(versions: map<string, string>, name: string): Option<string> {
    if name in versions then Some(versions[name]) else None
  }

  lemma PatchOneTool(a: map<string, ToolRecord>, b: map<string, ToolRecord>, critical: set<string>, name: string,
    versions: map<string, string>, k: string)
    requires Lookup(versions, name) == Lookup(Versions(a), name)
    ensures Lookup(PatchAll(versions, ToolEntry(a, b, critical, name)), k)
         == if k == name then Lookup(Versions(b), name) else Lookup(versions, k)
  {
    var es := ToolEntry(a, b, critical, name);
    if es != [] {
      assert es[1..] == [];
      assert PatchAll(versions, es) == Patch(versions, es[0]);
    }
  }

  lemma {:induction false} PatchTools(a: map<string, ToolRecord>, b: map<string, ToolRecord>, critical: set<string>,
    names: seq<string>, versions: map<string, string>, k: string)
    requires Increasing(names)
    requires forall i | 0 <= i < |names| :: Lookup(versions, names[i]) == Lookup(Versions(a), names[i])
    ensures Lookup(PatchAll(versions, Collect(names, name => ToolEntry(a, b, critical, name))), k)
         == if k in names then Lookup(Versions(b), k) else Lookup(versions, k)
    decreases |names|
  {
    hide ToolEntry, Lookup, Versions, Leq, PatchAll;
    var f := (name: string) => ToolEntry(a, b, critical, name);
    if names == [] {
      PatchNone(versions);
    } else {
      var name, rest := names[0], names[1..];
      var next := PatchAll(versions, f(name));
      PatchConcat(versions, f(name), Collect(rest, f));
      assert k in names <==> k == name || k in rest;
      assert name !in rest;
      forall i | 0 <= i < |rest| ensures Lookup(next, rest[i]) == Lookup(Versions(a), rest[i]) {
        PatchOneTool(a, b, critical, name, versions, rest[i]);
        assert rest[i] == names[i + 1] && rest[i] in rest;
      }
      PatchOneTool(a, b, critical, name, versions, k);
      PatchTools(a, b, critical, rest, next, k);
    }
  }

  lemma PatchNone(versions: map<string, string>)
    ensures PatchAll(versions, []) == versions
  {
  }

  lemma SameTable(x: map<string, string>, y: map<string, string>)
    requires forall k :: Lookup(x, k) == Lookup(y, k)
    ensures x == y
  {
    forall k ensures (k in x <==> k in y) && (k in x ==> x[k] == y[k]) { assert Lookup(x, k) == Lookup(y, k); }
  }

  /** Entries of other components leave the table alone. */
  lemma {:induction false} PatchSkips(versions: map<string, string>, es: seq<Entry>)
    requires forall i | 0 <= i < |es| :: es[i].component != ToolC
    ensures PatchAll(versions, es) == versions
  {
    if es != [] { PatchSkips(versions, es[1..]); }
  }

  lemma {:induction false} CollectOther<K>(keys: seq<K>, f: K -> seq<Entry>)
    requires forall i | 0 <= i < |keys| :: forall j | 0 <= j < |f(keys[i])| :: f(keys[i])[j].component != ToolC
    ensures forall j | 0 <= j < |Collect(keys, f)| :: Collect(keys, f)[j].component != ToolC
  {
    if keys != [] {
      assert forall i | 0 <= i < |keys| - 1 :: keys[1..][i] == keys[i + 1];
      CollectOther(keys[1..], f);
    }
  }

  lemma ToolEntriesPatch(a: Snapshot, b: Snapshot)
    ensures PatchAll(Versions(ToolTable(a.tools)), ToolEntries(a, b)) == Versions(ToolTable(b.tools))
  {
    hide ToolEntry, Collect, ToolTable, PatchAll, Sorted, Increasing;
    var ta, tb, critical := ToolTable(a.tools), ToolTable(b.tools), CriticalNames(a, b);
    var patched := PatchAll(Versions(ta), ToolEntries(a, b));
    forall k ensures Lookup(patched, k) == Lookup(Versions(tb), k) {
      PatchTools(ta, tb, critical, ToolNames(a, b), Versions(ta), k);
    }
    SameTable(patched, Versions(tb));
  }

  /** The rest of the diff after the tools. */
  lemma OtherSections(a: Snapshot, b: Snapshot)
    ensures forall i | 0 <= i < |OtherEntries(a, b)| :: OtherEntries(a, b)[i].component != ToolC
  {
    hide Collect, RequirementTable, RequirementKeys, CliProbes, WslProbes, GpuProbes, Axes;
    var ra, rb := RequirementTable(a.requirements), RequirementTable(b.requirements);
    CollectOther(RequirementKeys(ra.Keys + rb.Keys), key => RequirementEntry(ra, rb, key));
    if a.containers.Some? && b.containers.Some? {
      CollectOther(Axes(), axis => AxisEntry(a.containers.value, b.containers.value, axis));
    }
    CollectOther(CliProbes(), probe => ProbeEntry(ContainerC, VersionDrift, false, a.containers, b.containers, probe));
    CollectOther(WslProbes(), probe => ProbeEntry(WslC, PlatformExpected, false, a.wsl, b.wsl, probe));
    CollectOther(GpuProbes(), probe => ProbeEntry(GpuC, ProjectCritical, true, a.gpu, b.gpu, probe));
  }

  /** One side's versions and the entries determine the other side's versions. */
  lemma DiffDeterminesTools(order: seq<PlatformKey>, a: Snapshot, b: Snapshot)
    requires a.schema == b.schema
    ensures PatchAll(Versions(ToolTable(a.tools)), Diff(order, a, b).value) == Versions(ToolTable(b.tools))
  {
    hide PatchAll, Collect, ToolEntries, OtherEntries, ToolTable, Versions;
    var platform := Collect(order, key => PlatformEntry(a.platform, b.platform, key));
    CollectOther(order, key => PlatformEntry(a.platform, b.platform, key));
    OtherSections(a, b);
    var rest := OtherEntries(a, b);
    var versions := Versions(ToolTable(a.tools));
    assert Diff(order, a, b).value == platform + ToolEntries(a, b) + rest;
    PatchConcat(versions, platform + ToolEntries(a, b), rest);
    PatchConcat(versions, platform, ToolEntries(a, b));
    PatchSkips(versions, platform);
    ToolEntriesPatch(a, b);
    PatchSkips(Versions(ToolTable(b.tools)), rest);
  }

  lemma {:induction false} OneEntryEach(a: map<string, ToolRecord>, b: map<string, ToolRecord>, critical: set<string>, names: seq<string>)
    requires forall i | 0 <= i < |names| :: names[i] in a || names[i] in b
    ensures var es := Collect(names, name => ToolEntry(a, b, critical, name));
      |es| == |names| && forall i | 0 <= i < |es| :: es[i].name == names[i] && es[i].component == ToolC
  {
    var f := (name: string) => ToolEntry(a, b, critical, name);
    if names != [] {
      OneEntryEach(a, b, critical, names[1..]);
      var rest := Collect(names[1..], f);
      assert |f(names[0])| == 1 && f(names[0])[0].name == names[0];
      assert Collect(names, f) == f(names[0]) + rest;
    }
  }

  lemma {:induction false} TableHasNames(tools: seq<ToolRecord>, name: string)
    ensures name in ToolTable(tools) <==> exists i | 0 <= i < |tools| :: tools[i].name == name
  {
    if tools != [] {
      var n := |tools| - 1;
      TableHasNames(tools[..n], name);
      assert forall i | 0 <= i < n :: tools[..n][i] == tools[i];
      if i :| 0 <= i < |tools| && tools[i].name == name && tools[n].name != name {
        assert tools[..n][i].name == name;
      }
    }
  }

  /** There is exactly one tool entry for each name that either side has, in increasing order of name. */
  lemma OneToolEntryPerName(a: Snapshot, b: Snapshot)
    ensures var es, names := ToolEntries(a, b), ToolNames(a, b);
      && Increasing(names)
      && (forall name :: name in names
            <==> (exists i | 0 <= i < |a.tools| :: a.tools[i].name == name)
                 || (exists i | 0 <= i < |b.tools| :: b.tools[i].name == name))
      && |es| == |names|
      && forall i | 0 <= i < |es| :: es[i].name == names[i] && es[i].component == ToolC
  {
    hide Sorted, ToolTable, ToolEntry, Increasing;
    var names := ToolNames(a, b);
    forall name
      ensures name in names
        <==> (exists i | 0 <= i < |a.tools| :: a.tools[i].name == name)
             || (exists i | 0 <= i < |b.tools| :: b.tools[i].name == name)
    {
      TableHasNames(a.tools, name);
      TableHasNames(b.tools, name);
    }
    assert forall i | 0 <= i < |names| :: names[i] in names;
    OneEntryEach(ToolTable(a.tools), ToolTable(b.tools), CriticalNames(a, b), names);
  }
}
