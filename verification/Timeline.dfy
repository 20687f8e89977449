/** The drift timeline (devrepro/drift/timeline.py): an event log over a history of snapshots that can
    be replayed to every one of them and undone to nothing. */
module Timeline {
  import opened Strings
  import opened Ordering

  /** A tool record of a snapshot; a missing or empty field is "". */
  datatype ToolRecord = NotARecord | ToolRecord(name: string, version: string)

  /** A missing or empty containers field reads as the record of absent values. */
  datatype ContainerRecord =
    NotContainers | ContainerRecord(daemonOk: bool, cliVersion: string, podmanVersion: string)

  datatype Snapshot = Snapshot(tools: seq<ToolRecord>, containers: ContainerRecord)

  datatype Component = Tool | Container | Other(text: string)

  datatype Kind = Added | Removed | VersionChanged | StateChanged

  datatype Event = Event(
    index: nat, component: Component, name: string, kind: Kind, before: Option<string>, after: Option<string>)

  type Values = map<string, string>

  function Get(m: Values, key: string): Option<string> {
    if key in m then Some(m[key]) else None
  }

  /** Later records win; an unnamed one is skipped, an unknown version is "?". */
  function ToolMap(tools: seq<ToolRecord>): Values {
    if tools == [] then map[]
    else
      var rest, t := ToolMap(tools[..|tools| - 1]), tools[|tools| - 1];
      if t.ToolRecord? && t.name != "" then rest[t.name := if t.version != "" then t.version else "?"]
      else rest
  }

  function ContainerMap(c: ContainerRecord): Values {
    match c
    case NotContainers => map[]
    case ContainerRecord(ok, cli, podman) =>
      map["docker-daemon" := if ok then "ok" else "down",
          "docker-cli" := if cli != "" then cli else "-",
          "podman" := if podman != "" then podman else "-"]
  }

  method ToolMapLoop(tools: seq<ToolRecord>) returns (out: Values)
    ensures out == ToolMap(tools)
  {
    out := map[];
    for i := 0 to |tools|
      invariant out == ToolMap(tools[..i])
    {
      var t := tools[i];
      assert tools[..i + 1][..i] == tools[..i];
      if t.ToolRecord? && t.name != "" {
        out := out[t.name := if t.version != "" then t.version else "?"];
      }
    }
    assert tools[..|tools|] == tools;
  }

  /** The values of a component after n snapshots; none before the first. */
  function ValuesAt(snapshots: seq<Snapshot>, component: Component, n: nat): Values
    requires n <= |snapshots|
  {
    if n == 0 then map[]
    else match component
      case Tool => ToolMap(snapshots[n - 1].tools)
      case Container => ContainerMap(snapshots[n - 1].containers)
      case Other(_) => map[]
  }

  // ---------------------------------------------------------------- building

  function KindOf(component: Component, before: Option<string>, after: Option<string>): Kind {
    if component.Container? then StateChanged
    else if before.None? then Added
    else if after.None? then Removed
    else VersionChanged
  }

  function MakeEvent(index: nat, component: Component, name: string, prev: Values, next: Values): Event {
    var b, a := Get(prev, name), Get(next, name);
    Event(index, component, name, KindOf(component, b, a), b, a)
  }

  /** The events of one transition for the listed names. */
  function EventsFor(index: nat, component: Component, names: seq<string>, prev: Values, next: Values): seq<Event> {
    if names == [] then []
    else
      (if Get(prev, names[0]) != Get(next, names[0]) then [MakeEvent(index, component, names[0], prev, next)] else [])
        + EventsFor(index, component, names[1..], prev, next)
  }

  function Transition(snapshots: seq<Snapshot>, component: Component, index: nat): seq<Event>
    requires index < |snapshots|
  {
    var prev, next := ValuesAt(snapshots, component, index), ValuesAt(snapshots, component, index + 1);
    EventsFor(index, component, Sorted(prev.Keys + next.Keys), prev, next)
  }

  /** The events of the first n snapshots. */
  function Events(snapshots: seq<Snapshot>, n: nat): seq<Event>
    requires n <= |snapshots|
  {
    if n == 0 then []
    else Events(snapshots, n - 1) + Transition(snapshots, Tool, n - 1) + Transition(snapshots, Container, n - 1)
  }

  method BuildTimeline(snapshots: seq<Snapshot>) returns (events: seq<Event>)
    ensures events == Events(snapshots, |snapshots|)
  {
    hide Sorted, ToolMap, ContainerMap, EventsFor, ValuesAt, Events, Transition;
    events := [];
    BeforeAll(snapshots);
    var prevTools: Values, prevContainers: Values := map[], map[];
    for i := 0 to |snapshots|
      invariant events == Events(snapshots, i)
      invariant prevTools == ValuesAt(snapshots, Tool, i)
      invariant prevContainers == ValuesAt(snapshots, Container, i)
    {
      var tools := ToolMapLoop(snapshots[i].tools);
      var containers := ContainerMap(snapshots[i].containers);
      var toolEvents := CompareLoop(i, Tool, Sorted(prevTools.Keys + tools.Keys), prevTools, tools);
      var containerEvents := CompareLoop(i, Container, Sorted(prevContainers.Keys + containers.Keys), prevContainers, containers);
      AfterSnapshot(snapshots, i);
      events := events + toolEvents + containerEvents;
      prevTools, prevContainers := tools, containers;
    }
  }

  lemma BeforeAll(snapshots: seq<Snapshot>)
    ensures Events(snapshots, 0) == []
    ensures ValuesAt(snapshots, Tool, 0) == map[] == ValuesAt(snapshots, Container, 0)
  {
  }

  lemma AfterSnapshot(snapshots: seq<Snapshot>, i: nat)
    requires i < |snapshots|
    ensures ValuesAt(snapshots, Tool, i + 1) == ToolMap(snapshots[i].tools)
    ensures ValuesAt(snapshots, Container, i + 1) == ContainerMap(snapshots[i].containers)
    ensures Events(snapshots, i + 1)
      == Events(snapshots, i) + Transition(snapshots, Tool, i) + Transition(snapshots, Container, i)
    ensures forall c: Component ::
      (var prev, next := ValuesAt(snapshots, c, i), ValuesAt(snapshots, c, i + 1);
       Transition(snapshots, c, i) == EventsFor(i, c, Sorted(prev.Keys + next.Keys), prev, next))
  {
    hide EventsFor, Sorted, ToolMap, ContainerMap;
  }

  /** The inner loop: one transition of one component. */
  method CompareLoop(index: nat, component: Component, names: seq<string>, prev: Values, next: Values)
    returns (events: seq<Event>)
    ensures events == EventsFor(index, component, names, prev, next)
  {
    hide Get, KindOf, EventsFor;
    events := [];
    assert names[0..] == names;
    for i := 0 to |names|
      invariant events + EventsFor(index, component, names[i..], prev, next)
             == EventsFor(index, component, names, prev, next)
    {
      EventsForStep(index, component, names, i, prev, next);
      var b, a := Get(prev, names[i]), Get(next, names[i]);
      if b != a {
        events := events + [Event(index, component, names[i], KindOf(component, b, a), b, a)];
      }
    }
    NoNamesNoEvents(index, component, prev, next);
    assert names[|names|..] == [] && events + [] == events;
  }

  lemma EventsForStep(index: nat, component: Component, names: seq<string>, i: nat, prev: Values, next: Values)
    requires i < |names|
    ensures var b, a := Get(prev, names[i]), Get(next, names[i]);
      var rest := EventsFor(index, component, names[i + 1..], prev, next);
      EventsFor(index, component, names[i..], prev, next)
        == if b == a then rest else [Event(index, component, names[i], KindOf(component, b, a), b, a)] + rest
  {
    hide Get, KindOf;
    assert names[i..][1..] == names[i + 1..];
  }

  lemma NoNamesNoEvents(index: nat, component: Component, prev: Values, next: Values)
    ensures EventsFor(index, component, [], prev, next) == []
  {
  }

  // ---------------------------------------------------------------- what is logged

  lemma {:induction false} EventsForExactly(index: nat, component: Component, names: seq<string>, prev: Values, next: Values, e: Event)
    ensures e in EventsFor(index, component, names, prev, next)
      <==> e.name in names && Get(prev, e.name) != Get(next, e.name)
           && e == MakeEvent(index, component, e.name, prev, next)
  {
    hide MakeEvent, Get;
    if names != [] {
      EventsForExactly(index, component, names[1..], prev, next, e);
      assert e.name in names <==> e.name == names[0] || e.name in names[1..];
      MakesFields(index, component, names[0], prev, next);
    }
  }

  lemma TransitionExactly(snapshots: seq<Snapshot>, component: Component, index: nat, e: Event)
    requires index < |snapshots|
    ensures e in Transition(snapshots, component, index)
      <==> var prev, next := ValuesAt(snapshots, component, index), ValuesAt(snapshots, component, index + 1);
           Get(prev, e.name) != Get(next, e.name) && e == MakeEvent(index, component, e.name, prev, next)
  {
    hide Sorted, MakeEvent, ValuesAt;
    var prev, next := ValuesAt(snapshots, component, index), ValuesAt(snapshots, component, index + 1);
    EventsForExactly(index, component, Sorted(prev.Keys + next.Keys), prev, next, e);
  }

  /** A value of a component the timeline follows that differs on the two sides of a transition. */
  predicate IsChange(snapshots: seq<Snapshot>, e: Event) {
    && !e.component.Other? && e.index < |snapshots|
    && var prev, next := ValuesAt(snapshots, e.component, e.index), ValuesAt(snapshots, e.component, e.index + 1);
       Get(prev, e.name) != Get(next, e.name) && e == MakeEvent(e.index, e.component, e.name, prev, next)
  }

  /** The log holds exactly the changes: every value that differs across a transition, with what it was
      and became, and no event that changes nothing. */
  lemma {:induction false} EventsExactly(snapshots: seq<Snapshot>, n: nat, e: Event)
    requires n <= |snapshots|
    ensures e in Events(snapshots, n) <==> IsChange(snapshots, e) && e.index < n
  {
    hide Transition, ValuesAt, Get;
    if n > 0 {
      EventsExactly(snapshots, n - 1, e);
      TransitionExactly(snapshots, Tool, n - 1, e);
      TransitionExactly(snapshots, Container, n - 1, e);
      MadeEvent(snapshots, Tool, n - 1, e.name);
      MadeEvent(snapshots, Container, n - 1, e.name);
    }
  }

  lemma MadeEvent(snapshots: seq<Snapshot>, component: Component, index: nat, name: string)
    requires index < |snapshots|
    ensures var e := MakeEvent(index, component, name,
        ValuesAt(snapshots, component, index), ValuesAt(snapshots, component, index + 1));
      e.index == index && e.component == component && e.name == name && (e.before == e.after <==>
        Get(ValuesAt(snapshots, component, index), name) == Get(ValuesAt(snapshots, component, index + 1), name))
  {
  }

  /** The order of the log: never back in time, and no two events at one place. */
  predicate InOrder(events: seq<Event>) {
    forall i, j | 0 <= i < j < |events| :: Precedes(events[i], events[j])
  }

  predicate Precedes(a: Event, b: Event) {
    && a.index <= b.index
    && !(a.index == b.index && a.component == b.component && a.name == b.name)
  }

  lemma {:induction false} EventsForNames(index: nat, component: Component, names: seq<string>, prev: Values, next: Values, i: nat)
    requires i < |EventsFor(index, component, names, prev, next)|
    ensures var e := EventsFor(index, component, names, prev, next)[i];
      e.index == index && e.component == component && e.name in names
    decreases |names|
  {
    hide Get, MakeEvent;
    var changed := Get(prev, names[0]) != Get(next, names[0]);
    MakesFields(index, component, names[0], prev, next);
    if !changed {
      EventsForNames(index, component, names[1..], prev, next, i);
    } else if i > 0 {
      EventsForNames(index, component, names[1..], prev, next, i - 1);
    }
  }

  lemma MakesFields(index: nat, component: Component, name: string, prev: Values, next: Values)
    ensures var e := MakeEvent(index, component, name, prev, next);
      e.index == index && e.component == component && e.name == name
      && e.before == Get(prev, name) && e.after == Get(next, name)
  {
  }

  lemma {:induction false} EventsForInOrder(index: nat, component: Component, names: seq<string>, prev: Values, next: Values)
    requires Increasing(names)
    ensures InOrder(EventsFor(index, component, names, prev, next))
  {
    hide Leq, Get, MakeEvent;
    if names != [] {
      var tail := EventsFor(index, component, names[1..], prev, next);
      EventsForInOrder(index, component, names[1..], prev, next);
      MakesFields(index, component, names[0], prev, next);
      assert names[0] !in names[1..];
      forall i | 0 <= i < |tail| ensures Precedes(MakeEvent(index, component, names[0], prev, next), tail[i]) {
        EventsForNames(index, component, names[1..], prev, next, i);
      }
      InOrderCons(MakeEvent(index, component, names[0], prev, next), tail);
    }
  }

  lemma InOrderCons(e: Event, tail: seq<Event>)
    requires InOrder(tail) && forall i | 0 <= i < |tail| :: Precedes(e, tail[i])
    ensures InOrder([e] + tail) && InOrder([] + tail)
  {
    hide Precedes;
    var all := [e] + tail;
    assert forall i | 0 < i < |all| :: all[i] == tail[i - 1];
    assert [] + tail == tail;
  }

  lemma TransitionInOrder(snapshots: seq<Snapshot>, component: Component, index: nat)
    requires index < |snapshots|
    ensures InOrder(Transition(snapshots, component, index))
    ensures forall i | 0 <= i < |Transition(snapshots, component, index)| ::
      Transition(snapshots, component, index)[i].index == index
      && Transition(snapshots, component, index)[i].component == component
  {
    hide Sorted, Increasing, ValuesAt, InOrder, EventsFor;
    var prev, next := ValuesAt(snapshots, component, index), ValuesAt(snapshots, component, index + 1);
    var names := Sorted(prev.Keys + next.Keys);
    EventsForInOrder(index, component, names, prev, next);
    forall i | 0 <= i < |EventsFor(index, component, names, prev, next)|
      ensures EventsFor(index, component, names, prev, next)[i].index == index
        && EventsFor(index, component, names, prev, next)[i].component == component
    {
      EventsForNames(index, component, names, prev, next, i);
    }
  }

  lemma InOrderConcat(a: seq<Event>, b: seq<Event>)
    requires InOrder(a) && InOrder(b)
    requires forall i, j | 0 <= i < |a| && 0 <= j < |b| ::
      a[i].index < b[j].index || (a[i].index == b[j].index && a[i].component != b[j].component)
    ensures InOrder(a + b)
  {
    hide Precedes;
    forall i, j | 0 <= i < |a| && 0 <= j < |b| ensures Precedes(a[i], b[j]) { Apart(a[i], b[j]); }
  }

  lemma Apart(a: Event, b: Event)
    requires a.index < b.index || (a.index == b.index && a.component != b.component)
    ensures Precedes(a, b)
  {
  }

  /** At most one event per transition, component and name, in order of transition. */
  lemma {:induction false} EventsInOrder(snapshots: seq<Snapshot>, n: nat)
    requires n <= |snapshots|
    ensures InOrder(Events(snapshots, n))
    ensures forall i | 0 <= i < |Events(snapshots, n)| :: Events(snapshots, n)[i].index < n
  {
    hide Transition, InOrder;
    if n == 0 {
      assert InOrder([]) by { NothingInOrder(); }
    } else {
      EventsInOrder(snapshots, n - 1);
      TransitionInOrder(snapshots, Tool, n - 1);
      TransitionInOrder(snapshots, Container, n - 1);
      var a, b, c := Events(snapshots, n - 1), Transition(snapshots, Tool, n - 1), Transition(snapshots, Container, n - 1);
      InOrderConcat(a, b);
      InOrderConcat(a + b, c);
    }
  }

  lemma NothingInOrder()
    ensures InOrder([])
  {
  }

  // ---------------------------------------------------------------- replay and undo

  function Apply(m: Values, e: Event): Values {
    match e.after case Some(v) => m[e.name := v] case None => m - {e.name}
  }

  function Revert(m: Values, e: Event): Values {
    match e.before case Some(v) => m[e.name := v] case None => m - {e.name}
  }

  /** The events of one component, first to last. */
  function Replay(events: seq<Event>, component: Component, m: Values): Values {
    if events == [] then m
    else Replay(events[1..], component, if events[0].component == component then Apply(m, events[0]) else m)
  }

  /** The events of one component undone, last to first. */
  function Undo(events: seq<Event>, component: Component, m: Values): Values {
    if events == [] then m
    else
      var rest := Undo(events[1..], component, m);
      if events[0].component == component then Revert(rest, events[0]) else rest
  }

  lemma {:induction false} ReplayConcat(a: seq<Event>, b: seq<Event>, component: Component, m: Values)
    ensures Replay(a + b, component, m) == Replay(b, component, Replay(a, component, m))
    ensures Undo(a + b, component, m) == Undo(a, component, Undo(b, component, m))
  {
    hide Apply, Revert;
    if a == [] {
      assert a + b == b;
    } else {
      assert (a + b)[1..] == a[1..] + b;
      ReplayConcat(a[1..], b, component, if a[0].component == component then Apply(m, a[0]) else m);
      ReplayConcat(a[1..], b, component, m);
    }
  }

  lemma SameValues(a: Values, b: Values)
    requires forall k :: Get(a, k) == Get(b, k)
    ensures a == b
  {
    forall k ensures (k in a <==> k in b) && (k in a ==> a[k] == b[k]) { assert Get(a, k) == Get(b, k); }
  }

  lemma ApplyGets(m: Values, e: Event, k: string)
    ensures Get(Apply(m, e), k) == if k == e.name then e.after else Get(m, k)
    ensures Get(Revert(m, e), k) == if k == e.name then e.before else Get(m, k)
  {
  }

  lemma ReplayNone(component: Component, m: Values)
    ensures Replay([], component, m) == m && Undo([], component, m) == m
  {
  }

  lemma ReplayCons(e: Event, tail: seq<Event>, component: Component, m: Values)
    ensures [] + tail == tail
    ensures e.component == component ==>
      Replay([e] + tail, component, m) == Replay(tail, component, Apply(m, e))
      && Undo([e] + tail, component, m) == Revert(Undo(tail, component, m), e)
  {
    hide Apply, Revert;
    assert ([e] + tail)[1..] == tail && [] + tail == tail;
  }

  /** Replaying one transition's events takes each listed name to its new value and leaves the rest. */
  lemma {:induction false} ReplayNames(index: nat, component: Component, names: seq<string>, prev: Values, next: Values, m: Values, k: string)
    requires Increasing(names) && forall i | 0 <= i < |names| :: Get(m, names[i]) == Get(prev, names[i])
    ensures Get(Replay(EventsFor(index, component, names, prev, next), component, m), k)
         == if k in names then Get(next, k) else Get(m, k)
    decreases |names|
  {
    hide Leq, Get, Apply, MakeEvent, Replay;
    if names == [] {
      ReplayNone(component, m);
    } else {
      var name, rest := names[0], names[1..];
      var e := MakeEvent(index, component, name, prev, next);
      var tail := EventsFor(index, component, rest, prev, next);
      MakesFields(index, component, name, prev, next);
      assert k in names <==> k == name || k in rest;
      assert name !in rest;
      var changed := Get(prev, name) != Get(next, name);
      var n := if changed then Apply(m, e) else m;
      forall i | 0 <= i < |rest| ensures Get(n, rest[i]) == Get(prev, rest[i]) {
        ApplyGets(m, e, rest[i]);
        assert rest[i] == names[i + 1] && rest[i] in rest;
      }
      ReplayNames(index, component, rest, prev, next, n, k);
      ApplyGets(m, e, k);
      ReplayCons(e, tail, component, m);
    }
  }

  /** Undoing them takes each listed name back to its old value and leaves the rest. */
  lemma {:induction false} UndoNames(index: nat, component: Component, names: seq<string>, prev: Values, next: Values, m: Values, k: string)
    requires Increasing(names) && forall i | 0 <= i < |names| :: Get(m, names[i]) == Get(next, names[i])
    ensures Get(Undo(EventsFor(index, component, names, prev, next), component, m), k)
         == if k in names then Get(prev, k) else Get(m, k)
    decreases |names|
  {
    hide Leq, Get, Revert, MakeEvent, Undo;
    if names == [] {
      ReplayNone(component, m);
    } else {
      var name, rest := names[0], names[1..];
      var e := MakeEvent(index, component, name, prev, next);
      var tail := EventsFor(index, component, rest, prev, next);
      MakesFields(index, component, name, prev, next);
      assert k in names <==> k == name || k in rest;
      assert name !in rest;
      assert forall i | 0 <= i < |rest| :: rest[i] == names[i + 1];
      UndoNames(index, component, rest, prev, next, m, k);
      ApplyGets(Undo(tail, component, m), e, k);
      ReplayCons(e, tail, component, m);
    }
  }

  lemma TransitionReplays(snapshots: seq<Snapshot>, component: Component, index: nat)
    requires index < |snapshots|
    ensures var prev, next := ValuesAt(snapshots, component, index), ValuesAt(snapshots, component, index + 1);
      && Replay(Transition(snapshots, component, index), component, prev) == next
      && Undo(Transition(snapshots, component, index), component, next) == prev
  {
    hide Sorted, Increasing, EventsFor, Replay, Undo, ValuesAt;
    var prev, next := ValuesAt(snapshots, component, index), ValuesAt(snapshots, component, index + 1);
    var names := Sorted(prev.Keys + next.Keys);
    forall k
      ensures Get(Replay(Transition(snapshots, component, index), component, prev), k) == Get(next, k)
      ensures Get(Undo(Transition(snapshots, component, index), component, next), k) == Get(prev, k)
    {
      ReplayNames(index, component, names, prev, next, prev, k);
      UndoNames(index, component, names, prev, next, next, k);
    }
    SameValues(Replay(Transition(snapshots, component, index), component, prev), next);
    SameValues(Undo(Transition(snapshots, component, index), component, next), prev);
  }

  lemma {:induction false} ReplaySkips(events: seq<Event>, component: Component, m: Values)
    requires forall i | 0 <= i < |events| :: events[i].component != component
    ensures Replay(events, component, m) == m && Undo(events, component, m) == m
  {
    if events != [] {
      ReplaySkips(events[1..], component, m);
    }
  }

  /** The log is complete: replayed from nothing it gives the values after any number of snapshots, and
      undone from there it leaves nothing. */
  lemma {:induction false} LogReplays(snapshots: seq<Snapshot>, component: Component, n: nat)
    requires n <= |snapshots| && !component.Other?
    ensures Replay(Events(snapshots, n), component, map[]) == ValuesAt(snapshots, component, n)
    ensures Undo(Events(snapshots, n), component, ValuesAt(snapshots, component, n)) == map[]
  {
    hide Transition, Replay, Undo;
    if n == 0 {
      ReplayNone(component, map[]);
    } else {
      hide ValuesAt;
      LogReplays(snapshots, component, n - 1);
      var a, b, c := Events(snapshots, n - 1), Transition(snapshots, Tool, n - 1), Transition(snapshots, Container, n - 1);
      var prev, next := ValuesAt(snapshots, component, n - 1), ValuesAt(snapshots, component, n);
      TransitionReplays(snapshots, component, n - 1);
      TransitionInOrder(snapshots, Tool, n - 1);
      TransitionInOrder(snapshots, Container, n - 1);
      ReplayConcat(a + b, c, component, map[]);
      ReplayConcat(a, b, component, map[]);
      ReplayConcat(a + b, c, component, next);
      ReplayConcat(a, b, component, Undo(c, component, next));
      if component == Tool {
        ReplaySkips(c, component, next);
      } else {
        ReplaySkips(b, component, prev);
      }
    }
  }

  /** The events up to a transition. */
  function UpTo(events: seq<Event>, index: nat): seq<Event> {
    if events == [] then []
    else (if events[0].index <= index then [events[0]] else []) + UpTo(events[1..], index)
  }

  lemma {:induction false} UpToConcat(a: seq<Event>, b: seq<Event>, index: nat)
    requires forall i | 0 <= i < |a| :: a[i].index <= index
    requires forall i | 0 <= i < |b| :: b[i].index > index
    ensures UpTo(a + b, index) == a
    decreases |a| + |b|
  {
    if a != [] {
      assert (a + b)[1..] == a[1..] + b;
      UpToConcat(a[1..], b, index);
    } else if b != [] {
      assert a + b == b && a + b[1..] == b[1..];
      UpToConcat(a, b[1..], index);
    }
  }

  /** Cutting a timeline after transition i gives the timeline of the first i + 1 snapshots. */
  lemma {:induction false} TimelinePrefix(snapshots: seq<Snapshot>, i: nat, n: nat)
    requires i < n <= |snapshots|
    ensures UpTo(Events(snapshots, n), i) == Events(snapshots, i + 1)
  {
    hide Transition, InOrder;
    var tail := TimelineTail(snapshots, i + 1, n);
    EventsInOrder(snapshots, i + 1);
    UpToConcat(Events(snapshots, i + 1), tail, i);
  }

  lemma {:induction false} TimelineTail(snapshots: seq<Snapshot>, k: nat, n: nat) returns (tail: seq<Event>)
    requires k <= n <= |snapshots|
    ensures Events(snapshots, n) == Events(snapshots, k) + tail
    ensures forall j | 0 <= j < |tail| :: tail[j].index >= k
    decreases n
  {
    hide Transition;
    if k == n {
      tail := [];
    } else {
      var rest := TimelineTail(snapshots, k, n - 1);
      TransitionInOrder(snapshots, Tool, n - 1);
      TransitionInOrder(snapshots, Container, n - 1);
      tail := rest + Transition(snapshots, Tool, n - 1) + Transition(snapshots, Container, n - 1);
    }
  }

  /** So the events up to transition i, replayed, are snapshot i. */
  lemma SnapshotFromLog(snapshots: seq<Snapshot>, component: Component, i: nat)
    requires i < |snapshots| && !component.Other?
    ensures Replay(UpTo(Events(snapshots, |snapshots|), i), component, map[])
         == ValuesAt(snapshots, component, i + 1)
  {
    hide Events, Replay, ValuesAt, UpTo;
    TimelinePrefix(snapshots, i, |snapshots|);
    LogReplays(snapshots, component, i + 1);
  }

  // ---------------------------------------------------------------- hints

  function ChangesFor(events: seq<Event>, component: Component, name: string): seq<Event> {
    if events == [] then []
    else (if events[0].component == component && events[0].name == name then [events[0]] else [])
           + ChangesFor(events[1..], component, name)
  }

  function ToolEventsAt(events: seq<Event>, index: nat): seq<Event> {
    if events == [] then []
    else (if events[0].index == index && events[0].component == Tool then [events[0]] else [])
           + ToolEventsAt(events[1..], index)
  }

  function RootCauseHints(events: seq<Event>, component: Component, name: string): seq<Event> {
    var changes := ChangesFor(events, component, name);
    if changes != [] then [changes[|changes| - 1]]
    else if events != [] then
      var related := ToolEventsAt(events, events[|events| - 1].index);
      if |related| > 3 then related[..3] else related
    else []
  }

  lemma {:induction false} ChangesForExactly(events: seq<Event>, component: Component, name: string, e: Event)
    ensures e in ChangesFor(events, component, name) <==> e in events && e.component == component && e.name == name
  {
    if events != [] { ChangesForExactly(events[1..], component, name, e); }
  }

  /** The last of the matching events is at least as late as every other. */
  lemma {:induction false} LastChange(events: seq<Event>, component: Component, name: string, e: Event)
    requires InOrder(events) && e in ChangesFor(events, component, name)
    ensures var changes := ChangesFor(events, component, name);
      e.index <= changes[|changes| - 1].index
  {
    var changes := ChangesFor(events, component, name);
    var rest := ChangesFor(events[1..], component, name);
    assert InOrder(events[1..]);
    if e in rest {
      LastChange(events[1..], component, name, e);
    } else if rest != [] {
      assert rest[|rest| - 1] in rest;
      ChangesForExactly(events[1..], component, name, rest[|rest| - 1]);
      assert e == events[0];
    }
  }

  /** A direct hint names the transition after which the value never changed again: just before it the
      value was the hint's `before`, from it on it is the hint's `after`, and the two differ. */
  lemma DirectHintIsLast(snapshots: seq<Snapshot>, component: Component, name: string)
    requires !component.Other?
    requires ChangesFor(Events(snapshots, |snapshots|), component, name) != []
    ensures var hints := RootCauseHints(Events(snapshots, |snapshots|), component, name);
      && |hints| == 1
      && hints[0].index < |snapshots| && hints[0].before != hints[0].after
      && Get(ValuesAt(snapshots, component, hints[0].index), name) == hints[0].before
      && forall n | hints[0].index < n <= |snapshots| ::
           Get(ValuesAt(snapshots, component, n), name) == hints[0].after
  {
    hide Events, ChangesFor, ValuesAt, Get, InOrder;
    var events := Events(snapshots, |snapshots|);
    var changes := ChangesFor(events, component, name);
    var hint := changes[|changes| - 1];
    assert hint in changes;
    ChangesForExactly(events, component, name, hint);
    EventsExactly(snapshots, |snapshots|, hint);
    MadeEvent(snapshots, component, hint.index, name);
    forall n | hint.index < n <= |snapshots|
      ensures Get(ValuesAt(snapshots, component, n), name) == hint.after
    {
      StaysAfter(snapshots, component, name, hint, n);
    }
  }

  lemma {:induction false} StaysAfter(snapshots: seq<Snapshot>, component: Component, name: string, hint: Event, n: nat)
    requires !component.Other? && hint.index < n <= |snapshots|
    requires var changes := ChangesFor(Events(snapshots, |snapshots|), component, name);
      changes != [] && hint == changes[|changes| - 1]
    requires IsChange(snapshots, hint) && hint.component == component && hint.name == name
    ensures Get(ValuesAt(snapshots, component, n), name) == hint.after
    decreases n
  {
    hide Events, ChangesFor, ValuesAt, Get, InOrder;
    var events := Events(snapshots, |snapshots|);
    if n > hint.index + 1 {
      StaysAfter(snapshots, component, name, hint, n - 1);
      var prev, next := ValuesAt(snapshots, component, n - 1), ValuesAt(snapshots, component, n);
      if Get(prev, name) != Get(next, name) {
        var e := MakeEvent(n - 1, component, name, prev, next);
        MadeEvent(snapshots, component, n - 1, name);
        EventsExactly(snapshots, |snapshots|, e);
        ChangesForExactly(events, component, name, e);
        EventsInOrder(snapshots, |snapshots|);
        LastChange(events, component, name, e);
      }
    }
  }

  /** Among the changes of one name, indices strictly increase. */
  lemma {:induction false} ChangesIncrease(events: seq<Event>, component: Component, name: string, i: nat, j: nat)
    requires InOrder(events) && i < j < |ChangesFor(events, component, name)|
    ensures ChangesFor(events, component, name)[i].index < ChangesFor(events, component, name)[j].index
    decreases |events|
  {
    hide InOrder, Precedes;
    var rest := ChangesFor(events[1..], component, name);
    TailInOrder(events);
    if events[0].component != component || events[0].name != name {
      ChangesIncrease(events[1..], component, name, i, j);
    } else if i > 0 {
      ChangesIncrease(events[1..], component, name, i - 1, j - 1);
    } else {
      LaterChange(events, component, name, j - 1);
    }
  }

  lemma LaterChange(events: seq<Event>, component: Component, name: string, i: nat)
    requires InOrder(events) && events != [] && events[0].component == component && events[0].name == name
    requires i < |ChangesFor(events[1..], component, name)|
    ensures events[0].index < ChangesFor(events[1..], component, name)[i].index
  {
    hide InOrder, ChangesFor;
    var e := ChangesFor(events[1..], component, name)[i];
    ChangesForExactly(events[1..], component, name, e);
    FirstPrecedes(events, e);
  }

  lemma TailInOrder(events: seq<Event>)
    requires InOrder(events) && events != []
    ensures InOrder(events[1..])
  {
    hide Precedes;
    assert forall i | 0 <= i < |events| - 1 :: events[1..][i] == events[i + 1];
  }

  lemma FirstPrecedes(events: seq<Event>, e: Event)
    requires InOrder(events) && events != [] && e in events[1..]
    ensures Precedes(events[0], e)
  {
    hide Precedes;
    var i :| 0 <= i < |events| - 1 && events[1..][i] == e;
    assert events[i + 1] == e;
  }

  /** A direct hint is the first change, as the documentation promises, exactly when there was only one. */
  lemma HintIsFirstExactly(snapshots: seq<Snapshot>, component: Component, name: string)
    requires ChangesFor(Events(snapshots, |snapshots|), component, name) != []
    ensures var events := Events(snapshots, |snapshots|);
      var changes := ChangesFor(events, component, name);
      RootCauseHints(events, component, name)[0] == changes[0] <==> |changes| == 1
  {
    hide Events, ChangesFor, InOrder;
    var events := Events(snapshots, |snapshots|);
    var changes := ChangesFor(events, component, name);
    EventsInOrder(snapshots, |snapshots|);
    if |changes| > 1 { ChangesIncrease(events, component, name, 0, |changes| - 1); }
  }

  function OneTool(version: string): Snapshot {
    Snapshot([ToolRecord("go", version)], NotContainers)
  }

  lemma OneToolMap(version: string)
    requires version != ""
    ensures ToolMap(OneTool(version).tools) == map["go" := version]
  {
    var tools := OneTool(version).tools;
    assert tools[..0] == [];
  }

  /** A tool that appears and is then upgraded: the first change is its appearance, the hint the upgrade. */
  lemma HintSkipsFirstChange()
    ensures var snapshots := [OneTool("1"), OneTool("2")];
      var events := Events(snapshots, 2);
      && ChangesFor(events, Tool, "go") != [] && ChangesFor(events, Tool, "go")[0].index == 0
      && RootCauseHints(events, Tool, "go")[0].index == 1
  {
    hide Events, ChangesFor, InOrder, ToolMap, OneTool;
    var snapshots := [OneTool("1"), OneTool("2")];
    var events := Events(snapshots, 2);
    var changes := ChangesFor(events, Tool, "go");
    OneToolMap("1");
    OneToolMap("2");
    var appears := Event(0, Tool, "go", Added, None, Some("1"));
    var upgraded := Event(1, Tool, "go", VersionChanged, Some("1"), Some("2"));
    EventsInOrder(snapshots, 2);
    EventsExactly(snapshots, 2, appears);
    EventsExactly(snapshots, 2, upgraded);
    ChangesForExactly(events, Tool, "go", appears);
    ChangesForExactly(events, Tool, "go", upgraded);
    LastChange(events, Tool, "go", upgraded);
    var i :| 0 <= i < |changes| && changes[i] == appears;
    if i > 0 { ChangesIncrease(events, Tool, "go", 0, i); }
    assert changes[0] in changes && changes[|changes| - 1] in changes;
    ChangesForExactly(events, Tool, "go", changes[|changes| - 1]);
    EventsExactly(snapshots, 2, changes[|changes| - 1]);
  }

  // ---------------------------------------------------------------- what an event says

  /** What a snapshot has under a name: of its tools the last record that names one, of its containers the
      daemon, the command line and podman. */
  function LastVersion(tools: seq<ToolRecord>, name: string): Option<string> {
    if tools == [] then None
    else
      var t := tools[|tools| - 1];
      if t.ToolRecord? && t.name == name && name != "" then Some(if t.version == "" then "?" else t.version)
      else LastVersion(tools[..|tools| - 1], name)
  }

  function ContainerFact(c: ContainerRecord, name: string): Option<string> {
    if c.NotContainers? then None
    else if name == "docker-daemon" then Some(if c.daemonOk then "ok" else "down")
    else if name == "docker-cli" then Some(if c.cliVersion == "" then "-" else c.cliVersion)
    else if name == "podman" then Some(if c.podmanVersion == "" then "-" else c.podmanVersion)
    else None
  }

  function FactAt(snapshots: seq<Snapshot>, component: Component, name: string, n: nat): Option<string>
    requires n <= |snapshots|
  {
    if n == 0 then None
    else if component == Tool then LastVersion(snapshots[n - 1].tools, name)
    else if component == Container then ContainerFact(snapshots[n - 1].containers, name)
    else None
  }

  lemma {:induction false} ToolMapIsLast(tools: seq<ToolRecord>, name: string)
    ensures Get(ToolMap(tools), name) == LastVersion(tools, name)
  {
    if tools != [] { ToolMapIsLast(tools[..|tools| - 1], name); }
  }

  lemma ContainerMapIs(c: ContainerRecord, name: string)
    ensures Get(ContainerMap(c), name) == ContainerFact(c, name)
  {
    assert |"docker-daemon"| == 13 && |"docker-cli"| == 10 && |"podman"| == 6;
  }

  lemma FactsExactly(snapshots: seq<Snapshot>, component: Component, name: string, n: nat)
    requires n <= |snapshots|
    ensures Get(ValuesAt(snapshots, component, n), name) == FactAt(snapshots, component, name, n)
  {
    hide ToolMap, ContainerMap, LastVersion, ContainerFact;
    if n > 0 {
      ToolMapIsLast(snapshots[n - 1].tools, name);
      ContainerMapIs(snapshots[n - 1].containers, name);
    }
  }

  /** An event says what the two snapshots around its transition hold: a tool appears, disappears or changes
      version, and anything of the containers changes state. */
  predicate IsTrueOf(snapshots: seq<Snapshot>, e: Event) {
    && (e.component == Tool || e.component == Container) && e.index < |snapshots|
    && e.before == FactAt(snapshots, e.component, e.name, e.index)
    && e.after == FactAt(snapshots, e.component, e.name, e.index + 1)
    && e.before != e.after
    && (e.component == Container ==> e.kind == StateChanged)
    && (e.component == Tool ==>
          && (e.kind == Added <==> e.before.None?)
          && (e.kind == Removed <==> e.after.None?)
          && (e.kind == VersionChanged <==> e.before.Some? && e.after.Some?))
  }

  /** The log holds exactly the events that are true of the snapshots. */
  lemma LogIsExactlyTrue(snapshots: seq<Snapshot>, e: Event)
    ensures e in Events(snapshots, |snapshots|) <==> IsTrueOf(snapshots, e)
  {
    hide Events, ValuesAt, FactAt, Get;
    EventsExactly(snapshots, |snapshots|, e);
    if e.index < |snapshots| {
      FactsExactly(snapshots, e.component, e.name, e.index);
      FactsExactly(snapshots, e.component, e.name, e.index + 1);
    }
  }

  // ---------------------------------------------------------------- the order of the log

  /** By transition, the tools before the containers, and each by name. */
  predicate Follows(a: Event, b: Event) {
    || a.index < b.index
    || (a.index == b.index && a.component == Tool && b.component == Container)
    || (a.index == b.index && a.component == b.component && a.name != b.name && Leq(a.name, b.name))
  }

  predicate IsSortedLog(events: seq<Event>) {
    forall i, j | 0 <= i < j < |events| :: Follows(events[i], events[j])
  }

  lemma SortedConcat(a: seq<Event>, b: seq<Event>)
    requires IsSortedLog(a) && IsSortedLog(b) && forall x, y | x in a && y in b :: Follows(x, y)
    ensures IsSortedLog(a + b)
  {
    hide Follows;
    var all := a + b;
    forall i, j | 0 <= i < j < |all| ensures Follows(all[i], all[j]) {
      if i < |a| <= j { assert all[i] in a && all[j] in b; }
    }
  }

  lemma {:induction false} NamesSorted(index: nat, component: Component, names: seq<string>, prev: Values, next: Values)
    requires Increasing(names)
    ensures IsSortedLog(EventsFor(index, component, names, prev, next))
  {
    hide Leq, MakeEvent, Get, Follows;
    if names != [] {
      var rest := EventsFor(index, component, names[1..], prev, next);
      var e := MakeEvent(index, component, names[0], prev, next);
      assert forall i | 0 <= i < |names| - 1 :: names[1..][i] == names[i + 1];
      NamesSorted(index, component, names[1..], prev, next);
      MakesFields(index, component, names[0], prev, next);
      forall y | y in rest ensures Follows(e, y) {
        EventsForExactly(index, component, names[1..], prev, next, y);
        MakesFields(index, component, y.name, prev, next);
        NextName(e, y, names);
      }
      NothingSorted();
      SortedConcat([e], rest);
      assert [] + rest == rest;
    }
  }

  lemma NothingSorted()
    ensures IsSortedLog([])
  {
  }

  lemma NextName(e: Event, y: Event, names: seq<string>)
    requires Increasing(names) && names != [] && e.name == names[0] && y.name in names[1..]
    requires e.index == y.index && e.component == y.component
    ensures Follows(e, y)
  {
    hide Leq;
    var i :| 0 <= i < |names| - 1 && names[1..][i] == y.name;
    assert names[i + 1] == y.name;
  }

  lemma TransitionSorted(snapshots: seq<Snapshot>, component: Component, index: nat)
    requires index < |snapshots|
    ensures IsSortedLog(Transition(snapshots, component, index))
  {
    hide Sorted, EventsFor, IsSortedLog, Increasing;
    var prev, next := ValuesAt(snapshots, component, index), ValuesAt(snapshots, component, index + 1);
    NamesSorted(index, component, Sorted(prev.Keys + next.Keys), prev, next);
  }

  /** The log is in order of transition, each transition's tools before its containers, each by name. */
  lemma {:induction false} LogIsSorted(snapshots: seq<Snapshot>, n: nat)
    requires n <= |snapshots|
    ensures IsSortedLog(Events(snapshots, n))
  {
    hide Transition, IsSortedLog, InOrder;
    if n == 0 {
      NothingSorted();
    } else {
      var before, tools, containers := Events(snapshots, n - 1), Transition(snapshots, Tool, n - 1), Transition(snapshots, Container, n - 1);
      LogIsSorted(snapshots, n - 1);
      TransitionSorted(snapshots, Tool, n - 1);
      TransitionSorted(snapshots, Container, n - 1);
      EventsInOrder(snapshots, n - 1);
      TransitionInOrder(snapshots, Tool, n - 1);
      TransitionInOrder(snapshots, Container, n - 1);
      Placed(before, n - 1);
      OfTransition(tools, n - 1, Tool);
      OfTransition(containers, n - 1, Container);
      SortedConcat(before, tools);
      SortedConcat(before + tools, containers);
    }
  }

  lemma Placed(events: seq<Event>, n: nat)
    requires forall i | 0 <= i < |events| :: events[i].index < n
    ensures forall e | e in events :: e.index < n
  {
  }

  lemma OfTransition(events: seq<Event>, index: nat, component: Component)
    requires forall i | 0 <= i < |events| :: events[i].index == index && events[i].component == component
    ensures forall e | e in events :: e.index == index && e.component == component
  {
  }

  // ---------------------------------------------------------------- without a direct change

  lemma {:induction false} ToolEventsExactly(events: seq<Event>, index: nat)
    ensures forall e :: e in ToolEventsAt(events, index) <==> e in events && e.index == index && e.component == Tool
  {
    if events != [] {
      ToolEventsExactly(events[1..], index);
      assert events == [events[0]] + events[1..];
    }
  }

  /** They stand in the order of the log. */
  lemma {:induction false} ToolEventsInOrder(events: seq<Event>, index: nat, i: nat, j: nat) returns (p: nat, q: nat)
    requires i < j < |ToolEventsAt(events, index)|
    ensures p < q < |events| && events[p] == ToolEventsAt(events, index)[i] && events[q] == ToolEventsAt(events, index)[j]
  {
    var rest := ToolEventsAt(events[1..], index);
    if events[0].index == index && events[0].component == Tool {
      if i == 0 {
        ToolEventsExactly(events[1..], index);
        assert rest[j - 1] in events[1..];
        q :| 0 <= q < |events| - 1 && events[1..][q] == rest[j - 1];
        p, q := 0, q + 1;
      } else {
        p, q := ToolEventsInOrder(events[1..], index, i - 1, j - 1);
        p, q := p + 1, q + 1;
      }
    } else {
      p, q := ToolEventsInOrder(events[1..], index, i, j);
      p, q := p + 1, q + 1;
    }
  }

  /** Without a change of its own a component is hinted at by the tools that changed in the last transition
      with any change: the first three of them, in order, or all when there are fewer. */
  lemma IndirectHints(events: seq<Event>, component: Component, name: string, e: Event)
    requires forall c | c in events :: c.component != component || c.name != name
    ensures events == [] ==> RootCauseHints(events, component, name) == []
    ensures events != [] ==>
      var last := events[|events| - 1].index;
      var hints, related := RootCauseHints(events, component, name), ToolEventsAt(events, last);
      && hints <= related && |hints| == (if |related| < 3 then |related| else 3)
      && (e in related <==> e in events && e.index == last && e.component == Tool)
  {
    hide ChangesFor, ToolEventsAt;
    if ChangesFor(events, component, name) != [] {
      ChangesForExactly(events, component, name, ChangesFor(events, component, name)[0]);
    }
    if events != [] { ToolEventsExactly(events, events[|events| - 1].index); }
  }
}
