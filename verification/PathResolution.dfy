/** Resolving a command against PATH (devrepro/probes/helpers.py) and the PATH probe's claim that
    redundant entries can be removed (devrepro/probes/path_env.py). */
module PathResolution {
  import opened Strings

  /** What the code asks of the machine: directory listings (None when unreadable), path joining,
      resolved real paths, execute permission, directory tests and normal forms. */
  datatype Host = Host(
    windows: bool,
    pathext: string,
    lower: string -> string,
    listing: string -> Option<map<string, string>>,
    joined: (string, string) -> string,
    realPath: string -> string,
    executable: string -> bool,
    isDirectory: string -> bool,
    normalForm: string -> string)

  function Extensions(host: Host, parts: seq<string>): seq<string> {
    if parts == [] then []
    else (if Strip(parts[0]) != "" then [host.lower(Strip(parts[0]))] else []) + Extensions(host, parts[1..])
  }

  function WithExtensions(base: string, extensions: seq<string>): seq<string> {
    if extensions == [] then [] else [base + extensions[0]] + WithExtensions(base, extensions[1..])
  }

  /** The file names tried in each directory, in order. */
  function Candidates(host: Host, name: string): seq<string> {
    if host.windows then
      var base := host.lower(name);
      WithExtensions(base, Extensions(host, SplitOn(host.pathext, ";"))) + [base]
    else [name]
  }

  function PathEntries(host: Host, path: string): seq<string> {
    SplitOn(path, if host.windows then ";" else ":")
  }

  predicate Accepted(host: Host, full: string) { host.windows || host.executable(full) }

  // ---------------------------------------------------------------- the resolver

  /** The candidates a directory holds. */
  function HitsIn(host: Host, candidates: seq<string>, directory: string): seq<string> {
    if candidates == [] || directory == "" || host.listing(directory).None? then []
    else
      var entries := host.listing(directory).value;
      (if candidates[0] in entries then [host.joined(directory, entries[candidates[0]])] else [])
        + HitsIn(host, candidates[1..], directory)
  }

  /** The hits of several directories, in precedence order. */
  function Hits(host: Host, candidates: seq<string>, directories: seq<string>): seq<string> {
    if directories == [] then []
    else HitsIn(host, candidates, directories[0]) + Hits(host, candidates, directories[1..])
  }

  /** One hit against the real paths already seen. */
  predicate IsNew(host: Host, full: string, seen: set<string>) {
    host.realPath(full) !in seen && Accepted(host, full)
  }

  /** What a run over the hits adds to the matches. */
  function Matches(host: Host, hits: seq<string>, seen: set<string>): seq<string> {
    if hits == [] then []
    else if IsNew(host, hits[0], seen) then
      [hits[0]] + Matches(host, hits[1..], seen + {host.realPath(hits[0])})
    else Matches(host, hits[1..], seen)
  }

  /** The real paths seen after it. */
  function SeenAfter(host: Host, hits: seq<string>, seen: set<string>): set<string> {
    if hits == [] then seen
    else SeenAfter(host, hits[1..], if IsNew(host, hits[0], seen) then seen + {host.realPath(hits[0])} else seen)
  }

  function Resolve(host: Host, name: string, directories: seq<string>): seq<string> {
    Matches(host, Hits(host, Candidates(host, name), directories), {})
  }

  method ResolveAllOnPath(host: Host, name: string, path: string) returns (matches: seq<string>)
    ensures matches == Resolve(host, name, PathEntries(host, path))
  {
    hide Candidates, PathEntries, HitsIn;
    var candidates := Candidates(host, name);
    var directories := PathEntries(host, path);
    matches := [];
    var seen: set<string> := {};
    for i := 0 to |directories|
      invariant matches + Matches(host, Hits(host, candidates, directories[i..]), seen)
             == Resolve(host, name, directories)
    {
      assert directories[i..][1..] == directories[i + 1..];
      MatchesConcat(host, HitsIn(host, candidates, directories[i]),
        Hits(host, candidates, directories[i + 1..]), seen);
      var added;
      added, seen := ResolveInDirectory(host, candidates, directories[i], seen);
      matches := matches + added;
    }
  }

  /** The inner loop: one directory, listed once. */
  method ResolveInDirectory(host: Host, candidates: seq<string>, directory: string, before: set<string>)
    returns (matches: seq<string>, seen: set<string>)
    ensures matches == Matches(host, HitsIn(host, candidates, directory), before)
    ensures seen == SeenAfter(host, HitsIn(host, candidates, directory), before)
  {
    hide Matches, SeenAfter, Accepted, HitsIn;
    matches, seen := [], before;
    NoHits(host, before);
    HoldsNothing(host, candidates, directory);
    if directory == "" {
      return;
    }
    var entries := host.listing(directory);
    if entries.None? {
      return;
    }
    assert candidates[0..] == candidates;
    for i := 0 to |candidates|
      invariant matches + Matches(host, HitsIn(host, candidates[i..], directory), seen)
             == Matches(host, HitsIn(host, candidates, directory), before)
      invariant SeenAfter(host, HitsIn(host, candidates[i..], directory), seen)
             == SeenAfter(host, HitsIn(host, candidates, directory), before)
    {
      assert candidates[i..][1..] == candidates[i + 1..];
      HitsInStep(host, candidates, i, directory);
      if candidates[i] in entries.value {
        var full := host.joined(directory, entries.value[candidates[i]]);
        FirstHit(host, full, HitsIn(host, candidates[i + 1..], directory), seen);
        var resolved := host.realPath(full);
        if resolved in seen {
          continue;
        }
        if Accepted(host, full) {
          seen := seen + {resolved};
          matches := matches + [full];
        }
      }
    }
    HoldsNothing(host, candidates[|candidates|..], directory);
    NoHits(host, seen);
  }

  lemma HoldsNothing(host: Host, candidates: seq<string>, directory: string)
    ensures candidates == [] || directory == "" || host.listing(directory).None?
      ==> HitsIn(host, candidates, directory) == []
  {
  }

  lemma NoHits(host: Host, seen: set<string>)
    ensures Matches(host, [], seen) == [] && SeenAfter(host, [], seen) == seen
  {
  }

  lemma FirstHit(host: Host, full: string, rest: seq<string>, seen: set<string>)
    ensures var next := if IsNew(host, full, seen) then seen + {host.realPath(full)} else seen;
      && Matches(host, [full] + rest, seen)
           == (if IsNew(host, full, seen) then [full] else []) + Matches(host, rest, next)
      && SeenAfter(host, [full] + rest, seen) == SeenAfter(host, rest, next)
  {
    hide Accepted;
    assert ([full] + rest)[1..] == rest;
  }

  lemma HitsInStep(host: Host, candidates: seq<string>, i: nat, directory: string)
    requires i < |candidates| && directory != "" && host.listing(directory).Some?
    ensures var entries := host.listing(directory).value;
      var rest := HitsIn(host, candidates[i + 1..], directory);
      && HitsIn(host, candidates[i..], directory)
           == if candidates[i] in entries then [host.joined(directory, entries[candidates[i]])] + rest else rest
  {
    assert candidates[i..][1..] == candidates[i + 1..];
  }

  lemma {:induction false} MatchesConcat(host: Host, a: seq<string>, b: seq<string>, seen: set<string>)
    ensures Matches(host, a + b, seen) == Matches(host, a, seen) + Matches(host, b, SeenAfter(host, a, seen))
    ensures SeenAfter(host, a + b, seen) == SeenAfter(host, b, SeenAfter(host, a, seen))
  {
    hide IsNew;
    if a == [] {
      assert a + b == b;
    } else {
      assert (a + b)[1..] == a[1..] + b;
      MatchesConcat(host, a[1..], b, if IsNew(host, a[0], seen) then seen + {host.realPath(a[0])} else seen);
    }
  }

  lemma {:induction false} HitsConcat(host: Host, candidates: seq<string>, p: seq<string>, q: seq<string>)
    ensures Hits(host, candidates, p + q) == Hits(host, candidates, p) + Hits(host, candidates, q)
  {
    hide HitsIn;
    if p == [] {
      assert p + q == q;
    } else {
      assert (p + q)[1..] == p[1..] + q;
      HitsConcat(host, candidates, p[1..], q);
    }
  }

  // ---------------------------------------------------------------- its specification

  /** A runnable hit whose real path no earlier runnable hit has. */
  predicate IsFirst(host: Host, hits: seq<string>, i: nat)
    requires i < |hits|
  {
    && Accepted(host, hits[i])
    && forall j | 0 <= j < i :: Accepted(host, hits[j]) ==> host.realPath(hits[j]) != host.realPath(hits[i])
  }

  /** The first hits among the leading n. */
  function FirstHits(host: Host, hits: seq<string>, n: nat): seq<string>
    requires n <= |hits|
  {
    if n == 0 then []
    else FirstHits(host, hits, n - 1) + if IsFirst(host, hits, n - 1) then [hits[n - 1]] else []
  }

  /** The real paths seen are those of the runnable hits, and of nothing else. */
  lemma {:induction false} SeenExactly(host: Host, hits: seq<string>, seen: set<string>, resolved: string)
    ensures resolved in SeenAfter(host, hits, seen)
      <==> resolved in seen || exists i | 0 <= i < |hits| :: Accepted(host, hits[i]) && host.realPath(hits[i]) == resolved
  {
    hide Accepted;
    if hits != [] {
      var next := if IsNew(host, hits[0], seen) then seen + {host.realPath(hits[0])} else seen;
      SeenExactly(host, hits[1..], next, resolved);
      forall i | 0 < i < |hits| ensures hits[i] == hits[1..][i - 1] {}
      if i :| 0 <= i < |hits| - 1 && Accepted(host, hits[1..][i]) && host.realPath(hits[1..][i]) == resolved {
        assert hits[i + 1] == hits[1..][i];
      }
    }
  }

  /** The resolver's loop over a `seen` set computes the first hits. */
  lemma {:induction false} MatchesAreFirstHits(host: Host, hits: seq<string>, n: nat)
    requires n <= |hits|
    ensures Matches(host, hits[..n], {}) == FirstHits(host, hits, n)
  {
    hide Accepted;
    if n > 0 {
      var head, last := hits[..n - 1], hits[n - 1];
      MatchesAreFirstHits(host, hits, n - 1);
      assert hits[..n] == head + [last];
      MatchesConcat(host, head, [last], {});
      SeenExactly(host, head, {}, host.realPath(last));
      assert forall j | 0 <= j < n - 1 :: head[j] == hits[j];
      assert Matches(host, [last], SeenAfter(host, head, {}))
        == if IsNew(host, last, SeenAfter(host, head, {})) then [last] else [] by {
        assert [last][1..] == [];
      }
    }
  }

  /** Resolution returns, in order, exactly the runnable hits no earlier runnable hit shadows. */
  lemma ResolveRefines(host: Host, name: string, directories: seq<string>)
    ensures var hits := Hits(host, Candidates(host, name), directories);
      Resolve(host, name, directories) == FirstHits(host, hits, |hits|)
  {
    var hits := Hits(host, Candidates(host, name), directories);
    MatchesAreFirstHits(host, hits, |hits|);
    assert hits[..|hits|] == hits;
  }

  /** A match is a runnable hit whose real path was not seen before the run. */
  lemma {:induction false} MatchOrigin(host: Host, hits: seq<string>, seen: set<string>, i: nat)
    requires i < |Matches(host, hits, seen)|
    ensures var m := Matches(host, hits, seen)[i];
      m in hits && Accepted(host, m) && host.realPath(m) !in seen
    decreases |hits|
  {
    hide Accepted;
    if IsNew(host, hits[0], seen) {
      if i > 0 { MatchOrigin(host, hits[1..], seen + {host.realPath(hits[0])}, i - 1); }
    } else {
      MatchOrigin(host, hits[1..], seen, i);
    }
  }

  /** The real paths of the matches are pairwise distinct. */
  lemma {:induction false} MatchesDistinct(host: Host, hits: seq<string>, seen: set<string>, i: nat, j: nat)
    requires i < j < |Matches(host, hits, seen)|
    ensures host.realPath(Matches(host, hits, seen)[i]) != host.realPath(Matches(host, hits, seen)[j])
    decreases |hits|
  {
    hide Accepted;
    if IsNew(host, hits[0], seen) {
      var next := seen + {host.realPath(hits[0])};
      if i > 0 {
        MatchesDistinct(host, hits[1..], next, i - 1, j - 1);
      } else {
        MatchOrigin(host, hits[1..], next, j - 1);
      }
    } else {
      MatchesDistinct(host, hits[1..], seen, i, j);
    }
  }

  /** No runnable hit is missed: its real path is that of some match. */
  lemma {:induction false} MatchesComplete(host: Host, hits: seq<string>, seen: set<string>, i: nat)
    requires i < |hits| && Accepted(host, hits[i]) && host.realPath(hits[i]) !in seen
    ensures exists j | 0 <= j < |Matches(host, hits, seen)| ::
      host.realPath(Matches(host, hits, seen)[j]) == host.realPath(hits[i])
  {
    hide Accepted;
    var m := Matches(host, hits, seen);
    var added := IsNew(host, hits[0], seen);
    if i == 0 {
      assert m[0] == hits[0];
    } else if added && host.realPath(hits[0]) == host.realPath(hits[i]) {
      assert m[0] == hits[0];
    } else {
      var next := if added then seen + {host.realPath(hits[0])} else seen;
      var rest := Matches(host, hits[1..], next);
      assert hits[1..][i - 1] == hits[i];
      MatchesComplete(host, hits[1..], next, i - 1);
      var j :| 0 <= j < |rest| && host.realPath(rest[j]) == host.realPath(hits[i]);
      assert rest[j] == m[if added then j + 1 else j];
    }
  }

  /** Appending directories only appends matches. */
  lemma ResolveExtends(host: Host, name: string, p: seq<string>, q: seq<string>)
    ensures Resolve(host, name, p) <= Resolve(host, name, p + q)
  {
    hide Candidates, Matches, Hits;
    var candidates := Candidates(host, name);
    HitsConcat(host, candidates, p, q);
    MatchesConcat(host, Hits(host, candidates, p), Hits(host, candidates, q), {});
  }

  // ---------------------------------------------------------------- the PATH probe

  datatype Entry = Entry(raw: string, normalized: string, exists_: bool, index: nat)

  predicate IsBlank(part: string) { Strip(part) == "" }

  function Nonblank(parts: seq<string>): seq<string> {
    if parts == [] then []
    else (if IsBlank(parts[0]) then [] else [parts[0]]) + Nonblank(parts[1..])
  }

  /** The normal forms of the first n parts. */
  function NormalForms(host: Host, parts: seq<string>, n: nat): set<string>
    requires n <= |parts|
  {
    if n == 0 then {} else NormalForms(host, parts, n - 1) + {host.normalForm(parts[n - 1])}
  }

  /** Some earlier part has the normal form of part i. */
  predicate IsDuplicate(host: Host, parts: seq<string>, i: nat)
    requires i < |parts|
  {
    host.normalForm(parts[i]) in NormalForms(host, parts, i)
  }

  function DuplicateParts(host: Host, parts: seq<string>, n: nat): seq<string>
    requires n <= |parts|
  {
    if n == 0 then []
    else DuplicateParts(host, parts, n - 1) + if IsDuplicate(host, parts, n - 1) then [parts[n - 1]] else []
  }

  function DeadParts(host: Host, parts: seq<string>, n: nat): seq<string>
    requires n <= |parts|
  {
    if n == 0 then []
    else DeadParts(host, parts, n - 1) + if host.isDirectory(parts[n - 1]) then [] else [parts[n - 1]]
  }

  /** The classification loop of the probe. */
  method ClassifyPath(host: Host, path: string)
    returns (entries: seq<Entry>, duplicates: seq<string>, dead: seq<string>)
    ensures var parts := Nonblank(PathEntries(host, path));
      && |entries| == |parts|
      && (forall i | 0 <= i < |parts| ::
            entries[i] == Entry(parts[i], host.normalForm(parts[i]), host.isDirectory(parts[i]), i))
      && duplicates == DuplicateParts(host, parts, |parts|)
      && dead == DeadParts(host, parts, |parts|)
  {
    hide PathEntries, Nonblank;
    var parts := Nonblank(PathEntries(host, path));
    entries, duplicates, dead := [], [], [];
    var seenNorm: map<string, nat> := map[];
    for i := 0 to |parts|
      invariant |entries| == i
      invariant forall j | 0 <= j < i ::
        entries[j] == Entry(parts[j], host.normalForm(parts[j]), host.isDirectory(parts[j]), j)
      invariant seenNorm.Keys == NormalForms(host, parts, i)
      invariant duplicates == DuplicateParts(host, parts, i)
      invariant dead == DeadParts(host, parts, i)
    {
      var norm := host.normalForm(parts[i]);
      entries := entries + [Entry(parts[i], norm, host.isDirectory(parts[i]), i)];
      if norm in seenNorm {
        duplicates := duplicates + [parts[i]];
      } else {
        seenNorm := seenNorm[norm := i];
      }
      if !host.isDirectory(parts[i]) {
        dead := dead + [parts[i]];
      }
    }
  }

  // ---------------------------------------------------------------- following the advice

  /** Whether an entry is one the probe advises to remove, the normal forms before it given: a later
      duplicate, or, following both pieces of advice, a dead one.  The probe does not look at blank parts. */
  predicate Drops(host: Host, deadToo: bool, d: string, norms: set<string>) {
    !IsBlank(d) && (host.normalForm(d) in norms || (deadToo && !host.isDirectory(d)))
  }

  function NormsWith(host: Host, d: string, norms: set<string>): set<string> {
    if IsBlank(d) then norms else norms + {host.normalForm(d)}
  }

  /** PATH without the entries the probe advises to remove. */
  function Cleaned(host: Host, deadToo: bool, parts: seq<string>, norms: set<string>): seq<string> {
    if parts == [] then []
    else
      (if Drops(host, deadToo, parts[0], norms) then [] else [parts[0]])
        + Cleaned(host, deadToo, parts[1..], NormsWith(host, parts[0], norms))
  }

  /** The entries removed. */
  function Removed(host: Host, deadToo: bool, parts: seq<string>, norms: set<string>): seq<string> {
    if parts == [] then []
    else
      (if Drops(host, deadToo, parts[0], norms) then [parts[0]] else [])
        + Removed(host, deadToo, parts[1..], NormsWith(host, parts[0], norms))
  }

  function DuplicatesFrom(host: Host, parts: seq<string>, n: nat): seq<string>
    requires n <= |parts|
    decreases |parts| - n
  {
    if n == |parts| then []
    else (if IsDuplicate(host, parts, n) then [parts[n]] else []) + DuplicatesFrom(host, parts, n + 1)
  }

  lemma {:induction false} DuplicatesSplit(host: Host, parts: seq<string>, n: nat)
    requires n <= |parts|
    ensures DuplicateParts(host, parts, n) + DuplicatesFrom(host, parts, n) == DuplicateParts(host, parts, |parts|)
    decreases |parts| - n
  {
    hide IsDuplicate;
    if n < |parts| { DuplicatesSplit(host, parts, n + 1); }
  }

  lemma {:induction false} RemovedFrom(host: Host, parts: seq<string>, before: seq<string>)
    ensures var all := before + Nonblank(parts);
      Removed(host, false, parts, NormalForms(host, all, |before|)) == DuplicatesFrom(host, all, |before|)
    decreases |parts|
  {
    hide IsBlank;
    if parts == [] {
      assert before + [] == before;
    } else if IsBlank(parts[0]) {
      assert Nonblank(parts) == Nonblank(parts[1..]);
      RemovedFrom(host, parts[1..], before);
    } else {
      var all, next := before + Nonblank(parts), before + [parts[0]];
      assert all == next + Nonblank(parts[1..]) && all[|before|] == parts[0];
      RemovedFrom(host, parts[1..], next);
    }
  }

  /** Following the advice on duplicates removes exactly the entries the probe lists as duplicates. */
  lemma RemovedAreTheReported(host: Host, parts: seq<string>)
    ensures Removed(host, false, parts, {}) == DuplicateParts(host, Nonblank(parts), |Nonblank(parts)|)
  {
    hide IsDuplicate, Removed, Nonblank, DuplicatesFrom;
    var all := Nonblank(parts);
    RemovedFrom(host, parts, []);
    assert [] + all == all;
    DuplicatesSplit(host, all, 0);
    assert DuplicateParts(host, all, 0) == [] && NormalForms(host, all, 0) == {};
  }

  /** Whatever a run finds runnable in the hits has a real path already seen. */
  predicate AllSeen(host: Host, hits: seq<string>, seen: set<string>) {
    forall i | 0 <= i < |hits| :: Accepted(host, hits[i]) ==> host.realPath(hits[i]) in seen
  }

  lemma {:induction false} AllSeenAddsNothing(host: Host, hits: seq<string>, seen: set<string>)
    requires AllSeen(host, hits, seen)
    ensures Matches(host, hits, seen) == [] && SeenAfter(host, hits, seen) == seen
  {
    hide Accepted;
    if hits != [] {
      assert forall i | 0 < i < |hits| :: hits[1..][i - 1] == hits[i];
      AllSeenAddsNothing(host, hits[1..], seen);
    }
  }

  function NormsAfter(host: Host, parts: seq<string>, norms: set<string>): set<string> {
    if parts == [] then norms else NormsAfter(host, parts[1..], NormsWith(host, parts[0], norms))
  }

  /** Entry i of the PATH is one to be removed. */
  predicate IsDropped(host: Host, deadToo: bool, parts: seq<string>, i: nat)
    requires i < |parts|
  {
    Drops(host, deadToo, parts[i], NormsAfter(host, parts[..i], {}))
  }

  /** Every program entry i offers under the name is one an earlier entry offers. */
  predicate IsShadowed(host: Host, name: string, parts: seq<string>, i: nat)
    requires i < |parts|
  {
    var candidates := Candidates(host, name);
    AllSeen(host, HitsIn(host, candidates, parts[i]), SeenAfter(host, Hits(host, candidates, parts[..i]), {}))
  }

  predicate DroppedAreShadowed(host: Host, deadToo: bool, name: string, parts: seq<string>) {
    forall i | 0 <= i < |parts| :: IsDropped(host, deadToo, parts, i) ==> IsShadowed(host, name, parts, i)
  }

  // ---------------------------------------------------------------- when it is safe

  /** The same condition along the PATH, from given normal forms and real paths on. */
  predicate Shadowed(host: Host, deadToo: bool, name: string, parts: seq<string>, norms: set<string>, seen: set<string>)
    decreases |parts|
  {
    parts == [] ||
    var here := HitsIn(host, Candidates(host, name), parts[0]);
    && (Drops(host, deadToo, parts[0], norms) ==> AllSeen(host, here, seen))
    && Shadowed(host, deadToo, name, parts[1..], NormsWith(host, parts[0], norms), SeenAfter(host, here, seen))
  }

  predicate ShadowedAt(host: Host, deadToo: bool, name: string, parts: seq<string>, norms: set<string>, seen: set<string>, i: nat)
    requires i < |parts|
  {
    var candidates := Candidates(host, name);
    Drops(host, deadToo, parts[i], NormsAfter(host, parts[..i], norms)) ==>
      AllSeen(host, HitsIn(host, candidates, parts[i]), SeenAfter(host, Hits(host, candidates, parts[..i]), seen))
  }

  lemma ShadowedLater(host: Host, deadToo: bool, name: string, parts: seq<string>, norms: set<string>, seen: set<string>, i: nat)
    requires 0 < i < |parts|
    ensures var here := HitsIn(host, Candidates(host, name), parts[0]);
      ShadowedAt(host, deadToo, name, parts, norms, seen, i) ==
      ShadowedAt(host, deadToo, name, parts[1..], NormsWith(host, parts[0], norms), SeenAfter(host, here, seen), i - 1)
  {
    hide Drops, NormsWith, AllSeen, HitsIn, Candidates, SeenAfter;
    var candidates := Candidates(host, name);
    var head, tail := parts[..i], parts[1..][..i - 1];
    assert head[0] == parts[0] && head[1..] == tail && parts[1..][i - 1] == parts[i];
    assert Hits(host, candidates, head) == HitsIn(host, candidates, parts[0]) + Hits(host, candidates, tail);
    MatchesConcat(host, HitsIn(host, candidates, parts[0]), Hits(host, candidates, tail), seen);
  }

  lemma ShadowedFirst(host: Host, deadToo: bool, name: string, parts: seq<string>, norms: set<string>, seen: set<string>)
    requires parts != []
    ensures ShadowedAt(host, deadToo, name, parts, norms, seen, 0)
      <==> (Drops(host, deadToo, parts[0], norms) ==> AllSeen(host, HitsIn(host, Candidates(host, name), parts[0]), seen))
  {
    hide Drops, AllSeen, HitsIn, Candidates;
    assert parts[..0] == [];
  }

  lemma {:induction false} ShadowedEverywhere(host: Host, deadToo: bool, name: string, parts: seq<string>, norms: set<string>, seen: set<string>)
    ensures Shadowed(host, deadToo, name, parts, norms, seen)
      <==> forall i | 0 <= i < |parts| :: ShadowedAt(host, deadToo, name, parts, norms, seen, i)
    decreases |parts|
  {
    hide ShadowedAt, Drops, NormsWith, AllSeen, HitsIn, Candidates, SeenAfter;
    if parts != [] {
      var here := HitsIn(host, Candidates(host, name), parts[0]);
      var next, after := NormsWith(host, parts[0], norms), SeenAfter(host, here, seen);
      ShadowedFirst(host, deadToo, name, parts, norms, seen);
      ShadowedEverywhere(host, deadToo, name, parts[1..], next, after);
      forall i | 0 < i < |parts|
        ensures ShadowedAt(host, deadToo, name, parts, norms, seen, i)
          <==> ShadowedAt(host, deadToo, name, parts[1..], next, after, i - 1)
      {
        ShadowedLater(host, deadToo, name, parts, norms, seen, i);
      }
      assert forall i | 0 <= i < |parts| - 1 ::
        ShadowedAt(host, deadToo, name, parts[1..], next, after, i) <==> ShadowedAt(host, deadToo, name, parts, norms, seen, i + 1);
    }
  }

  lemma ShadowedForm(host: Host, deadToo: bool, name: string, parts: seq<string>)
    ensures Shadowed(host, deadToo, name, parts, {}, {}) <==> DroppedAreShadowed(host, deadToo, name, parts)
  {
    hide Shadowed, Drops, AllSeen, HitsIn, Hits, Candidates, SeenAfter, NormsAfter;
    ShadowedEverywhere(host, deadToo, name, parts, {}, {});
    assert forall i | 0 <= i < |parts| ::
      ShadowedAt(host, deadToo, name, parts, {}, {}, i) <==>
      (IsDropped(host, deadToo, parts, i) ==> IsShadowed(host, name, parts, i));
  }

  lemma KeptFirst(host: Host, candidates: seq<string>, d: string, rest: seq<string>, seen: set<string>)
    ensures var here := HitsIn(host, candidates, d);
      Matches(host, Hits(host, candidates, [d] + rest), seen)
        == Matches(host, here, seen) + Matches(host, Hits(host, candidates, rest), SeenAfter(host, here, seen))
  {
    hide HitsIn, Matches, SeenAfter;
    assert ([d] + rest)[1..] == rest;
    MatchesConcat(host, HitsIn(host, candidates, d), Hits(host, candidates, rest), seen);
  }

  /** What is found along the PATH, by name, from given real paths on. */
  function Found(host: Host, name: string, parts: seq<string>, seen: set<string>): seq<string> {
    Matches(host, Hits(host, Candidates(host, name), parts), seen)
  }

  lemma FoundCons(host: Host, name: string, d: string, rest: seq<string>, seen: set<string>)
    ensures var here := HitsIn(host, Candidates(host, name), d);
      Found(host, name, [d] + rest, seen) == Matches(host, here, seen) + Found(host, name, rest, SeenAfter(host, here, seen))
  {
    hide Candidates, HitsIn, Hits, Matches, SeenAfter;
    KeptFirst(host, Candidates(host, name), d, rest, seen);
  }

  lemma {:induction false} ShadowedIsSafe(host: Host, deadToo: bool, name: string, parts: seq<string>, norms: set<string>, seen: set<string>)
    requires Shadowed(host, deadToo, name, parts, norms, seen)
    ensures Found(host, name, Cleaned(host, deadToo, parts, norms), seen) == Found(host, name, parts, seen)
    decreases |parts|
  {
    hide Found, Drops, NormsWith, AllSeen, HitsIn, Candidates, SeenAfter, Matches;
    if parts != [] {
      var d := parts[0];
      var here := HitsIn(host, Candidates(host, name), d);
      var rest := Cleaned(host, deadToo, parts[1..], NormsWith(host, d, norms));
      ShadowedIsSafe(host, deadToo, name, parts[1..], NormsWith(host, d, norms), SeenAfter(host, here, seen));
      assert parts == [d] + parts[1..];
      FoundCons(host, name, d, parts[1..], seen);
      if Drops(host, deadToo, d, norms) {
        AllSeenAddsNothing(host, here, seen);
        assert [] + rest == rest;
      } else {
        FoundCons(host, name, d, rest, seen);
      }
    }
  }

  /** A directory's files, by the names they are listed under. */
  function Files(host: Host, d: string): set<string> {
    match host.listing(d) case None => {} case Some(entries) => entries.Values
  }

  /** Entries whose files have one path have one normal form: what joining collapses, normalising does too. */
  ghost predicate JoinsKeepForm(host: Host, parts: seq<string>) {
    forall a, b | a in parts && b in parts ::
      forall x, y | x in Files(host, a) && y in Files(host, b) ::
        host.joined(a, x) == host.joined(b, y) ==> host.normalForm(a) == host.normalForm(b) && (IsBlank(a) <==> IsBlank(b))
  }

  lemma {:induction false} HitInOrigin(host: Host, candidates: seq<string>, d: string, h: string) returns (x: string)
    requires h in HitsIn(host, candidates, d)
    ensures x in Files(host, d) && h == host.joined(d, x)
  {
    var entries := host.listing(d).value;
    if candidates[0] in entries && h == host.joined(d, entries[candidates[0]]) {
      x := entries[candidates[0]];
    } else {
      x := HitInOrigin(host, candidates[1..], d, h);
    }
  }

  lemma {:induction false} HitOrigin(host: Host, candidates: seq<string>, parts: seq<string>, h: string) returns (d: string, x: string)
    requires h in Hits(host, candidates, parts)
    ensures d in parts && x in Files(host, d) && h == host.joined(d, x)
  {
    hide HitsIn, Files;
    if h in HitsIn(host, candidates, parts[0]) {
      d := parts[0];
      x := HitInOrigin(host, candidates, d, h);
    } else {
      d, x := HitOrigin(host, candidates, parts[1..], h);
    }
  }

  lemma {:induction false} CleanedMember(host: Host, deadToo: bool, parts: seq<string>, norms: set<string>, d: string)
    requires d in Cleaned(host, deadToo, parts, norms)
    ensures d in parts && (IsBlank(d) || host.normalForm(d) !in norms)
  {
    hide IsBlank;
    if d != parts[0] || Drops(host, deadToo, parts[0], norms) {
      CleanedMember(host, deadToo, parts[1..], NormsWith(host, parts[0], norms), d);
    }
  }

  /** What a dropped entry is the first to offer, the rest of the cleaned PATH does not offer by the same path. */
  lemma NotFoundLater(host: Host, deadToo: bool, name: string, parts: seq<string>, norms: set<string>, seen: set<string>)
    requires parts != [] && JoinsKeepForm(host, parts) && Drops(host, deadToo, parts[0], norms)
    requires var here := HitsIn(host, Candidates(host, name), parts[0]); Matches(host, here, seen) != []
    ensures var here := HitsIn(host, Candidates(host, name), parts[0]);
      var later := Found(host, name, Cleaned(host, deadToo, parts[1..], NormsWith(host, parts[0], norms)), seen);
      later != [] ==> later[0] != Matches(host, here, seen)[0]
  {
    hide Candidates, HitsIn, Hits, Matches, Cleaned, Files, IsBlank, Accepted;
    var d := parts[0];
    var candidates, next := Candidates(host, name), NormsWith(host, parts[0], norms);
    var here := HitsIn(host, candidates, d);
    var cleaned := Cleaned(host, deadToo, parts[1..], next);
    var later := Found(host, name, cleaned, seen);
    MatchOrigin(host, here, seen, 0);
    var x := HitInOrigin(host, candidates, d, Matches(host, here, seen)[0]);
    if later != [] && later[0] == Matches(host, here, seen)[0] {
      MatchOrigin(host, Hits(host, candidates, cleaned), seen, 0);
      var e, y := HitOrigin(host, candidates, cleaned, later[0]);
      CleanedMember(host, deadToo, parts[1..], next, e);
      assert false;
    }
  }

  lemma {:induction false} SafeIsShadowed(host: Host, deadToo: bool, name: string, parts: seq<string>, norms: set<string>, seen: set<string>)
    requires JoinsKeepForm(host, parts)
    requires Found(host, name, Cleaned(host, deadToo, parts, norms), seen) == Found(host, name, parts, seen)
    ensures Shadowed(host, deadToo, name, parts, norms, seen)
    decreases |parts|
  {
    hide Found, Drops, NormsWith, AllSeen, HitsIn, Candidates, SeenAfter, Matches, Files, IsBlank;
    if parts != [] {
      var d := parts[0];
      var here := HitsIn(host, Candidates(host, name), d);
      var next, after := NormsWith(host, d, norms), SeenAfter(host, here, seen);
      var rest := Cleaned(host, deadToo, parts[1..], next);
      assert parts == [d] + parts[1..];
      assert JoinsKeepForm(host, parts[1..]);
      FoundCons(host, name, d, parts[1..], seen);
      if Drops(host, deadToo, d, norms) {
        assert [] + rest == rest;
        if Matches(host, here, seen) != [] {
          NotFoundLater(host, deadToo, name, parts, norms, seen);
          assert false;
        } else {
          NothingMatchedIsSeen(host, here, seen);
        }
      } else {
        FoundCons(host, name, d, rest, seen);
        var m := Matches(host, here, seen);
        assert (m + Found(host, name, rest, after))[|m|..] == Found(host, name, rest, after);
        assert (m + Found(host, name, parts[1..], after))[|m|..] == Found(host, name, parts[1..], after);
      }
      SafeIsShadowed(host, deadToo, name, parts[1..], next, after);
    }
  }

  /** A run that adds nothing has seen everything before. */
  lemma NothingMatchedIsSeen(host: Host, hits: seq<string>, seen: set<string>)
    requires Matches(host, hits, seen) == []
    ensures AllSeen(host, hits, seen) && SeenAfter(host, hits, seen) == seen
  {
    hide SeenAfter, Accepted;
    forall i | 0 <= i < |hits| && Accepted(host, hits[i]) ensures host.realPath(hits[i]) in seen {
      if host.realPath(hits[i]) !in seen { MatchesComplete(host, hits, seen, i); }
    }
    AllSeenAddsNothing(host, hits, seen);
  }

  /** Following the advice leaves a command's resolution alone when every removed entry is shadowed. */
  lemma RemovalIsSafe(host: Host, deadToo: bool, name: string, parts: seq<string>)
    requires DroppedAreShadowed(host, deadToo, name, parts)
    ensures Resolve(host, name, Cleaned(host, deadToo, parts, {})) == Resolve(host, name, parts)
  {
    hide Cleaned, Hits, Matches, Candidates, DroppedAreShadowed, Shadowed;
    ShadowedForm(host, deadToo, name, parts);
    ShadowedIsSafe(host, deadToo, name, parts, {}, {});
  }

  /** And exactly then: on this PATH, for this command. */
  lemma RemovalIsSafeExactly(host: Host, deadToo: bool, name: string, parts: seq<string>)
    requires JoinsKeepForm(host, parts)
    ensures Resolve(host, name, Cleaned(host, deadToo, parts, {})) == Resolve(host, name, parts)
      <==> DroppedAreShadowed(host, deadToo, name, parts)
  {
    hide Cleaned, Hits, Matches, Candidates, DroppedAreShadowed, Shadowed, JoinsKeepForm;
    ShadowedForm(host, deadToo, name, parts);
    if DroppedAreShadowed(host, deadToo, name, parts) {
      RemovalIsSafe(host, deadToo, name, parts);
    } else if Resolve(host, name, Cleaned(host, deadToo, parts, {})) == Resolve(host, name, parts) {
      SafeIsShadowed(host, deadToo, name, parts, {}, {});
    }
  }

  // ---------------------------------------------------------------- what the advice takes for granted

  /** Every program entry j offers, entry i offers as well, under the same name. */
  ghost predicate Redundant(host: Host, b: string, a: string) {
    forall name: string :: AllSeen(host, HitsIn(host, Candidates(host, name), b),
      SeenAfter(host, HitsIn(host, Candidates(host, name), a), {}))
  }

  /** Nothing in the directory is runnable under any name. */
  ghost predicate OffersNothing(host: Host, d: string) {
    forall name: string :: AllSeen(host, HitsIn(host, Candidates(host, name), d), {})
  }

  predicate SameForm(host: Host, a: string, b: string) {
    !IsBlank(a) && !IsBlank(b) && host.normalForm(a) == host.normalForm(b)
  }

  /** Of the entries on this PATH: a later one of the same normal form offers no more than the earlier, and
      one that is no directory offers nothing. */
  ghost predicate EntriesInterchangeable(host: Host, deadToo: bool, parts: seq<string>) {
    && (forall i, j | 0 <= i < j < |parts| && SameForm(host, parts[i], parts[j]) :: Redundant(host, parts[j], parts[i]))
    && (deadToo ==> forall i | 0 <= i < |parts| ::
          !IsBlank(parts[i]) && !host.isDirectory(parts[i]) ==> OffersNothing(host, parts[i]))
  }

  lemma SeenGrows(host: Host, hits: seq<string>, seen: set<string>)
    ensures seen <= SeenAfter(host, hits, seen)
    ensures SeenAfter(host, hits, {}) <= SeenAfter(host, hits, seen)
  {
    hide SeenAfter;
    forall resolved | resolved in seen ensures resolved in SeenAfter(host, hits, seen) {
      SeenExactly(host, hits, seen, resolved);
    }
    forall resolved | resolved in SeenAfter(host, hits, {}) ensures resolved in SeenAfter(host, hits, seen) {
      SeenExactly(host, hits, {}, resolved);
      SeenExactly(host, hits, seen, resolved);
    }
  }

  lemma AllSeenMore(host: Host, hits: seq<string>, seen: set<string>, more: set<string>)
    requires AllSeen(host, hits, seen) && seen <= more
    ensures AllSeen(host, hits, more)
  {
  }

  lemma EarlierSeen(host: Host, candidates: seq<string>, parts: seq<string>, j: nat, i: nat)
    requires j < i <= |parts|
    ensures SeenAfter(host, HitsIn(host, candidates, parts[j]), {}) <= SeenAfter(host, Hits(host, candidates, parts[..i]), {})
  {
    hide HitsIn, SeenAfter, Matches;
    var a, b, c := parts[..j], [parts[j]], parts[j + 1..i];
    assert parts[..i] == a + (b + c);
    HitsConcat(host, candidates, a, b + c);
    assert Hits(host, candidates, b + c) == HitsIn(host, candidates, parts[j]) + Hits(host, candidates, c) by {
      assert (b + c)[1..] == c;
    }
    var before, here, after := Hits(host, candidates, a), HitsIn(host, candidates, parts[j]), Hits(host, candidates, c);
    MatchesConcat(host, before, here + after, {});
    var seen := SeenAfter(host, before, {});
    MatchesConcat(host, here, after, seen);
    SeenGrows(host, here, seen);
    SeenGrows(host, after, SeenAfter(host, here, seen));
  }

  lemma {:induction false} NormsOrigin(host: Host, parts: seq<string>, norms: set<string>, norm: string) returns (j: nat)
    requires norm in NormsAfter(host, parts, norms) && norm !in norms
    ensures j < |parts| && !IsBlank(parts[j]) && host.normalForm(parts[j]) == norm
  {
    hide IsBlank;
    var next := NormsWith(host, parts[0], norms);
    if norm in next {
      j := 0;
    } else {
      j := NormsOrigin(host, parts[1..], next, norm);
      j := j + 1;
    }
  }

  /** What the advice takes for granted, checked on this PATH, makes it safe for every command. */
  lemma InterchangeableIsSafe(host: Host, deadToo: bool, name: string, parts: seq<string>)
    requires EntriesInterchangeable(host, deadToo, parts)
    ensures Resolve(host, name, Cleaned(host, deadToo, parts, {})) == Resolve(host, name, parts)
  {
    hide Resolve, Cleaned, AllSeen, SeenAfter, HitsIn, Hits, Candidates, IsBlank, NormsAfter;
    var candidates := Candidates(host, name);
    forall i | 0 <= i < |parts| && IsDropped(host, deadToo, parts, i) ensures IsShadowed(host, name, parts, i) {
      var here, seen := HitsIn(host, candidates, parts[i]), SeenAfter(host, Hits(host, candidates, parts[..i]), {});
      if host.normalForm(parts[i]) in NormsAfter(host, parts[..i], {}) {
        var j := NormsOrigin(host, parts[..i], {}, host.normalForm(parts[i]));
        assert parts[..i][j] == parts[j];
        assert Redundant(host, parts[i], parts[j]);
        EarlierSeen(host, candidates, parts, j, i);
        AllSeenMore(host, here, SeenAfter(host, HitsIn(host, candidates, parts[j]), {}), seen);
      } else {
        assert OffersNothing(host, parts[i]);
        AllSeenMore(host, here, {}, seen);
      }
    }
    RemovalIsSafe(host, deadToo, name, parts);
  }

  // ---------------------------------------------------------------- where it is not

  /** An entry that cannot be listed, spelled so that it normalises to a live one after it, makes the live
      entry the duplicate: removing that loses its programs. */
  lemma DeadOriginalLosesPrograms(host: Host, deadToo: bool, name: string, dead: string, live: string)
    requires !IsBlank(dead) && !IsBlank(live) && host.normalForm(dead) == host.normalForm(live)
    requires host.listing(dead).None? && !host.isDirectory(dead)
    requires Resolve(host, name, [live]) != []
    ensures IsDropped(host, deadToo, [dead, live], 1)
    ensures Resolve(host, name, [dead, live]) == Resolve(host, name, [live])
    ensures Resolve(host, name, Cleaned(host, deadToo, [dead, live], {})) == []
  {
    hide IsBlank, Candidates, HitsIn, Matches;
    var candidates, parts := Candidates(host, name), [dead, live];
    HoldsNothing(host, candidates, dead);
    assert parts[1..] == [live] && [live][1..] == [] && [dead][1..] == [] && parts[..1] == [dead];
    assert NormsAfter(host, [dead], {}) == {host.normalForm(dead)};
    assert Hits(host, candidates, []) == [] && Hits(host, candidates, [dead]) == [] + [];
    assert Hits(host, candidates, parts) == [] + Hits(host, candidates, [live]) == Hits(host, candidates, [live]);
    var norms := NormsWith(host, dead, {});
    assert Cleaned(host, deadToo, [live], norms) == [] + Cleaned(host, deadToo, [], NormsWith(host, live, norms));
    assert Cleaned(host, deadToo, parts, {}) == if deadToo then [] else [dead];
    NoHits(host, {});
  }

  const NOWHERE := "/nonexistent/../usr/bin"
  const USR_BIN := "/usr/bin"

  /** A machine with one directory, holding one program. */
  function OneDirectory(): Host {
    Host(false, "", (s: string) => s,
      (d: string) => if d == USR_BIN then Some(map["ls" := "ls"]) else None,
      (d: string, f: string) => d + "/" + f,
      (p: string) => p, (p: string) => true,
      (d: string) => d == USR_BIN,
      (d: string) => if d == NOWHERE then USR_BIN else d)
  }

  /** On that machine `/nonexistent/../usr/bin:/usr/bin` resolves `ls`; with the duplicate removed, or the
      dead entry too, it does not. */
  lemma SafeAdviceLosesLs(deadToo: bool)
    ensures var host := OneDirectory();
      var parts := PathEntries(host, NOWHERE + ":" + USR_BIN);
      && parts == [NOWHERE, USR_BIN] && IsDropped(host, deadToo, parts, 1)
      && Resolve(host, "ls", parts) == ["/usr/bin/ls"]
      && Resolve(host, "ls", Cleaned(host, deadToo, parts, {})) == []
  {
    hide SplitOn, IsBlank, Resolve, Cleaned, IsDropped;
    var host := OneDirectory();
    SplitOnFirst(NOWHERE, ':', USR_BIN);
    SplitOnNone(USR_BIN, ':');
    assert SplitOn(NOWHERE + ":" + USR_BIN, ":") == [NOWHERE, USR_BIN];
    assert !IsBlank(NOWHERE) && !IsBlank(USR_BIN) by { VisiblePart(NOWHERE); VisiblePart(USR_BIN); }
    UsrBinHasLs();
    DeadOriginalLosesPrograms(host, deadToo, "ls", NOWHERE, USR_BIN);
  }

  lemma VisiblePart(part: string)
    requires part != "" && part[0] == '/' && !IsSpace(part[|part| - 1])
    ensures !IsBlank(part)
  {
  }

  lemma UsrBinHasLs()
    ensures Resolve(OneDirectory(), "ls", [USR_BIN]) == ["/usr/bin/ls"]
  {
    var host := OneDirectory();
    assert Candidates(host, "ls") == ["ls"] && ["ls"][1..] == [];
    assert HitsIn(host, [], USR_BIN) == [];
    assert HitsIn(host, ["ls"], USR_BIN) == ["/usr/bin/ls"] by { assert USR_BIN + "/" + "ls" == "/usr/bin/ls"; }
    assert [USR_BIN][1..] == [] && Hits(host, ["ls"], []) == [];
    assert ["/usr/bin/ls"][1..] == [] && Matches(host, [], {"/usr/bin/ls"}) == [];
  }
}
