/** Which files a command resolves to in a directory, and in what order (devrepro/probes/helpers.py), stated of
    the directory's listing and of PATHEXT. */
module ResolutionOrder {
  import opened Strings
  import opened PathResolution

  // ---------------------------------------------------------------- where a hit ends up

  /** A first hit stands after the matches of the hits before it. */
  lemma MatchPlace(host: Host, hits: seq<string>, s: nat)
    requires s < |hits| && IsFirst(host, hits, s)
    ensures var p := |Matches(host, hits[..s], {})|;
      p < |Matches(host, hits, {})| && Matches(host, hits, {})[p] == hits[s]
      && |Matches(host, hits[..s + 1], {})| == p + 1
  {
    hide Matches, Accepted, SeenAfter;
    var head, rest := hits[..s], hits[s + 1..];
    assert hits == head + ([hits[s]] + rest) && hits[..s + 1] == head + [hits[s]];
    var seen := SeenAfter(host, head, {});
    SeenExactly(host, head, {}, host.realPath(hits[s]));
    assert forall j | 0 <= j < s :: head[j] == hits[j];
    assert IsNew(host, hits[s], seen);
    MatchesConcat(host, head, [hits[s]] + rest, {});
    MatchesConcat(host, head, [hits[s]], {});
    FirstHit(host, hits[s], rest, seen);
    FirstHit(host, hits[s], [], seen);
    assert [hits[s]] + [] == [hits[s]];
    NoHits(host, seen + {host.realPath(hits[s])});
  }

  /** Of two first hits the earlier is matched before the later. */
  lemma EarlierIsFirst(host: Host, hits: seq<string>, s: nat, t: nat) returns (p: nat, q: nat)
    requires s < t < |hits| && IsFirst(host, hits, s) && IsFirst(host, hits, t)
    ensures p < q < |Matches(host, hits, {})| && Matches(host, hits, {})[p] == hits[s] && Matches(host, hits, {})[q] == hits[t]
  {
    hide Matches, SeenAfter, IsFirst;
    p, q := |Matches(host, hits[..s], {})|, |Matches(host, hits[..t], {})|;
    MatchPlace(host, hits, s);
    MatchPlace(host, hits, t);
    assert hits[..t] == hits[..s + 1] + hits[s + 1..t];
    MatchesConcat(host, hits[..s + 1], hits[s + 1..t], {});
  }

  // ---------------------------------------------------------------- where a candidate ends up

  /** The file of a candidate name in a directory. */
  predicate IsListed(host: Host, d: string, name: string) {
    d != "" && host.listing(d).Some? && name in host.listing(d).value
  }

  function FileOf(host: Host, d: string, name: string): string
    requires IsListed(host, d, name)
  {
    host.joined(d, host.listing(d).value[name])
  }

  lemma {:induction false} HitsInConcat(host: Host, a: seq<string>, b: seq<string>, d: string)
    ensures HitsIn(host, a + b, d) == HitsIn(host, a, d) + HitsIn(host, b, d)
  {
    if a == [] {
      assert a + b == b;
    } else {
      assert (a + b)[1..] == a[1..] + b;
      HitsInConcat(host, a[1..], b, d);
    }
  }

  lemma OneCandidate(host: Host, c: string, d: string)
    ensures HitsIn(host, [c], d) == if IsListed(host, d, c) then [FileOf(host, d, c)] else []
  {
    assert [c][1..] == [];
    assert HitsIn(host, [], d) == [];
  }

  /** The hit of candidate k stands after the hits of the candidates before it. */
  lemma HitPlace(host: Host, cs: seq<string>, d: string, k: nat)
    requires k < |cs| && IsListed(host, d, cs[k])
    ensures var p := |HitsIn(host, cs[..k], d)|;
      p < |HitsIn(host, cs, d)| && HitsIn(host, cs, d)[p] == FileOf(host, d, cs[k])
      && |HitsIn(host, cs[..k + 1], d)| == p + 1 && HitsIn(host, cs, d)[..p] == HitsIn(host, cs[..k], d)
  {
    hide HitsIn;
    assert cs == cs[..k] + ([cs[k]] + cs[k + 1..]) && cs[..k + 1] == cs[..k] + [cs[k]];
    HitsInConcat(host, cs[..k], [cs[k]] + cs[k + 1..], d);
    HitsInConcat(host, [cs[k]], cs[k + 1..], d);
    HitsInConcat(host, cs[..k], [cs[k]], d);
    OneCandidate(host, cs[k], d);
  }

  lemma {:induction false} HitComesFrom(host: Host, cs: seq<string>, d: string, i: nat) returns (k: nat)
    requires i < |HitsIn(host, cs, d)|
    ensures k < |cs| && IsListed(host, d, cs[k]) && HitsIn(host, cs, d)[i] == FileOf(host, d, cs[k])
  {
    var first := HitsIn(host, [cs[0]], d);
    assert cs == [cs[0]] + cs[1..];
    HitsInConcat(host, [cs[0]], cs[1..], d);
    OneCandidate(host, cs[0], d);
    if i < |first| {
      k := 0;
    } else {
      k := HitComesFrom(host, cs[1..], d, i - |first|);
      k := k + 1;
    }
  }

  /** Files of different names are different programs. */
  predicate AreDistinct(host: Host, d: string, cs: seq<string>) {
    forall i, j | 0 <= i < |cs| && 0 <= j < |cs| && cs[i] != cs[j] && IsListed(host, d, cs[i]) && IsListed(host, d, cs[j]) ::
      host.realPath(FileOf(host, d, cs[i])) != host.realPath(FileOf(host, d, cs[j]))
  }

  lemma HitIsFirst(host: Host, cs: seq<string>, d: string, k: nat)
    requires k < |cs| && IsListed(host, d, cs[k]) && AreDistinct(host, d, cs) && Accepted(host, FileOf(host, d, cs[k]))
    requires forall i | 0 <= i < k :: cs[i] != cs[k]
    ensures var p := |HitsIn(host, cs[..k], d)|; p < |HitsIn(host, cs, d)| && IsFirst(host, HitsIn(host, cs, d), p)
  {
    hide HitsIn, Accepted, FileOf, IsListed;
    HitPlace(host, cs, d, k);
    var hits, p := HitsIn(host, cs, d), |HitsIn(host, cs[..k], d)|;
    forall j | 0 <= j < p ensures host.realPath(hits[j]) != host.realPath(hits[p]) {
      assert hits[j] == hits[..p][j];
      var i := HitComesFrom(host, cs[..k], d, j);
      assert cs[..k][i] == cs[i] && cs[i] != cs[k];
    }
  }

  /** Of two candidates the earlier one's file is matched first. */
  lemma CandidateOrder(host: Host, cs: seq<string>, d: string, k: nat, l: nat) returns (p: nat, q: nat)
    requires k < l < |cs| && IsListed(host, d, cs[k]) && IsListed(host, d, cs[l]) && AreDistinct(host, d, cs)
    requires Accepted(host, FileOf(host, d, cs[k])) && Accepted(host, FileOf(host, d, cs[l]))
    requires (forall i | 0 <= i < k :: cs[i] != cs[k]) && (forall i | 0 <= i < l :: cs[i] != cs[l])
    ensures var found := Matches(host, HitsIn(host, cs, d), {});
      p < q < |found| && found[p] == FileOf(host, d, cs[k]) && found[q] == FileOf(host, d, cs[l])
  {
    hide HitsIn, Accepted, FileOf, IsListed, Matches, IsFirst, AreDistinct;
    HitIsFirst(host, cs, d, k);
    HitIsFirst(host, cs, d, l);
    HitPlace(host, cs, d, k);
    HitPlace(host, cs, d, l);
    assert cs[..l] == cs[..k + 1] + cs[k + 1..l];
    HitsInConcat(host, cs[..k + 1], cs[k + 1..l], d);
    p, q := EarlierIsFirst(host, HitsIn(host, cs, d), |HitsIn(host, cs[..k], d)|, |HitsIn(host, cs[..l], d)|);
  }

  // ---------------------------------------------------------------- PATHEXT

  /** The parts of PATHEXT that are not blank, lower-cased. */
  predicate IsExtensionAt(host: Host, i: nat, e: string) {
    var parts := SplitOn(host.pathext, ";");
    i < |parts| && Strip(parts[i]) != "" && e == host.lower(Strip(parts[i]))
  }

  /** The names tried in a directory. */
  function Names(host: Host, command: string): seq<string> { Candidates(host, command) }

  lemma {:induction false} ExtensionsConcat(host: Host, a: seq<string>, b: seq<string>)
    ensures Extensions(host, a + b) == Extensions(host, a) + Extensions(host, b)
  {
    hide Strip;
    if a == [] {
      assert a + b == b;
    } else {
      assert (a + b)[1..] == a[1..] + b;
      ExtensionsConcat(host, a[1..], b);
    }
  }

  lemma {:induction false} WithExtensionsAt(base: string, es: seq<string>)
    ensures |WithExtensions(base, es)| == |es|
    ensures forall i | 0 <= i < |es| :: WithExtensions(base, es)[i] == base + es[i]
  {
    if es != [] { WithExtensionsAt(base, es[1..]); }
  }

  lemma OneExtension(host: Host, part: string)
    ensures Extensions(host, [part]) == if Strip(part) != "" then [host.lower(Strip(part))] else []
  {
    hide Strip;
    assert [part][1..] == [] && Extensions(host, []) == [];
  }

  /** Where a part of PATHEXT puts its file name among those tried. */
  lemma NamePlace(host: Host, command: string, i: nat, e: string)
    requires host.windows && IsExtensionAt(host, i, e)
    ensures var k := |Extensions(host, SplitOn(host.pathext, ";")[..i])|;
      k + 1 < |Names(host, command)| && Names(host, command)[k] == host.lower(command) + e
      && |Extensions(host, SplitOn(host.pathext, ";")[..i + 1])| == k + 1
  {
    hide SplitOn, Strip, Extensions;
    var parts := SplitOn(host.pathext, ";");
    assert parts == parts[..i] + ([parts[i]] + parts[i + 1..]) && parts[..i + 1] == parts[..i] + [parts[i]];
    ExtensionsConcat(host, parts[..i], [parts[i]] + parts[i + 1..]);
    ExtensionsConcat(host, [parts[i]], parts[i + 1..]);
    ExtensionsConcat(host, parts[..i], [parts[i]]);
    OneExtension(host, parts[i]);
    WithExtensionsAt(host.lower(command), Extensions(host, parts));
  }

  /** The bare name is tried last. */
  lemma BarePlace(host: Host, command: string)
    requires host.windows
    ensures Names(host, command) != [] && Names(host, command)[|Names(host, command)| - 1] == host.lower(command)
  {
    hide SplitOn, Extensions;
  }

  lemma {:induction false} ExtensionComesFrom(host: Host, parts: seq<string>, k: nat) returns (i: nat)
    requires k < |Extensions(host, parts)|
    ensures i < |parts| && Strip(parts[i]) != "" && Extensions(host, parts)[k] == host.lower(Strip(parts[i]))
    ensures |Extensions(host, parts[..i])| == k
  {
    hide Strip;
    if Strip(parts[0]) != "" {
      if k == 0 {
        i := 0;
        assert parts[..0] == [];
      } else {
        i := ExtensionComesFrom(host, parts[1..], k - 1);
        assert parts[..i + 1][0] == parts[0] && parts[..i + 1][1..] == parts[1..][..i];
        i := i + 1;
      }
    } else {
      i := ExtensionComesFrom(host, parts[1..], k);
      assert parts[..i + 1][0] == parts[0] && parts[..i + 1][1..] == parts[1..][..i];
      i := i + 1;
    }
  }

  /** Every name tried is the bare one or comes from a part of PATHEXT. */
  lemma NameComesFrom(host: Host, command: string, k: nat)
    requires host.windows && k < |Names(host, command)|
    ensures || (Names(host, command)[k] == host.lower(command) && k == |Names(host, command)| - 1)
            || (exists i: nat, e: string :: IsExtensionAt(host, i, e) && Names(host, command)[k] == host.lower(command) + e
                  && |Extensions(host, SplitOn(host.pathext, ";")[..i])| == k)
  {
    hide SplitOn, Extensions, Strip;
    var parts := SplitOn(host.pathext, ";");
    var es := Extensions(host, parts);
    WithExtensionsAt(host.lower(command), es);
    if k < |es| {
      var i := ExtensionComesFrom(host, parts, k);
      assert IsExtensionAt(host, i, host.lower(Strip(parts[i])));
    }
  }

  // ---------------------------------------------------------------- on Windows

  /** The command's file names in the directory: the bare one, and one for each extension. */
  ghost predicate IsCommandFile(host: Host, command: string, name: string) {
    || name == host.lower(command)
    || exists i: nat, e: string :: IsExtensionAt(host, i, e) && name == host.lower(command) + e
  }

  /** Different names of the command are different programs. */
  ghost predicate AreDistinctPrograms(host: Host, command: string, d: string) {
    forall x, y | IsCommandFile(host, command, x) && IsCommandFile(host, command, y) && x != y
        && IsListed(host, d, x) && IsListed(host, d, y) ::
      host.realPath(FileOf(host, d, x)) != host.realPath(FileOf(host, d, y))
  }

  lemma NamesAreCommandFiles(host: Host, command: string)
    requires host.windows
    ensures forall k | 0 <= k < |Names(host, command)| :: IsCommandFile(host, command, Names(host, command)[k])
  {
    hide Extensions, Candidates, IsExtensionAt;
    forall k | 0 <= k < |Names(host, command)| ensures IsCommandFile(host, command, Names(host, command)[k]) {
      NameComesFrom(host, command, k);
    }
  }

  lemma DistinctNames(host: Host, command: string, d: string)
    requires host.windows && AreDistinctPrograms(host, command, d)
    ensures AreDistinct(host, d, Names(host, command))
  {
    hide Names, IsCommandFile, FileOf, IsListed;
    NamesAreCommandFiles(host, command);
  }

  /** The extension is not given earlier in PATHEXT. */
  predicate IsFirstExtension(host: Host, i: nat, e: string) {
    IsExtensionAt(host, i, e) && forall j | 0 <= j < i :: !IsExtensionAt(host, j, e)
  }

  lemma FirstExtensionIsFirstName(host: Host, command: string, i: nat, e: string)
    requires host.windows && IsFirstExtension(host, i, e) && e != ""
    ensures var k := |Extensions(host, SplitOn(host.pathext, ";")[..i])|;
      k < |Names(host, command)| && forall l | 0 <= l < k :: Names(host, command)[l] != Names(host, command)[k]
  {
    hide Extensions, Names, SplitOn, Strip;
    NamePlace(host, command, i, e);
    var parts := SplitOn(host.pathext, ";");
    var k := |Extensions(host, parts[..i])|;
    forall l | 0 <= l < k ensures Names(host, command)[l] != Names(host, command)[k] {
      NameComesFrom(host, command, l);
      var j: nat, f: string :| IsExtensionAt(host, j, f) && Names(host, command)[l] == host.lower(command) + f
        && |Extensions(host, parts[..j])| == l;
      assert j < i by {
        if j >= i { assert parts[..j] == parts[..i] + parts[i..j]; ExtensionsConcat(host, parts[..i], parts[i..j]); }
      }
      SameTail(host.lower(command), e, f);
    }
  }

  lemma SameTail(base: string, e: string, f: string)
    ensures base + e == base + f <==> e == f
  {
    assert (base + e)[|base|..] == e && (base + f)[|base|..] == f;
  }

  /** One directory's matches. */
  lemma ResolveOne(host: Host, command: string, d: string)
    ensures Resolve(host, command, [d]) == Matches(host, HitsIn(host, Names(host, command), d), {})
  {
    hide HitsIn, Matches, Candidates;
    assert [d][1..] == [] && Hits(host, Candidates(host, command), []) == [];
    assert HitsIn(host, Candidates(host, command), d) + [] == HitsIn(host, Candidates(host, command), d);
  }

  /** The file with an extension is matched before the bare one: `npm.cmd` before `npm`. */
  lemma ExtensionBeforeBare(host: Host, command: string, d: string, i: nat, e: string) returns (p: nat, q: nat)
    requires host.windows && IsFirstExtension(host, i, e) && e != "" && AreDistinctPrograms(host, command, d)
    requires forall j: nat :: !IsExtensionAt(host, j, "")
    requires IsListed(host, d, host.lower(command)) && IsListed(host, d, host.lower(command) + e)
    ensures var found := Resolve(host, command, [d]);
      p < q < |found| && found[p] == FileOf(host, d, host.lower(command) + e) && found[q] == FileOf(host, d, host.lower(command))
  {
    hide Names, Extensions, SplitOn, FileOf, IsListed, Matches, HitsIn, AreDistinct, AreDistinctPrograms, IsExtensionAt;
    var names := Names(host, command);
    NamePlace(host, command, i, e);
    BarePlace(host, command);
    DistinctNames(host, command, d);
    FirstExtensionIsFirstName(host, command, i, e);
    ExtensionInRange(host, i, e);
    var k, l := |Extensions(host, SplitOn(host.pathext, ";")[..i])|, |names| - 1;
    forall j | 0 <= j < l ensures names[j] != names[l] { BareOnlyLast(host, command, j); }
    ResolveOne(host, command, d);
    p, q := CandidateOrder(host, names, d, k, l);
  }

  lemma BareOnlyLast(host: Host, command: string, k: nat)
    requires host.windows && k < |Names(host, command)| - 1 && forall j: nat :: !IsExtensionAt(host, j, "")
    ensures Names(host, command)[k] != host.lower(command)
  {
    hide Names, Extensions, SplitOn, IsExtensionAt;
    NameComesFrom(host, command, k);
    var i: nat, e: string :| IsExtensionAt(host, i, e) && Names(host, command)[k] == host.lower(command) + e;
    assert e != "";
    SameTail(host.lower(command), e, "");
    assert host.lower(command) + "" == host.lower(command);
  }

  /** Of two extensions the one given first in PATHEXT is matched first. */
  lemma ExtensionsInOrder(host: Host, command: string, d: string, i: nat, e: string, j: nat, f: string) returns (p: nat, q: nat)
    requires host.windows && IsFirstExtension(host, i, e) && IsFirstExtension(host, j, f) && i < j && e != "" && f != ""
    requires AreDistinctPrograms(host, command, d)
    requires IsListed(host, d, host.lower(command) + e) && IsListed(host, d, host.lower(command) + f)
    ensures var found := Resolve(host, command, [d]);
      p < q < |found| && found[p] == FileOf(host, d, host.lower(command) + e) && found[q] == FileOf(host, d, host.lower(command) + f)
  {
    hide Names, Extensions, SplitOn, FileOf, IsListed, Matches, HitsIn, AreDistinct, AreDistinctPrograms, IsExtensionAt;
    var parts := SplitOn(host.pathext, ";");
    NamePlace(host, command, i, e);
    NamePlace(host, command, j, f);
    DistinctNames(host, command, d);
    FirstExtensionIsFirstName(host, command, i, e);
    FirstExtensionIsFirstName(host, command, j, f);
    assert i < j < |parts| by { ExtensionInRange(host, j, f); }
    assert parts[..j] == parts[..i + 1] + parts[i + 1..j];
    ExtensionsConcat(host, parts[..i + 1], parts[i + 1..j]);
    ResolveOne(host, command, d);
    p, q := CandidateOrder(host, Names(host, command), d, |Extensions(host, parts[..i])|, |Extensions(host, parts[..j])|);
  }

  lemma ExtensionInRange(host: Host, i: nat, e: string)
    requires IsExtensionAt(host, i, e)
    ensures i < |SplitOn(host.pathext, ";")|
  {
  }

  /** The path of one of the command's files in the directory. */
  ghost predicate IsFileOf(host: Host, command: string, d: string, full: string) {
    exists name :: IsCommandFile(host, command, name) && IsListed(host, d, name) && full == FileOf(host, d, name)
  }

  /** Every file of the command in the directory is found, under its own path or that of the same program,
      and nothing else is. */
  lemma WindowsFindsExactly(host: Host, command: string, d: string)
    requires host.windows
    ensures var found := Resolve(host, command, [d]);
      && (forall i | 0 <= i < |found| :: IsFileOf(host, command, d, found[i]))
      && (forall name | IsCommandFile(host, command, name) && IsListed(host, d, name) ::
            exists i | 0 <= i < |found| :: host.realPath(found[i]) == host.realPath(FileOf(host, d, name)))
  {
    hide Names, FileOf, IsListed, Matches, HitsIn, IsCommandFile;
    var names := Names(host, command);
    var hits := HitsIn(host, names, d);
    var found := Resolve(host, command, [d]);
    ResolveOne(host, command, d);
    forall i | 0 <= i < |found|
      ensures IsFileOf(host, command, d, found[i])
    {
      MatchOrigin(host, hits, {}, i);
      var j :| 0 <= j < |hits| && hits[j] == found[i];
      var k := HitComesFrom(host, names, d, j);
      NamesAreCommandFiles(host, command);
      assert IsCommandFile(host, command, names[k]);
    }
    forall name | IsCommandFile(host, command, name) && IsListed(host, d, name)
      ensures exists i | 0 <= i < |found| :: host.realPath(found[i]) == host.realPath(FileOf(host, d, name))
    {
      var k := NameIsTried(host, command, name);
      HitPlace(host, names, d, k);
      MatchesComplete(host, hits, {}, |HitsIn(host, names[..k], d)|);
    }
  }

  lemma NameIsTried(host: Host, command: string, name: string) returns (k: nat)
    requires host.windows && IsCommandFile(host, command, name)
    ensures k < |Names(host, command)| && Names(host, command)[k] == name
  {
    hide Names, Extensions, IsExtensionAt;
    if name == host.lower(command) {
      BarePlace(host, command);
      k := |Names(host, command)| - 1;
    } else {
      var i: nat, e: string :| IsExtensionAt(host, i, e) && name == host.lower(command) + e;
      NamePlace(host, command, i, e);
      ExtensionInRange(host, i, e);
      k := |Extensions(host, SplitOn(host.pathext, ";")[..i])|;
    }
  }

  // ---------------------------------------------------------------- elsewhere

  /** Elsewhere a directory offers the file of exactly the command's name, if it can be run. */
  lemma PosixFindsExactly(host: Host, command: string, d: string)
    requires !host.windows
    ensures Resolve(host, command, [d])
         == if IsListed(host, d, command) && host.executable(FileOf(host, d, command)) then [FileOf(host, d, command)] else []
  {
    hide HitsIn, FileOf, IsListed;
    ResolveOne(host, command, d);
    OneCandidate(host, command, d);
    var f := if IsListed(host, d, command) then FileOf(host, d, command) else "";
    assert Matches(host, [], {}) == [] && Matches(host, [], {} + {host.realPath(f)}) == [];
    assert [f][1..] == [];
  }

  /** The directories of a PATH are what stands between its separators. */
  lemma DirectoriesOfPath(host: Host, directories: seq<string>)
    requires directories != [] && forall d | d in directories :: ';' !in d && ':' !in d
    ensures PathEntries(host, Join(if host.windows then ";" else ":", directories)) == directories
  {
    hide SplitOn, Join;
    SplitOnJoin(directories, if host.windows then ';' else ':');
  }
}
