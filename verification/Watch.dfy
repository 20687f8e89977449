/** The watcher (devrepro/watch.py): poll, compare, wait for quiet, report.  A fingerprint is a map
    from path to digest; a run is what each poll saw and when. */
module Watch {
  import opened Strings
  import opened Ordering

  type Fingerprint = map<string, string>

  datatype Change = Change(added: seq<string>, removed: seq<string>, modified: seq<string>)

  /** What one poll sees, and the clock if it reads it. */
  datatype Poll = Poll(seen: Fingerprint, now: real)

  /** A call of `on_change`, and the number of the poll that made it. */
  datatype Report = Report(poll: nat, change: Change)

  datatype State = State(
    baseline: Fingerprint,
    pending: Option<Change>,
    settledAt: real,
    reports: seq<Report>)

  predicate Moved(c: Change) {
    c.added != [] || c.removed != [] || c.modified != []
  }

  function Diff(before: Fingerprint, after: Fingerprint): Change {
    Change(
      Sorted(after.Keys - before.Keys),
      Sorted(before.Keys - after.Keys),
      Sorted(set p | p in before.Keys * after.Keys && before[p] != after[p]))
  }

  function Elements(q: seq<string>): set<string> { set p | p in q }

  function Merge(first: Change, second: Change): Change {
    Change(
      Sorted(Elements(first.added) + Elements(second.added)),
      Sorted(Elements(first.removed) + Elements(second.removed)),
      Sorted(Elements(first.modified) + Elements(second.modified)))
  }

  /** One turn of the loop: poll number n. */
  function Step(quiet: real, s: State, n: nat, poll: Poll): State {
    var change := Diff(s.baseline, poll.seen);
    if Moved(change) then
      State(poll.seen, Some(if s.pending.None? then change else Merge(s.pending.value, change)),
        poll.now + quiet, s.reports)
    else if s.pending.Some? && poll.now >= s.settledAt then
      s.(pending := None, reports := s.reports + [Report(n, s.pending.value)])
    else s
  }

  /** The loop after its first k polls. */
  function Run(quiet: real, start: Fingerprint, polls: seq<Poll>, k: nat): State
    requires k <= |polls|
  {
    if k == 0 then State(start, None, 0.0, [])
    else Step(quiet, Run(quiet, start, polls, k - 1), k, polls[k - 1])
  }

  method WatchLoop(start: Fingerprint, polls: seq<Poll>, quiet: real) returns (reports: seq<Report>, fired: nat)
    ensures reports == Run(quiet, start, polls, |polls|).reports
    ensures fired == |reports|
  {
    hide Diff, Merge, Moved;
    var baseline := start;
    var pending: Option<Change> := None;
    var settledAt := 0.0;
    reports, fired := [], 0;
    var n := 0;
    while n < |polls|
      invariant 0 <= n <= |polls| && fired == |reports|
      invariant State(baseline, pending, settledAt, reports) == Run(quiet, start, polls, n)
    {
      n := n + 1;
      var current := polls[n - 1].seen;
      var change := Diff(baseline, current);
      if Moved(change) {
        pending := Some(if pending.None? then change else Merge(pending.value, change));
        settledAt := polls[n - 1].now + quiet;
        baseline := current;
      } else if pending.Some? && polls[n - 1].now >= settledAt {
        reports := reports + [Report(n, pending.value)];
        fired := fired + 1;
        pending := None;
      }
    }
  }

  // ---------------------------------------------------------------- one comparison

  /** Every difference between two fingerprints is named by the change. */
  ghost predicate Covers(r: Fingerprint, b: Fingerprint, c: Change) {
    && (forall p | p in b && p !in r :: p in c.added)
    && (forall p | p in r && p !in b :: p in c.removed)
    && (forall p | p in r && p in b && r[p] != b[p] ::
          p in c.modified || (p in c.added && p in c.removed))
  }

  lemma DiffCovers(r: Fingerprint, b: Fingerprint)
    ensures Covers(r, b, Diff(r, b))
    ensures forall p :: p in Diff(r, b).added <==> p in b && p !in r
    ensures forall p :: p in Diff(r, b).removed <==> p in r && p !in b
    ensures forall p :: p in Diff(r, b).modified <==> p in r && p in b && r[p] != b[p]
  {
    hide Sorted;
  }

  lemma MergeElements(c: Change, d: Change)
    ensures forall p :: p in Merge(c, d).added <==> p in c.added || p in d.added
    ensures forall p :: p in Merge(c, d).removed <==> p in c.removed || p in d.removed
    ensures forall p :: p in Merge(c, d).modified <==> p in c.modified || p in d.modified
  {
    hide Sorted;
  }

  lemma NoElements(q: seq<string>)
    ensures q == [] || exists p :: p in q
  {
    if q != [] { assert q[0] in q; }
  }

  /** A comparison comes out empty exactly when nothing differs. */
  lemma MovedExactly(r: Fingerprint, b: Fingerprint)
    ensures Moved(Diff(r, b)) <==> r != b
  {
    hide Diff;
    DiffCovers(r, b);
    var d := Diff(r, b);
    if r != b {
      if r.Keys == b.Keys {
        var p :| p in r && r[p] != b[p];
        assert p in d.modified;
      } else {
        var p :| (p in r && p !in b) || (p in b && p !in r);
        assert p in d.removed || p in d.added;
      }
    } else {
      NoElements(d.added);
      NoElements(d.removed);
      NoElements(d.modified);
    }
  }

  /** Merging the changes of two comparisons covers the comparison across both. */
  lemma MergeCovers(r: Fingerprint, b: Fingerprint, next: Fingerprint, c: Change)
    requires Covers(r, b, c)
    ensures Covers(r, next, Merge(c, Diff(b, next)))
  {
    hide Diff, Merge;
    DiffCovers(b, next);
    MergeElements(c, Diff(b, next));
  }

  // ---------------------------------------------------------------- whole runs

  /** What the watcher saw at poll n; poll 0 is the initial fingerprint. */
  function Seen(start: Fingerprint, polls: seq<Poll>, n: nat): Fingerprint
    requires n <= |polls|
  {
    if n == 0 then start else polls[n - 1].seen
  }

  /** Something changed between the poll before n and poll n. */
  predicate Changing(start: Fingerprint, polls: seq<Poll>, n: nat)
    requires n <= |polls|
  {
    n > 0 && Seen(start, polls, n) != Seen(start, polls, n - 1)
  }

  /** Every path a change names really moved that way between two consecutive polls of the window. */
  ghost predicate Real(start: Fingerprint, polls: seq<Poll>, from: nat, to: nat, c: Change)
    requires from <= to <= |polls|
  {
    && (forall p | p in c.added :: exists q | from < q <= to ::
          p !in Seen(start, polls, q - 1) && p in Seen(start, polls, q))
    && (forall p | p in c.removed :: exists q | from < q <= to ::
          p in Seen(start, polls, q - 1) && p !in Seen(start, polls, q))
    && (forall p | p in c.modified :: exists q | from < q <= to ::
          p in Seen(start, polls, q - 1) && p in Seen(start, polls, q)
          && Seen(start, polls, q - 1)[p] != Seen(start, polls, q)[p])
  }

  /** The poll of the report before the given one, 0 for the first. */
  function Before(reports: seq<Report>, i: nat): nat
    requires i <= |reports|
  {
    if i == 0 then 0 else reports[i - 1].poll
  }

  /** A report tells all that happened since the one before it, and nothing that did not. */
  ghost predicate Tells(start: Fingerprint, polls: seq<Poll>, from: nat, to: nat, c: Change) {
    && from < to <= |polls|
    && Covers(Seen(start, polls, from), Seen(start, polls, to), c)
    && Real(start, polls, from, to, c)
  }

  ghost predicate Truthful(start: Fingerprint, polls: seq<Poll>, k: nat, s: State)
    requires k <= |polls|
  {
    var last := Before(s.reports, |s.reports|);
    && s.baseline == Seen(start, polls, k)
    && last <= k
    && (s.pending.None? ==> Seen(start, polls, last) == s.baseline)
    && (s.pending.Some? ==> Tells(start, polls, last, k, s.pending.value))
    && forall i | 0 <= i < |s.reports| ::
         Tells(start, polls, Before(s.reports, i), s.reports[i].poll, s.reports[i].change)
  }

  lemma RealLonger(start: Fingerprint, polls: seq<Poll>, from: nat, to: nat, c: Change)
    requires from <= to < |polls| && Real(start, polls, from, to, c)
    ensures Real(start, polls, from, to + 1, c)
  {
    hide Seen;
  }

  lemma DiffReal(start: Fingerprint, polls: seq<Poll>, from: nat, k: nat)
    requires from < k <= |polls|
    ensures Real(start, polls, from, k, Diff(Seen(start, polls, k - 1), Seen(start, polls, k)))
  {
    hide Seen, Diff;
    DiffCovers(Seen(start, polls, k - 1), Seen(start, polls, k));
  }

  lemma MergeReal(start: Fingerprint, polls: seq<Poll>, from: nat, to: nat, c: Change, d: Change)
    requires from <= to <= |polls| && Real(start, polls, from, to, c) && Real(start, polls, from, to, d)
    ensures Real(start, polls, from, to, Merge(c, d))
  {
    hide Seen, Merge;
    MergeElements(c, d);
  }

  lemma TellsFirst(start: Fingerprint, polls: seq<Poll>, from: nat, k: nat)
    requires from < k <= |polls| && Seen(start, polls, from) == Seen(start, polls, k - 1)
    ensures Tells(start, polls, from, k, Diff(Seen(start, polls, k - 1), Seen(start, polls, k)))
  {
    hide Seen, Diff, Covers, Real;
    DiffCovers(Seen(start, polls, k - 1), Seen(start, polls, k));
    DiffReal(start, polls, from, k);
  }

  lemma TellsNext(start: Fingerprint, polls: seq<Poll>, from: nat, k: nat, c: Change)
    requires 0 < k <= |polls| && Tells(start, polls, from, k - 1, c)
    ensures Tells(start, polls, from, k, Merge(c, Diff(Seen(start, polls, k - 1), Seen(start, polls, k))))
  {
    hide Seen, Diff, Merge, Covers, Real;
    MergeCovers(Seen(start, polls, from), Seen(start, polls, k - 1), Seen(start, polls, k), c);
    RealLonger(start, polls, from, k - 1, c);
    DiffReal(start, polls, from, k);
    MergeReal(start, polls, from, k, c, Diff(Seen(start, polls, k - 1), Seen(start, polls, k)));
  }

  lemma TellsStill(start: Fingerprint, polls: seq<Poll>, from: nat, k: nat, c: Change)
    requires 0 < k <= |polls| && Tells(start, polls, from, k - 1, c)
    requires Seen(start, polls, k - 1) == Seen(start, polls, k)
    ensures Tells(start, polls, from, k, c)
  {
    hide Seen, Covers, Real;
    RealLonger(start, polls, from, k - 1, c);
  }

  lemma BeforeAppended(reports: seq<Report>, r: Report, i: nat)
    requires i <= |reports|
    ensures Before(reports + [r], i) == Before(reports, i)
  {
  }

  /** A turn in terms of what differs rather than of the comparison's outcome. */
  lemma StepForm(quiet: real, s: State, n: nat, poll: Poll)
    ensures Step(quiet, s, n, poll) ==
      if s.baseline != poll.seen then
        State(poll.seen,
          Some(if s.pending.None? then Diff(s.baseline, poll.seen)
               else Merge(s.pending.value, Diff(s.baseline, poll.seen))),
          poll.now + quiet, s.reports)
      else if s.pending.Some? && poll.now >= s.settledAt then
        s.(pending := None, reports := s.reports + [Report(n, s.pending.value)])
      else s
  {
    hide Diff, Merge, Moved;
    MovedExactly(s.baseline, poll.seen);
  }

  /** One turn keeps the books. */
  lemma StepTruthful(quiet: real, start: Fingerprint, polls: seq<Poll>, k: nat, s: State)
    requires 0 < k <= |polls| && Truthful(start, polls, k - 1, s)
    ensures Truthful(start, polls, k, Step(quiet, s, k, polls[k - 1]))
  {
    hide Diff, Merge, Tells, Step, Seen;
    var last := Before(s.reports, |s.reports|);
    var now := Seen(start, polls, k);
    SeenPoll(start, polls, k);
    StepForm(quiet, s, k, polls[k - 1]);
    if s.baseline != now {
      if s.pending.None? {
        TellsFirst(start, polls, last, k);
      } else {
        TellsNext(start, polls, last, k, s.pending.value);
      }
    } else if s.pending.Some? {
      TellsStill(start, polls, last, k, s.pending.value);
      if polls[k - 1].now >= s.settledAt {
        ReportTruthful(start, polls, k, s);
      }
    }
  }

  lemma SeenPoll(start: Fingerprint, polls: seq<Poll>, k: nat)
    requires 0 < k <= |polls|
    ensures Seen(start, polls, k) == polls[k - 1].seen
  {
  }

  lemma ReportTruthful(start: Fingerprint, polls: seq<Poll>, k: nat, s: State)
    requires 0 < k <= |polls| && Truthful(start, polls, k - 1, s) && s.pending.Some?
    requires Seen(start, polls, k) == s.baseline
    requires Tells(start, polls, Before(s.reports, |s.reports|), k, s.pending.value)
    ensures Truthful(start, polls, k, s.(pending := None, reports := s.reports + [Report(k, s.pending.value)]))
  {
    hide Tells, Seen;
    var r := Report(k, s.pending.value);
    forall i | 0 <= i <= |s.reports| ensures Before(s.reports + [r], i) == Before(s.reports, i) {
      BeforeAppended(s.reports, r, i);
    }
  }

  /** Nothing is lost and nothing is invented, at every point of every run: each report covers the
      difference from the previous report's fingerprint to its own, what is still pending covers the
      difference since the last report, and with nothing pending there is none. */
  lemma {:induction false} RunTruthful(quiet: real, start: Fingerprint, polls: seq<Poll>, k: nat)
    requires k <= |polls|
    ensures Truthful(start, polls, k, Run(quiet, start, polls, k))
  {
    hide Truthful, Step;
    if k == 0 {
      StartTruthful(start, polls);
    } else {
      RunTruthful(quiet, start, polls, k - 1);
      StepTruthful(quiet, start, polls, k, Run(quiet, start, polls, k - 1));
    }
  }

  lemma StartTruthful(start: Fingerprint, polls: seq<Poll>)
    ensures Truthful(start, polls, 0, State(start, None, 0.0, []))
  {
  }

  // ---------------------------------------------------------------- debouncing

  /** The clock reading at poll n. */
  function Clock(polls: seq<Poll>, n: nat): real
    requires 0 < n <= |polls|
  {
    polls[n - 1].now
  }

  /** Poll q changed something and nothing changed after it up to poll n. */
  predicate LastChange(start: Fingerprint, polls: seq<Poll>, q: nat, n: nat) {
    && 0 < q <= n <= |polls| && Changing(start, polls, q)
    && forall j | q < j <= n :: !Changing(start, polls, j)
  }

  /** A report waited out the quiet period since the last change, which came after the report before. */
  ghost predicate Settled(quiet: real, start: Fingerprint, polls: seq<Poll>, from: nat, n: nat) {
    exists q: nat | from < q < n ::
      LastChange(start, polls, q, n) && Clock(polls, n) >= Clock(polls, q) + quiet
  }

  /** A change is pending since poll q at the latest. */
  predicate PendingSince(quiet: real, start: Fingerprint, polls: seq<Poll>, q: nat, k: nat, s: State) {
    && Before(s.reports, |s.reports|) < q
    && LastChange(start, polls, q, k) && s.settledAt == Clock(polls, q) + quiet
  }

  ghost predicate Debounced(quiet: real, start: Fingerprint, polls: seq<Poll>, k: nat, s: State)
    requires k <= |polls|
  {
    && s.baseline == Seen(start, polls, k)
    && Before(s.reports, |s.reports|) <= k
    && 2 * |s.reports| + (if s.pending.Some? then 1 else 0) <= k
    && (s.pending.Some? ==> exists q: nat :: PendingSince(quiet, start, polls, q, k, s))
    && forall i | 0 <= i < |s.reports| ::
         Settled(quiet, start, polls, Before(s.reports, i), s.reports[i].poll)
  }

  lemma LastChangeStill(start: Fingerprint, polls: seq<Poll>, q: nat, k: nat)
    requires 0 < k <= |polls| && LastChange(start, polls, q, k - 1) && !Changing(start, polls, k)
    ensures LastChange(start, polls, q, k) && q < k
  {
    hide Changing;
  }

  lemma StepDebounced(quiet: real, start: Fingerprint, polls: seq<Poll>, k: nat, s: State)
    requires 0 < k <= |polls| && Debounced(quiet, start, polls, k - 1, s)
    ensures Debounced(quiet, start, polls, k, Step(quiet, s, k, polls[k - 1]))
  {
    hide Diff, Merge, Step, Settled, LastChange, Seen;
    var t := Step(quiet, s, k, polls[k - 1]);
    SeenPoll(start, polls, k);
    StepForm(quiet, s, k, polls[k - 1]);
    if s.baseline != polls[k - 1].seen {
      ChangeIsLast(start, polls, k);
      assert PendingSince(quiet, start, polls, k, k, t);
    } else if s.pending.Some? {
      var q: nat :| PendingSince(quiet, start, polls, q, k - 1, s);
      LastChangeStill(start, polls, q, k);
      if polls[k - 1].now >= s.settledAt {
        SettledBy(quiet, start, polls, Before(s.reports, |s.reports|), q, k);
        ReportDebounced(quiet, start, polls, k, s);
      } else {
        assert PendingSince(quiet, start, polls, q, k, t);
      }
    }
  }

  lemma ReportDebounced(quiet: real, start: Fingerprint, polls: seq<Poll>, k: nat, s: State)
    requires 0 < k <= |polls| && Debounced(quiet, start, polls, k - 1, s) && s.pending.Some?
    requires Seen(start, polls, k) == s.baseline
    requires Settled(quiet, start, polls, Before(s.reports, |s.reports|), k)
    ensures Debounced(quiet, start, polls, k,
      s.(pending := None, reports := s.reports + [Report(k, s.pending.value)]))
  {
    hide Settled, Seen, PendingSince;
    var r := Report(k, s.pending.value);
    forall i | 0 <= i <= |s.reports| ensures Before(s.reports + [r], i) == Before(s.reports, i) {
      BeforeAppended(s.reports, r, i);
    }
  }

  lemma ChangeIsLast(start: Fingerprint, polls: seq<Poll>, k: nat)
    requires 0 < k <= |polls| && Changing(start, polls, k)
    ensures LastChange(start, polls, k, k)
  {
  }

  lemma SettledBy(quiet: real, start: Fingerprint, polls: seq<Poll>, from: nat, q: nat, n: nat)
    requires from < q && q < n && LastChange(start, polls, q, n)
    requires Clock(polls, n) >= Clock(polls, q) + quiet
    ensures Settled(quiet, start, polls, from, n)
  {
  }

  /** Over every run, each report comes at least the quiet period after the last change, a changing poll
      lies between any two reports, and at most half of the polls report. */
  lemma {:induction false} RunDebounced(quiet: real, start: Fingerprint, polls: seq<Poll>, k: nat)
    requires k <= |polls|
    ensures Debounced(quiet, start, polls, k, Run(quiet, start, polls, k))
  {
    hide Debounced, Step;
    if k == 0 {
      StartDebounced(quiet, start, polls);
    } else {
      RunDebounced(quiet, start, polls, k - 1);
      StepDebounced(quiet, start, polls, k, Run(quiet, start, polls, k - 1));
    }
  }

  lemma StartDebounced(quiet: real, start: Fingerprint, polls: seq<Poll>)
    ensures Debounced(quiet, start, polls, 0, State(start, None, 0.0, []))
  {
  }

  /** What a turn does when nothing has changed. */
  lemma QuietStep(quiet: real, start: Fingerprint, polls: seq<Poll>, n: nat)
    requires 0 < n <= |polls| && !Changing(start, polls, n)
    ensures var s := Run(quiet, start, polls, n - 1);
      Run(quiet, start, polls, n) ==
        if s.pending.Some? && Clock(polls, n) >= s.settledAt then
          s.(pending := None, reports := s.reports + [Report(n, s.pending.value)])
        else s
  {
    hide Diff, Merge, Moved;
    RunBaseline(quiet, start, polls, n - 1);
    MovedExactly(Seen(start, polls, n - 1), polls[n - 1].seen);
  }

  lemma RunBaseline(quiet: real, start: Fingerprint, polls: seq<Poll>, k: nat)
    requires k <= |polls|
    ensures Run(quiet, start, polls, k).baseline == Seen(start, polls, k)
  {
    hide Run, Settled, PendingSince;
    RunDebounced(quiet, start, polls, k);
  }

  /** A pending change followed only by quiet polls is reported at the first of them whose clock has
      reached the settling time, and not before. */
  lemma {:induction false} PendingIsReported(quiet: real, start: Fingerprint, polls: seq<Poll>, k: nat, n: nat)
    requires k < n <= |polls|
    requires Run(quiet, start, polls, k).pending.Some?
    requires forall j | k < j <= n :: !Changing(start, polls, j)
    requires forall j | k < j < n :: Clock(polls, j) < Run(quiet, start, polls, k).settledAt
    requires Clock(polls, n) >= Run(quiet, start, polls, k).settledAt
    ensures Run(quiet, start, polls, n).pending.None?
    ensures Run(quiet, start, polls, n).reports
         == Run(quiet, start, polls, k).reports + [Report(n, Run(quiet, start, polls, k).pending.value)]
  {
    hide Run, Changing, Clock;
    StaysPending(quiet, start, polls, k, n - 1);
    QuietStep(quiet, start, polls, n);
  }

  lemma {:induction false} StaysPending(quiet: real, start: Fingerprint, polls: seq<Poll>, k: nat, n: nat)
    requires k <= n <= |polls|
    requires Run(quiet, start, polls, k).pending.Some?
    requires forall j | k < j <= n :: !Changing(start, polls, j)
    requires forall j | k < j <= n :: Clock(polls, j) < Run(quiet, start, polls, k).settledAt
    ensures Run(quiet, start, polls, n) == Run(quiet, start, polls, k)
    decreases n
  {
    hide Run, Changing, Clock;
    if n > k {
      StaysPending(quiet, start, polls, k, n - 1);
      QuietStep(quiet, start, polls, n);
    }
  }

  // ---------------------------------------------------------------- what a change looks like

  /** Each list of a change names every path once, in order. */
  predicate IsInOrder(c: Change) {
    Increasing(c.added) && Increasing(c.removed) && Increasing(c.modified)
  }

  /** Every reported change lists its paths in order. */
  lemma {:induction false} ReportsAreInOrder(quiet: real, start: Fingerprint, polls: seq<Poll>, k: nat)
    requires k <= |polls|
    ensures var s := Run(quiet, start, polls, k);
      && (s.pending.Some? ==> IsInOrder(s.pending.value))
      && forall i | 0 <= i < |s.reports| :: IsInOrder(s.reports[i].change)
  {
    hide Sorted, Increasing, Moved;
    if k > 0 { ReportsAreInOrder(quiet, start, polls, k - 1); }
  }
}
