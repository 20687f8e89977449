/** The MCP server's report cache (devrepro/mcp/protocol.py): one report, reused until it is too old.
    The scanner is asked about a root; None is the error it raises. */
module ReportCache {
  import opened Strings

  /** One call: the clock, the root asked about, the refresh flag, and what the scanner would say of any
      root at that moment. */
  datatype Call<!R> = Call(now: real, root: string, refresh: bool, scanner: string -> Option<R>) {
    /** The scan the call causes if it causes one. */
    function Scan(): Option<R> { scanner(root) }
  }

  datatype State<R> = State(report: Option<R>, takenAt: Option<real>, scans: nat)

  predicate IsFreshEnough<R>(s: State<R>, cacheSeconds: real, now: real) {
    s.report.Some? && s.takenAt.Some? && now - s.takenAt.value < cacheSeconds
  }

  /** Whether the call runs the scanner. */
  predicate Scans<R>(s: State<R>, cacheSeconds: real, call: Call<R>) {
    !IsFreshEnough(s, cacheSeconds, call.now) || call.refresh
  }

  function After<R>(s: State<R>, cacheSeconds: real, call: Call<R>): State<R> {
    if Scans(s, cacheSeconds, call) && call.Scan().Some? then State(call.Scan(), Some(call.now), s.scans + 1) else s
  }

  /** The report and whether it is fresh; None when the scanner's error escapes. */
  function Answer<R>(s: State<R>, cacheSeconds: real, call: Call<R>): Option<(R, bool)> {
    if !Scans(s, cacheSeconds, call) then Some((s.report.value, false))
    else match call.Scan() case None => None case Some(report) => Some((report, true))
  }

  class Cache<R> {
    var report: Option<R>
    var takenAt: Option<real>
    var scans: nat
    const cacheSeconds: real

    constructor (cacheSeconds: real)
      ensures this.cacheSeconds == cacheSeconds
      ensures Current() == State(None, None, 0)
    {
      this.cacheSeconds := cacheSeconds;
      report, takenAt, scans := None, None, 0;
    }

    function Current(): State<R>
      reads this
    {
      State(report, takenAt, scans)
    }

    method Get(call: Call<R>) returns (answer: Option<(R, bool)>)
      modifies this
      ensures Current() == After(old(Current()), cacheSeconds, call)
      ensures answer == Answer(old(Current()), cacheSeconds, call)
    {
      var freshEnough := report.Some? && takenAt.Some? && call.now - takenAt.value < cacheSeconds;
      if freshEnough && !call.refresh {
        return Some((report.value, false));
      }
      var scanned := call.scanner(call.root);
      if scanned.None? {
        return None;
      }
      report := scanned;
      takenAt := Some(call.now);
      scans := scans + 1;
      return Some((report.value, true));
    }
  }

  // ---------------------------------------------------------------- whole runs

  /** A new cache after the first k calls. */
  function Run<R>(calls: seq<Call<R>>, cacheSeconds: real, k: nat): State<R>
    requires k <= |calls|
  {
    if k == 0 then State(None, None, 0) else After(Run(calls, cacheSeconds, k - 1), cacheSeconds, calls[k - 1])
  }

  function AnswerAt<R>(calls: seq<Call<R>>, cacheSeconds: real, k: nat): Option<(R, bool)>
    requires k < |calls|
  {
    Answer(Run(calls, cacheSeconds, k), cacheSeconds, calls[k])
  }

  /** Call j ran the scanner and got a report. */
  predicate Scanned<R>(calls: seq<Call<R>>, cacheSeconds: real, j: nat)
    requires j < |calls|
  {
    Scans(Run(calls, cacheSeconds, j), cacheSeconds, calls[j]) && calls[j].Scan().Some?
  }

  /** Call j is the last before k that scanned. */
  predicate LastScan<R>(calls: seq<Call<R>>, cacheSeconds: real, j: nat, k: nat)
    requires j < k <= |calls|
  {
    Scanned(calls, cacheSeconds, j) && forall i | j < i < k :: !Scanned(calls, cacheSeconds, i)
  }

  /** The state holds the report and the time of the last scan, or nothing when there was none. */
  lemma {:induction false} HoldsLastScan<R>(calls: seq<Call<R>>, cacheSeconds: real, k: nat) returns (j: nat)
    requires k <= |calls|
    ensures var s := Run(calls, cacheSeconds, k);
      if s.report.None? then
        && s.takenAt.None? && s.scans == 0
        && forall i | 0 <= i < k :: !Scanned(calls, cacheSeconds, i)
      else
        && j < k && LastScan(calls, cacheSeconds, j, k) && s.scans > 0
        && s.report == calls[j].Scan() && s.takenAt == Some(calls[j].now)
  {
    j := 0;
    if k > 0 {
      if Scanned(calls, cacheSeconds, k - 1) {
        j := k - 1;
      } else {
        j := HoldsLastScan(calls, cacheSeconds, k - 1);
      }
    }
  }

  /** Every answer is the report of the last scan: one this call made, or an earlier one less than
      `cacheSeconds` old.  It is called fresh exactly when the count of scans grew; an error leaves the
      cache as it was. */
  lemma AnswersAreRecent<R>(calls: seq<Call<R>>, cacheSeconds: real, k: nat) returns (j: nat)
    requires k < |calls|
    ensures var answer := AnswerAt(calls, cacheSeconds, k);
      var before, after := Run(calls, cacheSeconds, k), Run(calls, cacheSeconds, k + 1);
      if answer.None? then after == before
      else
        && j <= k && LastScan(calls, cacheSeconds, j, k + 1) && calls[j].Scan() == Some(answer.value.0)
        && (j == k || calls[k].now - calls[j].now < cacheSeconds)
        && (answer.value.1 <==> j == k)
        && (answer.value.1 <==> after.scans == before.scans + 1)
        && (!answer.value.1 ==> after == before)
  {
    j := k;
    if !Scans(Run(calls, cacheSeconds, k), cacheSeconds, calls[k]) {
      j := HoldsLastScan(calls, cacheSeconds, k);
    }
  }

  predicate ClockNeverBack<R>(calls: seq<Call<R>>) {
    forall i, j | 0 <= i <= j < |calls| :: calls[i].now <= calls[j].now
  }

  /** The scans of a state fit between the first call and the last scan. */
  predicate IsSpaced<R>(s: State<R>, cacheSeconds: real, from: real) {
    s.scans > 0 ==> s.takenAt.Some? && (s.scans - 1) as real * cacheSeconds <= s.takenAt.value - from
  }

  lemma NextScan(n: nat, c: real, from: real, last: real, now: real)
    requires n > 0 && (n - 1) as real * c <= last - from && now - last >= c
    ensures n as real * c <= now - from
  {
    assert n as real == (n - 1) as real + 1.0;
    assert ((n - 1) as real + 1.0) * c == (n - 1) as real * c + c;
  }

  lemma StepSpaced<R>(s: State<R>, cacheSeconds: real, call: Call<R>, from: real)
    requires IsSpaced(s, cacheSeconds, from) && from <= call.now && !call.refresh
    requires s.scans > 0 ==> s.report.Some?
    ensures IsSpaced(After(s, cacheSeconds, call), cacheSeconds, from)
  {
    if Scans(s, cacheSeconds, call) && call.Scan().Some? && s.scans > 0 {
      NextScan(s.scans, cacheSeconds, from, s.takenAt.value, call.now);
    }
  }

  /** Without refresh, scans are at least `cacheSeconds` apart: n of them take (n - 1) times that. */
  lemma {:induction false} ScansAreSpaced<R>(calls: seq<Call<R>>, cacheSeconds: real, k: nat)
    requires 0 < |calls| && k <= |calls| && ClockNeverBack(calls)
    requires forall i | 0 <= i < |calls| :: !calls[i].refresh
    ensures IsSpaced(Run(calls, cacheSeconds, k), cacheSeconds, calls[0].now)
  {
    hide IsSpaced, After;
    if k == 0 {
      StartSpaced<R>(cacheSeconds, calls[0].now);
    } else {
      ScansAreSpaced(calls, cacheSeconds, k - 1);
      var j := HoldsLastScan(calls, cacheSeconds, k - 1);
      StepSpaced(Run(calls, cacheSeconds, k - 1), cacheSeconds, calls[k - 1], calls[0].now);
    }
  }

  lemma StartSpaced<R>(cacheSeconds: real, from: real)
    ensures IsSpaced<R>(State(None, None, 0), cacheSeconds, from)
  {
  }

  /** The scans of a run against the time it took. */
  lemma ScanRate<R>(calls: seq<Call<R>>, cacheSeconds: real)
    requires calls != [] && ClockNeverBack(calls)
    requires forall i | 0 <= i < |calls| :: !calls[i].refresh
    ensures var scans := Run(calls, cacheSeconds, |calls|).scans;
      scans > 0 ==> (scans - 1) as real * cacheSeconds <= calls[|calls| - 1].now - calls[0].now
  {
    ScansAreSpaced(calls, cacheSeconds, |calls|);
    var j := HoldsLastScan(calls, cacheSeconds, |calls|);
  }

  // ---------------------------------------------------------------- roots

  /** Reports say which root they are of, and the scanner answers about the root it was asked about. */
  ghost predicate TellRoots<R(!new)>(calls: seq<Call<R>>, about: R -> string) {
    forall i | 0 <= i < |calls| ::
      forall root :: calls[i].scanner(root).Some? ==> about(calls[i].scanner(root).value) == root
  }

  /** The answer to a call is a report on the root it asked about exactly when the last call that scanned
      asked about that root. */
  lemma AnswersItsRootExactly<R(!new)>(calls: seq<Call<R>>, cacheSeconds: real, k: nat, about: R -> string) returns (j: nat)
    requires k < |calls| && TellRoots(calls, about) && AnswerAt(calls, cacheSeconds, k).Some?
    ensures j <= k && LastScan(calls, cacheSeconds, j, k + 1)
    ensures about(AnswerAt(calls, cacheSeconds, k).value.0) == calls[k].root <==> calls[j].root == calls[k].root
  {
    j := AnswersAreRecent(calls, cacheSeconds, k);
  }

  /** Every answer of the run is about the root asked about. */
  predicate AnswersTheirRoots<R>(calls: seq<Call<R>>, cacheSeconds: real, about: R -> string) {
    forall k | 0 <= k < |calls| ::
      AnswerAt(calls, cacheSeconds, k).Some? ==> about(AnswerAt(calls, cacheSeconds, k).value.0) == calls[k].root
  }

  /** The calls ask about the given roots. */
  predicate AskAbout<R>(calls: seq<Call<R>>, roots: seq<string>) {
    |calls| == |roots| && forall i | 0 <= i < |calls| :: calls[i].root == roots[i]
  }

  predicate IsOneRoot(roots: seq<string>) {
    forall i | 0 <= i < |roots| :: roots[i] == roots[0]
  }

  /** A scanner whose report is the root's own name. */
  function NameCalls(roots: seq<string>): (calls: seq<Call<string>>)
    ensures AskAbout(calls, roots)
  {
    seq(|roots|, i requires 0 <= i < |roots| => Call(0.0, roots[i], false, (root: string) => Some(root)))
  }

  lemma {:induction false} FirstRootStays(roots: seq<string>, cacheSeconds: real, k: nat)
    requires 0 < k <= |roots| && cacheSeconds > 0.0
    ensures Run(NameCalls(roots), cacheSeconds, k) == State(Some(roots[0]), Some(0.0), 1)
  {
    var calls := NameCalls(roots);
    if k > 1 {
      FirstRootStays(roots, cacheSeconds, k - 1);
    } else {
      assert Run(calls, cacheSeconds, 0) == State(None, None, 0);
      assert calls[0].Scan() == Some(roots[0]);
    }
  }

  /** The roots for which every run, whatever its clock, refreshes and failures, answers each call about its
      own root: exactly the lists that name a single one. */
  lemma OneRootExactly(roots: seq<string>, cacheSeconds: real)
    requires cacheSeconds > 0.0
    ensures IsOneRoot(roots) <==>
      forall calls: seq<Call<string>> | AskAbout(calls, roots) && TellRoots(calls, (report: string) => report) ::
        AnswersTheirRoots(calls, cacheSeconds, (report: string) => report)
  {
    hide Run, AnswerAt;
    var about := (report: string) => report;
    if IsOneRoot(roots) {
      forall calls: seq<Call<string>> | AskAbout(calls, roots) && TellRoots(calls, about)
        ensures AnswersTheirRoots(calls, cacheSeconds, about)
      {
        forall k | 0 <= k < |calls| && AnswerAt(calls, cacheSeconds, k).Some?
          ensures about(AnswerAt(calls, cacheSeconds, k).value.0) == calls[k].root
        {
          var j := AnswersItsRootExactly(calls, cacheSeconds, k, about);
        }
      }
    } else {
      var k :| 0 <= k < |roots| && roots[k] != roots[0];
      OtherRootAnswered(roots, cacheSeconds, k);
      assert !AnswersTheirRoots(NameCalls(roots), cacheSeconds, about);
      assert TellRoots(NameCalls(roots), about);
    }
  }

  lemma OtherRootAnswered(roots: seq<string>, cacheSeconds: real, k: nat)
    requires 0 < k < |roots| && cacheSeconds > 0.0
    ensures AnswerAt(NameCalls(roots), cacheSeconds, k) == Some((roots[0], false))
  {
    hide Run;
    FirstRootStays(roots, cacheSeconds, k);
  }

  /** Two calls in time about different roots: the second gets the first one's report. */
  lemma RootsShareOneReport<R(!new)>(first: Call<R>, second: Call<R>, cacheSeconds: real, about: R -> string)
    requires first.root != second.root && TellRoots([first, second], about)
    requires first.Scan().Some? && !second.refresh && second.now - first.now < cacheSeconds
    ensures AnswerAt([first, second], cacheSeconds, 1) == Some((first.Scan().value, false))
    ensures about(AnswerAt([first, second], cacheSeconds, 1).value.0) == first.root
  {
    var calls := [first, second];
    assert Run(calls, cacheSeconds, 1) == After(Run(calls, cacheSeconds, 0), cacheSeconds, calls[0]);
    assert calls[0].scanner(first.root) == first.Scan();
  }

  // ---------------------------------------------------------------- when a call scans

  /** A call scans exactly when it asks for it, when nothing is kept, or when what is kept is as old as the
      period; then the answer is the scan's, fresh, or the scan's error with the state as it was. */
  lemma ScansExactly<R>(s: State<R>, cacheSeconds: real, call: Call<R>)
    ensures var scan := call.scanner(call.root);
      if call.refresh || s.report.None? || s.takenAt.None? || call.now - s.takenAt.value >= cacheSeconds then
        if scan.None? then Answer(s, cacheSeconds, call) == None && After(s, cacheSeconds, call) == s
        else
          && Answer(s, cacheSeconds, call) == Some((scan.value, true))
          && After(s, cacheSeconds, call) == State(scan, Some(call.now), s.scans + 1)
      else Answer(s, cacheSeconds, call) == Some((s.report.value, false)) && After(s, cacheSeconds, call) == s
  {
  }
}
