/** What a partial version such as `16` or `1.2-rc1` means in a specification (devrepro/core/versioning.py), and
    when that is what its operator says. */
module PartialVersions {
  import opened Strings
  import opened Versioning
  import opened VersionOrders
  import opened SpecRoundTrip

  lemma {:induction false} NumberPrefix(s: string, k: nat)
    requires OnlyDigits(s) && k <= |s|
    ensures Number(s[..k]) <= Number(s)
    decreases |s|
  {
    if k == |s| {
      assert s[..k] == s;
    } else {
      assert s[..|s| - 1][..k] == s[..k];
      NumberPrefix(s[..|s| - 1], k);
    }
  }

  /** Digits that start the text start its leading digits. */
  lemma {:induction false} DigitsReach(s: string, k: nat)
    requires k <= |s| && OnlyDigits(s[..k])
    ensures k <= DigitsLen(s)
    ensures k < |s| && !IsDigit(s[k]) ==> DigitsLen(s) == k
  {
    if k > 0 {
      assert s[..k][0] == s[0];
      assert s[1..][..k - 1] == s[..k][1..];
      DigitsReach(s[1..], k - 1);
    }
  }

  /** The first part of a text in dots, and the rest. */
  lemma FirstPart(s: string)
    ensures var parts := SplitOn(s, ".");
      if |parts| == 1 then parts[0] == s
      else s == parts[0] + "." + Join(".", parts[1..]) && SplitOn(Join(".", parts[1..]), ".") == parts[1..]
  {
    hide SplitOn;
    var parts := SplitOn(s, ".");
    JoinSplit(s, '.');
    if |parts| > 1 {
      forall p | p in parts[1..] ensures '.' !in p {
        var k :| 0 <= k < |parts| && parts[k] == p;
        SplitOnParts(s, '.', k);
      }
      SplitOnJoin(parts[1..], '.');
    }
  }

  lemma AfterDot(rest: string)
    ensures DotDigits("." + rest) == rest[..DigitsLen(rest)]
  {
    hide DigitsLen;
    var s := "." + rest;
    assert s[1..] == rest;
    assert s[1..1 + DigitsLen(rest)] == rest[..DigitsLen(rest)];
  }

  /** What leads a text that starts with a number and a dot. */
  lemma LeadingParts(p0: string, rest: string)
    requires AllDigits(p0)
    ensures var l := LeadingOf(p0 + "." + rest);
      && l.major == p0 && l.minor == rest[..DigitsLen(rest)]
      && (l.minor != "" ==> l.patch == DotDigits(rest[|l.minor|..]))
  {
    hide DigitsLen, DotDigits, OnlyDigits;
    var ver, dotted := p0 + "." + rest, "." + rest;
    DottedSlices(p0, rest, DigitsLen(rest));
    DigitsBeforeDot(p0, rest);
    AfterDot(rest);
    LeadingAt(ver, |p0|, dotted);
  }

  lemma DigitsBeforeDot(p0: string, rest: string)
    requires AllDigits(p0)
    ensures DigitsLen(p0 + ("." + rest)) == |p0|
  {
    hide DigitsLen;
    DigitsLenOf(p0, "." + rest);
  }

  lemma LeadingAt(ver: string, n: nat, rest: string)
    requires 0 < n <= |ver| && DigitsLen(ver) == n && rest == ver[n..]
    ensures var l := LeadingOf(ver);
      && l.major == ver[..n] && l.minor == DotDigits(rest)
      && (l.minor != "" ==> l.patch == DotDigits(rest[1 + |l.minor|..]))
  {
    hide DigitsLen, DotDigits;
  }

  lemma DottedSlices(p0: string, rest: string, m: nat)
    requires m <= |rest|
    ensures var ver := p0 + "." + rest;
      && ver == p0 + ("." + rest) && ver[..|p0|] == p0 && ver[|p0|..] == "." + rest
      && ver[|p0|..][1 + m..] == rest[m..] && |rest[..m]| == m
  {
  }

  /** Two numbers at the start. */
  lemma TwoParts(p0: string, p1: string, tail: string)
    requires AllDigits(p0) && AllDigits(p1)
    ensures var l := LeadingOf(p0 + "." + (p1 + tail));
      l.major == p0 && l.minor == (p1 + tail)[..DigitsLen(p1 + tail)] && |p1| <= |l.minor| && l.minor[..|p1|] == p1
  {
    hide DigitsLen, LeadingOf;
    var rest := p1 + tail;
    LeadingParts(p0, rest);
    assert rest[..|p1|] == p1;
    DigitsReach(rest, |p1|);
  }

  /** Three numbers at the start make a version that is not partial. */
  lemma ThreeParts(p0: string, p1: string, p2: string, tail: string)
    requires AllDigits(p0) && AllDigits(p1) && AllDigits(p2)
    ensures !IsPartial(LeadingOf(p0 + "." + (p1 + "." + (p2 + tail))))
  {
    hide DigitsLen, LeadingOf, DotDigits, OnlyDigits;
    var last := p2 + tail;
    var rest := p1 + "." + last;
    LeadingParts(p0, rest);
    assert rest == p1 + ("." + last);
    DigitsLenOf(p1, "." + last);
    assert rest[..|p1|] == p1 && rest[|p1|..] == "." + last;
    AfterDot(last);
    assert last[..|p2|] == p2;
    DigitsReach(last, |p2|);
  }

  /** A remainder without a tag is nothing, or one separator. */
  lemma NoTag(r: string)
    requires IsRest(r) && TagOf(r).None?
    ensures r == "" || (|r| == 1 && IsTagSeparator(r[0]))
  {
  }

  lemma NumbersOfOne(p: string)
    requires AllDigits(p)
    ensures AreNumbers([p]) && Numbers([p]) == [Number(p)]
  {
    assert [p][1..] == [];
  }

  lemma NumbersOfTwo(p: string, q: string)
    requires AllDigits(p) && AllDigits(q)
    ensures AreNumbers([p, q]) && Numbers([p, q]) == [Number(p), Number(q)]
  {
    assert [p, q][1..] == [q] && [q][1..] == [];
  }

  /** How the numbers a version keeps relate to the numbers the text starts with: the tag may have taken
      some, but without a tag they are the same. */
  predicate IsKept(l: Leading, nums: seq<nat>, tagged: bool)
    requires OnlyDigits(l.major) && OnlyDigits(l.minor)
  {
    || (|nums| == 1 && nums[0] <= Number(l.major) && (!tagged ==> nums[0] == Number(l.major) && l.minor == ""))
    || (|nums| == 2 && nums[0] == Number(l.major) && nums[1] <= Number(l.minor) && l.minor != ""
        && (!tagged ==> nums[1] == Number(l.minor)))
  }

  lemma OnePartKept(ver: string, n: nat)
    requires 0 < n <= |ver| && AllDigits(ver[..n]) && IsRest(ver[n..])
    ensures IsKept(LeadingOf(ver), [Number(ver[..n])], TagOf(ver[n..]).Some?)
  {
    hide DigitsLen, Number, IsTag;
    var l, rest := LeadingOf(ver), ver[n..];
    DigitsReach(ver, n);
    assert l.major[..n] == ver[..n];
    NumberPrefix(l.major, n);
    if TagOf(rest).None? {
      NoTag(rest);
      if rest != "" { assert rest[0] == ver[n]; }
      assert DigitsLen(ver) == n && ver[DigitsLen(ver)..] == rest;
      assert l.minor == "" by { NoMinor(rest); }
    }
  }

  lemma NoMinor(rest: string)
    requires rest == "" || |rest| == 1
    ensures DotDigits(rest) == ""
  {
  }

  lemma TwoPartsKept(p0: string, p1: string, tail: string)
    requires AllDigits(p0) && AllDigits(p1) && IsRest(tail)
    ensures IsKept(LeadingOf(p0 + "." + (p1 + tail)), [Number(p0), Number(p1)], TagOf(tail).Some?)
  {
    hide Number, IsTag, LeadingOf;
    var rest := p1 + tail;
    var l := LeadingOf(p0 + "." + rest);
    TwoParts(p0, p1, tail);
    NumberPrefix(l.minor, |p1|);
    if TagOf(tail).None? {
      NoTag(tail);
      assert rest[..|p1|] == p1;
      if tail != "" { assert rest[|p1|] == tail[0]; }
      DigitsReach(rest, |p1|);
      assert l.minor == p1;
    }
  }

  lemma PartsKept(ver: string, n: nat)
    requires n <= |ver| && IsDotted(ver[..n]) && IsRest(ver[n..]) && IsPartial(LeadingOf(ver))
    ensures IsKept(LeadingOf(ver), Numbers(SplitOn(ver[..n], ".")), TagOf(ver[n..]).Some?)
  {
    hide SplitOn, IsKept, LeadingOf, Number, Numbers, IsRest, TagOf, OnlyDigits;
    var body, tail := ver[..n], ver[n..];
    var parts := SplitOn(body, ".");
    assert ver == body + tail;
    FirstPart(body);
    assert AllDigits(parts[0]);
    if |parts| == 1 {
      assert parts == [body];
      NumbersOfOne(body);
      OnePartKept(ver, n);
    } else {
      var rest := Join(".", parts[1..]);
      FirstPart(rest);
      assert AllDigits(parts[1]);
      if |parts| == 2 {
        assert parts == [parts[0], rest];
        assert ver == parts[0] + "." + (rest + tail);
        NumbersOfTwo(parts[0], rest);
        TwoPartsKept(parts[0], rest, tail);
      } else {
        var more := Join(".", parts[1..][1..]);
        StartsWithPart(parts[1..][1..]);
        assert AllDigits(parts[2]);
        var last := more[|parts[2]|..] + tail;
        assert ver == parts[0] + "." + (parts[1] + "." + (parts[2] + last));
        ThreeParts(parts[0], parts[1], parts[2], last);
        assert false;
      }
    }
  }

  lemma StartsWithPart(parts: seq<string>)
    requires parts != []
    ensures |parts[0]| <= |Join(".", parts)| && Join(".", parts) == parts[0] + Join(".", parts)[|parts[0]|..]
  {
  }

  /** A partial version text that is a version, the version being what its operator would compare with. */
  lemma PartialIsKept(ver: string)
    requires Trimmed(ver) && IsPartial(LeadingOf(ver)) && ParseVersion(ver).Some?
    ensures var v := ParseVersion(ver).value; IsKept(LeadingOf(ver), v.nums, v.tag.Some?)
  {
    hide IsKept, Numbers, SplitOn, IsRest, IsDotted, TagOf;
    assert DigitsLen(ver) > 0 && IsDigit(ver[0]);
    assert DropV(ver) == ver by { if ver != "" { assert ver[0..1] == [ver[0]]; } }
    var n := NumbersLen(ver, |ver|);
    PartsKept(ver, n);
  }

  /** The release a partial version starts from is not before the version, and is the version's equal exactly
      when it has no tag. */
  lemma KeptAtMostRelease(v: Version, l: Leading)
    requires OnlyDigits(l.major) && OnlyDigits(l.minor) && IsKept(l, v.nums, v.tag.Some?)
    ensures CmpVersions(v, Release(Number(l.major), MinorOf(l), 0)) <= 0
    ensures CmpVersions(v, Release(Number(l.major), MinorOf(l), 0)) == 0 <==> v.tag.None?
  {
    hide Number;
    var r := [Number(l.major), MinorOf(l), 0];
    assert Pad(r, 3) == r;
    if |v.nums| == 1 {
      assert Pad(v.nums, 3) == [v.nums[0], 0, 0];
      LexThree(v.nums[0], 0, r[0], r[1]);
    } else {
      assert Pad(v.nums, 3) == [v.nums[0], v.nums[1], 0];
      LexThree(v.nums[0], v.nums[1], r[0], r[1]);
    }
  }

  lemma LexThree(a: int, b: int, c: int, d: int)
    requires a <= c && b <= d
    ensures Lex([a, b, 0], [c, d, 0]) <= 0
    ensures a == c && b == d ==> Lex([a, b, 0], [c, d, 0]) == 0
  {
    assert [a, b, 0][1..] == [b, 0] && [b, 0][1..] == [0] && [0][1..] == [];
    assert [c, d, 0][1..] == [d, 0] && [d, 0][1..] == [0];
    assert Lex([0], [0]) == 0;
    assert Lex([b, 0], [d, 0]) == if b != d then -1 else 0;
  }

  // ---------------------------------------------------------------- what the operator says

  /** Every version the clauses accept the operator accepts, and the other way round. */
  ghost predicate MeansItsOperator(op: Op, ver: string) {
    && PartialClauses(Some(op), ver).Some? && ParseVersion(ver).Some?
    && forall v :: GroupHolds(PartialClauses(Some(op), ver).value, v) <==> ClauseHolds(Clause(op, ParseVersion(ver).value), v)
  }

  /** Releases in order. */
  lemma ReleaseOrder(major: nat, minor: nat)
    ensures CmpVersions(Release(major, minor, 0), Release(major, minor, 1)) < 0
    ensures CmpVersions(Release(major, minor, 1), Release(major + 1, 0, 0)) < 0
    ensures CmpVersions(Release(major, minor, 0), Release(major + 1, 0, 0)) < 0
  {
    assert Pad([major, minor, 0], 3) == [major, minor, 0] && Pad([major, minor, 1], 3) == [major, minor, 1];
    assert Pad([major + 1, 0, 0], 3) == [major + 1, 0, 0];
    assert [major, minor, 0][1..] == [minor, 0] && [major, minor, 1][1..] == [minor, 1];
    assert [minor, 0][1..] == [0] && [minor, 1][1..] == [1];
    assert Lex([0], [1]) == -1;
    assert Lex([minor, 0], [minor, 1]) == -1;
  }

  /** A version before another's successor is before it. */
  lemma BeforeNext(v: Version, r: Version, s: Version)
    requires CmpVersions(v, r) <= 0 && CmpVersions(r, s) < 0
    ensures CmpVersions(v, s) < 0 && CmpVersions(s, v) > 0
  {
    hide CmpVersions;
    CmpVersionsPreorder(v, r, s);
    CmpVersionsPreorder(s, v, r);
  }

  /** A tagged version has another between itself and anything untagged it precedes. */
  lemma TaggedHasNext(v: Version, r: Version) returns (next: Version)
    requires v.tag.Some? && r.tag.None? && CmpVersions(v, r) < 0
    ensures CmpVersions(v, next) < 0 && CmpVersions(next, r) < 0 && CmpVersions(next, v) > 0
  {
    hide CmpPadded;
    next := Version("", v.nums, Some(v.tag.value + "z"));
    PaddedTotal(v.nums, v.nums);
    LongerIsLater(Codes(v.tag.value), 'z' as int);
    assert Codes(v.tag.value + "z") == Codes(v.tag.value) + ['z' as int];
  }

  lemma {:induction false} LongerIsLater(a: seq<int>, x: int)
    ensures Lex(a, a + [x]) == -1 && Lex(a + [x], a) == 1
  {
    if a != [] {
      assert (a + [x])[1..] == a[1..] + [x];
      LongerIsLater(a[1..], x);
    }
  }

  lemma LiteralMeans(op: Op, ver: string)
    requires PartialClauses(Some(op), ver) == One(op, ver) && ParseVersion(ver).Some?
    ensures MeansItsOperator(op, ver)
  {
    hide PartialClauses, ParseVersion, ClauseHolds;
    var c := Clause(op, ParseVersion(ver).value);
    forall v ensures GroupHolds([c], v) <==> ClauseHolds(c, v) { assert [c][0] == c; }
  }

  /** One version on which clauses and operator differ. */
  lemma DiffersAt(op: Op, ver: string, v: Version)
    requires PartialClauses(Some(op), ver).Some? && ParseVersion(ver).Some?
    requires GroupHolds(PartialClauses(Some(op), ver).value, v) != ClauseHolds(Clause(op, ParseVersion(ver).value), v)
    ensures !MeansItsOperator(op, ver)
  {
  }

  /** `>=`: exactly the untagged ones. */
  lemma AtLeastMeans(ver: string)
    requires Trimmed(ver) && IsPartial(LeadingOf(ver)) && ParseVersion(ver).Some?
    ensures MeansItsOperator(Ge, ver) <==> ParseVersion(ver).value.tag.None?
  {
    hide LeadingOf, ParseVersion, PartialClauses, GroupHolds, CmpVersions, IsKept, Number, Trimmed;
    var l, w := LeadingOf(ver), ParseVersion(ver).value;
    var r := Release(Number(l.major), MinorOf(l), 0);
    PartialIsKept(ver);
    KeptAtMostRelease(w, l);
    CmpVersionsPreorder(w, r, w);
    PartialRange(Some(Ge), ver, w);
    if w.tag.None? {
      forall v ensures GroupHolds(PartialClauses(Some(Ge), ver).value, v) <==> ClauseHolds(Clause(Ge, w), v) {
        PartialRange(Some(Ge), ver, v);
        CmpVersionsCongruence(w, r, v);
        CmpVersionsPreorder(v, w, w);
        CmpVersionsPreorder(v, r, r);
      }
    } else {
      DiffersAt(Ge, ver, w);
    }
  }

  /** `>`: never, since it is read as `>=`. */
  lemma AboveNeverMeans(ver: string)
    requires Trimmed(ver) && IsPartial(LeadingOf(ver)) && ParseVersion(ver).Some?
    ensures !MeansItsOperator(Gt, ver)
  {
    hide LeadingOf, ParseVersion, PartialClauses, GroupHolds, CmpVersions, IsKept, Number, Trimmed;
    var l, w := LeadingOf(ver), ParseVersion(ver).value;
    var r := Release(Number(l.major), MinorOf(l), 0);
    PartialIsKept(ver);
    KeptAtMostRelease(w, l);
    CmpVersionsPreorder(w, r, w);
    CmpVersionsPreorder(r, r, r);
    if w.tag.None? {
      PartialRange(Some(Gt), ver, r);
      DiffersAt(Gt, ver, r);
    } else {
      var next := TaggedHasNext(w, r);
      PartialRange(Some(Gt), ver, next);
      DiffersAt(Gt, ver, next);
    }
  }

  /** `<` and `<=` of a lone major number: never, since it is read as `<` of the next. */
  lemma BelowMajorNeverMeans(op: Op, ver: string)
    requires Trimmed(ver) && IsPartial(LeadingOf(ver)) && ParseVersion(ver).Some?
    requires (op == Lt || op == Le) && LeadingOf(ver).minor == ""
    ensures !MeansItsOperator(op, ver)
  {
    hide LeadingOf, ParseVersion, PartialClauses, GroupHolds, CmpVersions, IsKept, Number, Trimmed;
    var l, w := LeadingOf(ver), ParseVersion(ver).value;
    var m := Number(l.major);
    PartialIsKept(ver);
    KeptAtMostRelease(w, l);
    ReleaseOrder(m, 0);
    BeforeNext(w, Release(m, 0, 0), Release(m, 0, 1));
    PartialRange(Some(op), ver, Release(m, 0, 1));
    DiffersAt(op, ver, Release(m, 0, 1));
  }

  /** `=`, `==` and `*`: never, since they are read as a range. */
  lemma RangeNeverMeans(op: Op, ver: string)
    requires Trimmed(ver) && IsPartial(LeadingOf(ver)) && ParseVersion(ver).Some?
    requires op == Eq || op == EqEq || op == Any
    ensures !MeansItsOperator(op, ver)
  {
    hide LeadingOf, ParseVersion, PartialClauses, GroupHolds, CmpVersions, IsKept, Number, Trimmed;
    var l, w := LeadingOf(ver), ParseVersion(ver).value;
    var m, n := Number(l.major), MinorOf(l);
    var r := Release(m, n, 0);
    PartialIsKept(ver);
    KeptAtMostRelease(w, l);
    ReleaseOrder(m, n);
    if op == Any {
      CmpVersionsPreorder(Release(m + 1, 0, 0), r, r);
      PartialRange(Some(op), ver, Release(m + 1, 0, 0));
      DiffersAt(op, ver, Release(m + 1, 0, 0));
    } else {
      BeforeNext(w, r, Release(m, n, 1));
      CmpVersionsPreorder(Release(m, n, 1), r, r);
      PartialRange(Some(op), ver, Release(m, n, 1));
      DiffersAt(op, ver, Release(m, n, 1));
    }
  }

  /** A partial version means what its operator says exactly for `!=`, for `<` and `<=` with a minor number,
      and for `>=` without a tag; so `>=1.2-rc1`, read as `>=1.2.0`, does not. */
  lemma MeansItsOperatorExactly(op: Op, ver: string)
    requires Trimmed(ver) && IsPartial(LeadingOf(ver)) && ParseVersion(ver).Some?
    ensures MeansItsOperator(op, ver)
      <==> || op == Ne
           || ((op == Lt || op == Le) && LeadingOf(ver).minor != "")
           || (op == Ge && ParseVersion(ver).value.tag.None?)
  {
    hide MeansItsOperator, LeadingOf, ParseVersion, Trimmed;
    match op
    case Ne => LiteralMeans(op, ver);
    case Lt => if LeadingOf(ver).minor == "" { BelowMajorNeverMeans(op, ver); } else { LiteralMeans(op, ver); }
    case Le => if LeadingOf(ver).minor == "" { BelowMajorNeverMeans(op, ver); } else { LiteralMeans(op, ver); }
    case Ge => AtLeastMeans(ver);
    case Gt => AboveNeverMeans(ver);
    case _ => RangeNeverMeans(op, ver);
  }
}
