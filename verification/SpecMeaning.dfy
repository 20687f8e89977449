/** What specifications mean (devrepro/core/versioning.py), from their texts: alternatives, conjunctions, each
    operator, and the order of versions they rest on. */
module SpecMeaning {
  import opened Strings
  import opened Versioning
  import opened VersionOrders
  import opened SpecRoundTrip
  import Ordering
  import Workflows

  // ---------------------------------------------------------------- alternatives

  predicate EndsInBar(a: string) { a != "" && a[|a| - 1] == '|' }

  lemma {:induction false} SplitBarsConcat(a: string, b: string)
    requires !EndsInBar(a)
    ensures SplitOn(a + "||" + b, "||") == SplitOn(a, "||") + SplitOn(b, "||")
    decreases |a|
  {
    hide SplitOn;
    var s := a + "||" + b;
    BarStep(s);
    BarStep(a);
    if a == "" {
      assert s[0..2] == "||" && s[2..] == b;
    } else if StartsWith(a, "||") {
      assert a[0..2] == "||" && s[0..2] == a[0..2];
      assert s[2..] == a[2..] + "||" + b;
      SplitBarsConcat(a[2..], b);
    } else {
      assert !StartsWith(s, "||") by { NoBarsAhead(a, b); }
      assert s[1..] == a[1..] + "||" + b && s[0] == a[0];
      SplitBarsConcat(a[1..], b);
    }
  }

  lemma BarStep(s: string)
    ensures s == "" ==> SplitOn(s, "||") == [""]
    ensures s != "" && StartsWith(s, "||") ==> |s| >= 2 && SplitOn(s, "||") == [""] + SplitOn(s[2..], "||")
    ensures s != "" && !StartsWith(s, "||") ==>
      SplitOn(s, "||") == [[s[0]] + SplitOn(s[1..], "||")[0]] + SplitOn(s[1..], "||")[1..]
  {
  }

  lemma NoBarsAhead(a: string, b: string)
    requires a != "" && !EndsInBar(a) && !StartsWith(a, "||")
    ensures !StartsWith(a + "||" + b, "||")
  {
    var s := a + "||" + b;
    assert s[0] == a[0];
    if |a| >= 2 { assert s[0..2] == a[0..2]; } else { assert s[0..2][0] == a[0]; }
  }

  lemma {:induction false} ParseGroupsConcat(a: seq<string>, b: seq<string>)
    ensures ParseGroups(a + b) == if ParseGroups(a).Some? && ParseGroups(b).Some?
      then Some(ParseGroups(a).value + ParseGroups(b).value) else None
  {
    hide ParseGroup, SplitOn;
    if a == [] {
      assert a + b == b;
      assert ParseGroups(a) == Some([]);
      if ParseGroups(b).Some? { assert [] + ParseGroups(b).value == ParseGroups(b).value; }
    } else {
      assert (a + b)[1..] == a[1..] + b;
      ParseGroupsConcat(a[1..], b);
      if ParseGroups(a).Some? && ParseGroups(b).Some? {
        var g := ParseGroup(SplitOn(a[0], ",")).value;
        assert [g] + ParseGroups(a[1..]).value + ParseGroups(b).value == [g] + (ParseGroups(a[1..]).value + ParseGroups(b).value);
      }
    }
  }

  /** Something other than blanks stands between two commas or bars. */
  predicate HasClause(text: string) {
    exists i | 0 <= i < |SplitOn(text, "||")| :: HasPart(SplitOn(text, "||")[i])
  }

  predicate HasPart(group: string) {
    exists j | 0 <= j < |SplitOn(group, ",")| :: Strip(SplitOn(group, ",")[j]) != ""
  }

  lemma {:induction false} GroupHasPart(parts: seq<string>)
    requires ParseGroup(parts).Some?
    ensures ParseGroup(parts).value != [] <==> exists j | 0 <= j < |parts| :: Strip(parts[j]) != ""
  {
    hide ParseClause, Strip;
    if parts != [] {
      assert forall j | 0 < j < |parts| :: parts[j] == parts[1..][j - 1];
      assert forall j | 0 <= j < |parts| - 1 :: parts[1..][j] == parts[j + 1];
      GroupHasPart(parts[1..]);
      if Strip(parts[0]) != "" { ParseClauseStable(Strip(parts[0])); }
    }
  }

  lemma {:induction false} GroupsHaveClause(texts: seq<string>)
    requires ParseGroups(texts).Some?
    ensures ParseGroups(texts).value != [] <==> exists i | 0 <= i < |texts| :: HasPart(texts[i])
  {
    hide ParseGroup, HasPart, SplitOn;
    if texts != [] {
      assert forall j | 0 < j < |texts| :: texts[j] == texts[1..][j - 1];
      assert forall j | 0 <= j < |texts| - 1 :: texts[1..][j] == texts[j + 1];
      GroupsHaveClause(texts[1..]);
      assert ParseGroup(SplitOn(texts[0], ",")).value != [] <==> HasPart(texts[0]) by { OneGroupHasPart(texts[0]); }
    }
  }

  lemma OneGroupHasPart(text: string)
    requires ParseGroup(SplitOn(text, ",")).Some?
    ensures ParseGroup(SplitOn(text, ",")).value != [] <==> HasPart(text)
  {
    hide ParseGroup, SplitOn, Strip;
    GroupHasPart(SplitOn(text, ","));
  }

  /** A text with a clause parses to its groups, and one without to any version. */
  lemma GroupsOf(text: string)
    ensures ParseSpec(text).Some? <==> ParseGroups(SplitOn(text, "||")).Some?
    ensures ParseSpec(text).Some? && HasClause(text) ==>
      ParseSpec(text) == ParseGroups(SplitOn(text, "||")) && ParseSpec(text).value != []
    ensures ParseSpec(text).Some? && !HasClause(text) ==>
      ParseGroups(SplitOn(text, "||")) == Some([]) && ParseSpec(text).value == [[Clause(Any, ZERO)]]
  {
    hide SplitOn, HasPart, ParseGroups;
    if ParseSpec(text).Some? { GroupsHaveClause(SplitOn(text, "||")); }
  }

  lemma HoldsConcat(x: SpecSet, y: SpecSet, v: Version)
    ensures SpecHolds(x + y, v) <==> SpecHolds(x, v) || SpecHolds(y, v)
  {
    hide GroupHolds;
    assert forall i | 0 <= i < |x| :: (x + y)[i] == x[i];
    assert forall i | 0 <= i < |y| :: (x + y)[|x| + i] == y[i];
  }

  /** `a||b` is accepted exactly when a is or b is. */
  lemma AlternativesExactly(a: string, b: string, v: Version)
    requires ParseSpec(a).Some? && ParseSpec(b).Some? && HasClause(a) && HasClause(b) && !EndsInBar(a)
    ensures ParseSpec(a + "||" + b).Some?
    ensures SpecHolds(ParseSpec(a + "||" + b).value, v)
      <==> SpecHolds(ParseSpec(a).value, v) || SpecHolds(ParseSpec(b).value, v)
  {
    hide SplitOn, ParseGroups, ParseSpec, SpecHolds, HasPart;
    var text := a + "||" + b;
    SplitBarsConcat(a, b);
    GroupsOf(a);
    GroupsOf(b);
    GroupsOf(text);
    ParseGroupsConcat(SplitOn(a, "||"), SplitOn(b, "||"));
    SpecOfGroups(text);
    HoldsConcat(ParseSpec(a).value, ParseSpec(b).value, v);
  }

  lemma SpecOfGroups(text: string)
    requires ParseGroups(SplitOn(text, "||")).Some? && ParseGroups(SplitOn(text, "||")).value != []
    ensures ParseSpec(text) == ParseGroups(SplitOn(text, "||"))
  {
    hide SplitOn, ParseGroups;
  }

  /** An alternative without a clause is no alternative. */
  lemma EmptyAlternative(a: string, b: string)
    requires ParseSpec(a).Some? && ParseSpec(b).Some? && HasClause(a) && !HasClause(b) && !EndsInBar(a)
    ensures ParseSpec(a + "||" + b) == ParseSpec(a)
  {
    hide SplitOn, ParseGroups, ParseSpec, HasPart;
    SplitBarsConcat(a, b);
    GroupsOf(a);
    GroupsOf(b);
    ParseGroupsConcat(SplitOn(a, "||"), SplitOn(b, "||"));
    var groups := ParseGroups(SplitOn(a, "||")).value;
    assert groups + [] == groups;
    SpecOfGroups(a + "||" + b);
  }

  // ---------------------------------------------------------------- conjunctions

  lemma {:induction false} ParseGroupConcat(a: seq<string>, b: seq<string>)
    ensures ParseGroup(a + b) == if ParseGroup(a).Some? && ParseGroup(b).Some?
      then Some(ParseGroup(a).value + ParseGroup(b).value) else None
  {
    hide ParseClause, Strip;
    if a == [] {
      assert a + b == b;
      assert ParseGroup(a) == Some([]);
      if ParseGroup(b).Some? { assert [] + ParseGroup(b).value == ParseGroup(b).value; }
    } else {
      assert (a + b)[1..] == a[1..] + b;
      ParseGroupConcat(a[1..], b);
      if ParseGroup(a).Some? && ParseGroup(b).Some? && Strip(a[0]) != "" {
        var first := ParseClause(Strip(a[0])).value;
        assert first + ParseGroup(a[1..]).value + ParseGroup(b).value
          == first + (ParseGroup(a[1..]).value + ParseGroup(b).value);
      }
    }
  }

  /** A text without a bar is one alternative. */
  lemma OneAlternative(text: string)
    requires '|' !in text
    ensures SplitOn(text, "||") == [text]
    ensures ParseGroups(SplitOn(text, "||")) == match ParseGroup(SplitOn(text, ","))
      case None => None case Some(g) => Some(if g == [] then [] else [g])
    ensures HasClause(text) <==> HasPart(text)
  {
    hide SplitOn, ParseGroup, HasPart;
    SplitBarsNone(text);
    assert SplitOn(text, "||")[0] == text;
    assert [text][1..] == [];
    assert ParseGroups([]) == Some([]);
    assert forall g: seq<Clause> :: [g] + [] == [g];
  }

  lemma OneGroupHolds(g: seq<Clause>, v: Version)
    ensures SpecHolds([g], v) <==> GroupHolds(g, v)
  {
    hide GroupHolds;
    assert [g][0] == g;
  }

  lemma BothHold(x: seq<Clause>, y: seq<Clause>, v: Version)
    ensures GroupHolds(x + y, v) <==> GroupHolds(x, v) && GroupHolds(y, v)
  {
    hide ClauseHolds;
    assert forall i | 0 <= i < |x| :: (x + y)[i] == x[i];
    assert forall i | 0 <= i < |y| :: (x + y)[|x| + i] == y[i];
  }

  /** `a,b` is accepted exactly when both are. */
  lemma ConjunctionExactly(a: string, b: string, v: Version)
    requires '|' !in a && '|' !in b && HasClause(a) && HasClause(b)
    requires ParseSpec(a).Some? && ParseSpec(b).Some?
    ensures ParseSpec(a + "," + b).Some?
    ensures SpecHolds(ParseSpec(a + "," + b).value, v)
      <==> SpecHolds(ParseSpec(a).value, v) && SpecHolds(ParseSpec(b).value, v)
  {
    hide SplitOn, ParseGroup, ParseGroups, SpecHolds, GroupHolds, HasClause, HasPart;
    var text := a + "," + b;
    OneAlternative(a);
    OneAlternative(b);
    OneAlternative(text);
    SplitOnConcat(a, ',', b);
    assert text == a + [','] + b;
    ParseGroupConcat(SplitOn(a, ","), SplitOn(b, ","));
    GroupsOf(a);
    GroupsOf(b);
    var x, y := ParseGroup(SplitOn(a, ",")).value, ParseGroup(SplitOn(b, ",")).value;
    assert x != [] && y != [];
    OneGroupHolds(x, v);
    OneGroupHolds(y, v);
    OneGroupHolds(x + y, v);
    BothHold(x, y, v);
  }

  // ---------------------------------------------------------------- one clause

  /** A text of one clause, with spaces around it. */
  lemma SpecOfClause(text: string)
    requires '|' !in text && ',' !in text && Strip(text) != "" && ParseClause(Strip(text)).Some?
    ensures ParseSpec(text) == Some([ParseClause(Strip(text)).value]) && HasClause(text)
    ensures forall v :: SpecHolds(ParseSpec(text).value, v) <==> GroupHolds(ParseClause(Strip(text)).value, v)
  {
    hide SplitOn, ParseClause, Strip, GroupHolds, SpecHolds, ParseGroups;
    var clauses := ParseClause(Strip(text)).value;
    ParseClauseStable(Strip(text));
    SplitOnNone(text, ',');
    OneAlternative(text);
    assert [text][1..] == [] && ParseGroup([]) == Some([]) && clauses + [] == clauses;
    assert ParseGroup([text]) == Some(clauses);
    assert SplitOn(text, ",")[0] == text;
    SpecOfGroups(text);
    forall v ensures SpecHolds([clauses], v) <==> GroupHolds(clauses, v) { OneGroupHolds(clauses, v); }
  }

  /** The operator, any spaces, and a version that starts with a digit. */
  lemma ReadsSpacedOp(op: Op, k: nat, ver: string)
    requires ver != "" && IsDigit(ver[0])
    ensures ReadOp(OpText(op) + Workflows.Spaces(k) + ver) == Some(op)
  {
    hide Workflows.Spaces, ReadOp;
    var rest := Workflows.Spaces(k) + ver;
    var t := OpText(op) + rest;
    assert t == OpText(op) + Workflows.Spaces(k) + ver;
    FirstOfSpaced(k, ver);
    ReadsByFirstTwo(t);
    assert t[1] == if |OpText(op)| == 1 then rest[0] else OpText(op)[1];
  }

  lemma FirstOfSpaced(k: nat, ver: string)
    requires ver != "" && IsDigit(ver[0])
    ensures var rest := Workflows.Spaces(k) + ver;
      rest != "" && (rest[0] == ' ' || IsDigit(rest[0]))
  {
  }

  /** Only two characters decide, and whether anything follows the operator. */
  lemma ReadsByFirstTwo(t: string)
    requires |t| > 1
    ensures ReadOp(t) ==
      if t[0] == '*' then Some(Any)
      else if t[0] == '>' && t[1] == '=' && |t| > 2 then Some(Ge)
      else if t[0] == '<' && t[1] == '=' && |t| > 2 then Some(Le)
      else if t[0] == '!' && t[1] == '=' && |t| > 2 then Some(Ne)
      else if t[0] == '=' && t[1] == '=' && |t| > 2 then Some(EqEq)
      else if t[0] == '=' then Some(Eq)
      else if t[0] == '>' then Some(Gt)
      else if t[0] == '<' then Some(Lt)
      else None
  {
    assert t[0..1] == [t[0]] && t[0..2] == [t[0], t[1]];
  }

  lemma ClauseOf(op: Op, k: nat, ver: string)
    requires ver != "" && Trimmed(ver) && IsDigit(ver[0]) && '\n' !in ver
    ensures ParseClause(OpText(op) + Workflows.Spaces(k) + ver) == PartialClauses(Some(op), ver)
    ensures Trimmed(OpText(op) + Workflows.Spaces(k) + ver)
  {
    hide PartialClauses, TrimLeft, ReadOp, OpText, ParseClause, IsSpace, Workflows.Spaces;
    var rest := Workflows.Spaces(k) + ver;
    var t := OpText(op) + rest;
    assert t == OpText(op) + Workflows.Spaces(k) + ver;
    ReadsSpacedOp(op, k, ver);
    OpIsVisible(op);
    assert t[|OpText(op)|..] == rest;
    assert !IsSpace(ver[0]);
    Workflows.TrimSpaces(k, ver);
    assert t[|t| - 1] == ver[|ver| - 1] && t[0] == OpText(op)[0] && |t| > 1;
    ClauseBehind(op, t, ver);
  }

  lemma ClauseBehind(op: Op, text: string, ver: string)
    requires ReadOp(text) == Some(op) && text != "*" && |OpText(op)| <= |text|
    requires TrimLeft(text[|OpText(op)|..], IsSpace) == ver && ver != "" && '\n' !in ver
    ensures ParseClause(text) == PartialClauses(Some(op), ver)
  {
    hide PartialClauses, TrimLeft, ReadOp, OpText;
  }

  lemma OpIsVisible(op: Op)
    ensures OpText(op) != "" && !IsSpace(OpText(op)[0])
  {
  }

  lemma ClauseIsPlain(op: Op, k: nat, ver: string)
    requires '|' !in ver && ',' !in ver
    ensures var t := OpText(op) + Workflows.Spaces(k) + ver; '|' !in t && ',' !in t
  {
    assert forall c | c in OpText(op) :: c != '|' && c != ',';
  }

  lemma VersionTextHasNone(ver: string)
    requires IsVersionText(ver)
    ensures '|' !in ver && ',' !in ver && '\n' !in ver && Trimmed(ver) && ver != ""
  {
    VersionTextPlain(Eq, ver);
    assert forall c | c in ver :: IsVersionChar(c);
  }

  lemma FullIsOne(op: Option<Op>, ver: string)
    requires !IsPartial(LeadingOf(ver)) && ParseVersion(ver).Some?
    ensures PartialClauses(op, ver) == Some([Clause(if op.None? then EqEq else op.value, ParseVersion(ver).value)])
  {
    hide LeadingOf, ParseVersion;
  }

  lemma OneClauseHolds(c: Clause, v: Version)
    ensures GroupHolds([c], v) <==> ClauseHolds(c, v)
  {
    hide ClauseHolds;
    assert [c][0] == c;
  }

  /** What each operator in front of a version that is not partial accepts, in terms of the order alone. */
  lemma OperatorAccepts(op: Op, k: nat, ver: string, v: Version)
    requires Trimmed(ver) && ver != "" && IsDigit(ver[0]) && ParseVersion(ver).Some? && !IsPartial(LeadingOf(ver))
    ensures var spec := ParseSpec(OpText(op) + Workflows.Spaces(k) + ver);
      var order := CmpVersions(v, ParseVersion(ver).value);
      && spec.Some?
      && (SpecHolds(spec.value, v) <==>
            match op
            case Any => true
            case Ge => order > 0 || order == 0
            case Le => order < 0 || order == 0
            case Gt => order > 0
            case Lt => order < 0
            case Ne => order != 0
            case EqEq => order == 0
            case Eq => order == 0)
  {
    hide ParseSpec, SpecHolds, CmpVersions, LeadingOf, ParseVersion, Strip, IsVersionText, PartialClauses, ParseClause, GroupHolds;
    var text := OpText(op) + Workflows.Spaces(k) + ver;
    assert IsVersionText(ver) by { ParsedText(ver); }
    VersionTextHasNone(ver);
    ClauseOf(op, k, ver);
    ClauseIsPlain(op, k, ver);
    assert Strip(text) == text && text != "" by { assert |OpText(op)| > 0; }
    var c := Clause(op, ParseVersion(ver).value);
    FullIsOne(Some(op), ver);
    SpecOfClause(text);
    OneClauseHolds(c, v);
  }

  /** Without an operator only equal versions are accepted. */
  lemma BareAccepts(ver: string, v: Version)
    requires Trimmed(ver) && ver != "" && IsDigit(ver[0]) && ParseVersion(ver).Some? && !IsPartial(LeadingOf(ver))
    ensures ParseSpec(ver).Some?
    ensures SpecHolds(ParseSpec(ver).value, v) <==> CmpVersions(v, ParseVersion(ver).value) == 0
  {
    hide ParseSpec, SpecHolds, CmpVersions, LeadingOf, ParseVersion, Strip, IsVersionText, PartialClauses, ParseClause, GroupHolds;
    assert IsVersionText(ver) by { ParsedText(ver); }
    VersionTextHasNone(ver);
    BareClause(ver);
    var c := Clause(EqEq, ParseVersion(ver).value);
    FullIsOne(None, ver);
    assert Strip(ver) == ver;
    SpecOfClause(ver);
    OneClauseHolds(c, v);
  }

  lemma BareClause(ver: string)
    requires ver != "" && IsDigit(ver[0]) && '\n' !in ver
    ensures ParseClause(ver) == PartialClauses(None, ver)
  {
    hide PartialClauses, ReadOp, TrimLeft;
    DigitIsNoOp(ver);
    assert ver[0..] == ver;
    assert TrimLeft(ver, IsSpace) == ver by { DigitStays(ver); }
    assert ver[0] != '*';
  }

  lemma DigitStays(ver: string)
    requires ver != "" && IsDigit(ver[0])
    ensures TrimLeft(ver, IsSpace) == ver
  {
    hide TrimLeft;
    assert !IsSpace(ver[0]);
  }

  lemma DigitIsNoOp(ver: string)
    requires ver != "" && IsDigit(ver[0])
    ensures ReadOp(ver) == None
  {
    if |ver| > 1 { ReadsByFirstTwo(ver); }
  }

  /** A star, and no text at all, accept every version. */
  lemma AnyAccepts(v: Version)
    ensures ParseSpec("*").Some? && SpecHolds(ParseSpec("*").value, v)
    ensures ParseSpec("").Some? && SpecHolds(ParseSpec("").value, v)
  {
    hide ParseSpec, SpecHolds, ParseClause, GroupHolds, Strip, ClauseHolds;
    StarParses();
    assert Strip("*") == "*" && '|' !in "*" && ',' !in "*" by { StarIsPlain(); }
    SpecOfClause("*");
    NothingParses();
    OneGroupHolds([Clause(Any, ZERO)], v);
    AnyHolds(v);
  }

  lemma StarIsPlain()
    ensures Strip("*") == "*" && '|' !in "*" && ',' !in "*"
  {
  }

  lemma AnyHolds(v: Version)
    ensures GroupHolds([BARE_STAR], v)
  {
    hide CmpVersions;
  }

  lemma NothingParses()
    ensures ParseSpec("") == Some([[Clause(Any, ZERO)]])
  {
    assert SplitOn("", "||") == [""] && SplitOn("", ",") == [""];
    assert [""][1..] == [] && Strip("") == "";
    assert ParseGroup([""]) == ParseGroup([]) == Some([]);
    assert ParseGroups([""]) == Some([]);
  }

  // ---------------------------------------------------------------- the documented alternatives

  lemma MajorLeads(m: nat)
    ensures var ver := Decimal(m);
      && IsPartial(LeadingOf(ver)) && Number(LeadingOf(ver).major) == m && MinorOf(LeadingOf(ver)) == 0 && LeadingOf(ver).minor == ""
      && ver != "" && Trimmed(ver) && IsDigit(ver[0]) && '|' !in ver && ',' !in ver && '\n' !in ver
  {
    hide Decimal, Number;
    var ver := Decimal(m);
    NumberDecimal(m);
    assert OnlyDigits(ver);
    DigitsLenOf(ver, "");
    assert ver + "" == ver && ver[..|ver|] == ver && ver[|ver|..] == "";
    assert forall c | c in ver :: IsDigit(c);
    assert !IsSpace(ver[0]) && !IsSpace(ver[|ver| - 1]) by { DigitsAreVisible(ver); }
  }

  lemma DigitsAreVisible(s: string)
    requires AllDigits(s)
    ensures !IsSpace(s[0]) && !IsSpace(s[|s| - 1])
  {
  }

  /** `>=m || n`, the documented form, accepts every version from m.0.0 on and those of major version n. */
  lemma DocumentedAlternatives(m: nat, n: nat, v: Version)
    ensures var spec := ParseSpec(">=" + Decimal(m) + " || " + Decimal(n));
      && spec.Some?
      && (SpecHolds(spec.value, v) <==>
            || CmpVersions(v, Release(m, 0, 0)) >= 0
            || (CmpVersions(v, Release(n, 0, 0)) >= 0 && CmpVersions(v, Release(n + 1, 0, 0)) < 0))
  {
    hide ParseSpec, SpecHolds, CmpVersions, LeadingOf, PartialClauses, GroupHolds, Decimal, Strip, HasClause, Number;
    var a, b := ">=" + Decimal(m) + " ", " " + Decimal(n);
    MajorLeads(m);
    MajorLeads(n);
    AtLeastMajor(m, v);
    BareMajor(n, v);
    assert !EndsInBar(a) by { assert a[|a| - 1] == ' '; }
    AlternativesExactly(a, b, v);
    assert a + "||" + b == ">=" + Decimal(m) + " || " + Decimal(n);
  }

  lemma AtLeastMajor(m: nat, v: Version)
    ensures var text := ">=" + Decimal(m) + " ";
      && ParseSpec(text).Some? && HasClause(text)
      && (SpecHolds(ParseSpec(text).value, v) <==> CmpVersions(v, Release(m, 0, 0)) >= 0)
  {
    hide ParseSpec, SpecHolds, CmpVersions, LeadingOf, PartialClauses, GroupHolds, Decimal, Strip, HasClause, Number, ParseClause;
    var ver := Decimal(m);
    MajorLeads(m);
    var t := OpText(Ge) + Workflows.Spaces(0) + ver;
    assert t == ">=" + ver;
    ClauseOf(Ge, 0, ver);
    ClauseIsPlain(Ge, 0, ver);
    PartialRange(Some(Ge), ver, v);
    StripSpaceAfter(t);
    assert Strip(t) == t;
    assert '|' !in t + " " && ',' !in t + " ";
    SpecOfClause(t + " ");
  }

  lemma BareMajor(n: nat, v: Version)
    ensures var text := " " + Decimal(n);
      && ParseSpec(text).Some? && HasClause(text)
      && (SpecHolds(ParseSpec(text).value, v) <==>
            CmpVersions(v, Release(n, 0, 0)) >= 0 && CmpVersions(v, Release(n + 1, 0, 0)) < 0)
  {
    hide ParseSpec, SpecHolds, CmpVersions, LeadingOf, PartialClauses, GroupHolds, Decimal, Strip, HasClause, Number, ParseClause;
    var ver := Decimal(n);
    MajorLeads(n);
    BareClause(ver);
    PartialRange(None, ver, v);
    StripSpaceBefore(ver);
    assert Strip(ver) == ver;
    assert '|' !in " " + ver && ',' !in " " + ver;
    SpecOfClause(" " + ver);
  }

  // ---------------------------------------------------------------- the order itself

  /** Releases are ordered by major, then minor, then patch number. */
  lemma ReleasesExactly(a: nat, b: nat, c: nat, d: nat, e: nat, f: nat)
    ensures CmpVersions(Release(a, b, c), Release(d, e, f)) < 0
      <==> a < d || (a == d && (b < e || (b == e && c < f)))
    ensures CmpVersions(Release(a, b, c), Release(d, e, f)) == 0 <==> a == d && b == e && c == f
  {
    var x, y := [a, b, c], [d, e, f];
    assert Pad(x, 3) == x && Pad(y, 3) == y;
    assert x[1..] == [b, c] && y[1..] == [e, f] && [b, c][1..] == [c] && [e, f][1..] == [f] && [c][1..] == [] == [f][1..];
    assert Lex([c], [f]) == Sign(c - f);
    assert Lex([b, c], [e, f]) == if b != e then Sign(b - e) else Sign(c - f);
  }

  lemma {:induction false} CodesByCharacter(s: string, t: string)
    ensures Lex(Codes(s), Codes(t)) <= 0 <==> Ordering.Leq(s, t)
  {
    if s != "" && t != "" && s[0] == t[0] {
      CodesByCharacter(s[1..], t[1..]);
      assert Codes(s)[1..] == Codes(s[1..]) && Codes(t)[1..] == Codes(t[1..]);
    }
  }

  /** Of versions with the same numbers the tagged come before the untagged, and the tagged among themselves
      in the order of their characters. */
  lemma TagsExactly(nums: seq<nat>, s: string, t: string)
    ensures CmpVersions(Version("", nums, Some(s)), Version("", nums, Some(t))) <= 0 <==> Ordering.Leq(s, t)
    ensures CmpVersions(Version("", nums, Some(s)), Version("", nums, None)) < 0
  {
    hide CmpPadded, Lex;
    PaddedTotal(nums, nums);
    CodesByCharacter(s, t);
  }

  // ---------------------------------------------------------------- reading a version

  lemma {:induction false} NumbersReach(body: string, n: nat, k: nat)
    requires k <= n <= |body| && k > 0 && IsDotted(body[..k]) && IsRest(body[k..])
    requires forall i | k < i <= n :: !IsDotted(body[..i]) || !IsRest(body[i..])
    ensures NumbersLen(body, n) == k
  {
    hide IsDotted, IsRest;
    if n > k { NumbersReach(body, n - 1, k); }
  }

  lemma DottedHas(s: string, i: nat)
    requires i < |s| && IsDotted(s)
    ensures IsDigit(s[i]) || s[i] == '.'
  {
    hide SplitOn;
    var k := PartOf(s, '.', i);
    if s[i] != '.' {
      var part := SplitOn(s, ".")[k];
      assert AllDigits(part);
      var j :| 0 <= j < |part| && part[j] == s[i];
    }
  }

  /** Numbers between dots, and after a dash or a plus sign a tag, are read as they are written; a leading `v`
      makes no difference. */
  lemma VersionReads(parts: seq<string>, separator: char, tag: string, v: bool)
    requires parts != [] && AreNumbers(parts) && (separator == '-' || separator == '+') && IsTag(tag)
    ensures var body := Join(".", parts) + [separator] + tag;
      var text := (if v then "v" else "") + body;
      ParseVersion(text) == Some(Version(text, Numbers(parts), Some(tag)))
  {
    hide SplitOn, Join, Numbers, IsTag, NumbersLen, IsRest;
    var dotted := Join(".", parts);
    var body := dotted + [separator] + tag;
    var text := (if v then "v" else "") + body;
    DottedSplits(parts);
    assert body[..|dotted|] == dotted && body[|dotted|..] == [separator] + tag;
    assert IsRest([separator] + tag) && TagOf([separator] + tag) == Some(tag) by { SeparatedRest(separator, tag); }
    forall i | |dotted| < i <= |body| ensures !IsDotted(body[..i]) {
      assert body[..i][|dotted|] == separator;
      if IsDotted(body[..i]) { DottedHas(body[..i], |dotted|); }
    }
    NumbersReach(body, |body|, |dotted|);
    VersionEnds(parts, separator, tag, v);
  }

  lemma DottedSplits(parts: seq<string>)
    requires parts != [] && AreNumbers(parts)
    ensures SplitOn(Join(".", parts), ".") == parts && IsDotted(Join(".", parts)) && Join(".", parts) != ""
    ensures IsDigit(Join(".", parts)[0])
  {
    hide SplitOn;
    forall p | p in parts ensures '.' !in p {
      var i :| 0 <= i < |parts| && parts[i] == p;
      assert AllDigits(p);
    }
    SplitOnJoin(parts, '.');
    assert AllDigits(parts[0]);
    assert Join(".", parts)[0] == parts[0][0];
  }

  lemma SeparatedRest(separator: char, tag: string)
    requires (separator == '-' || separator == '+') && IsTag(tag)
    ensures IsRest([separator] + tag) && TagOf([separator] + tag) == Some(tag)
  {
    var r := [separator] + tag;
    assert r[1..] == tag && r[0] == separator;
    assert !IsTag(r);
  }

  lemma VersionEnds(parts: seq<string>, separator: char, tag: string, v: bool)
    requires parts != [] && AreNumbers(parts) && (separator == '-' || separator == '+') && IsTag(tag)
    ensures var body := Join(".", parts) + [separator] + tag;
      var text := (if v then "v" else "") + body;
      Strip(text) == text && DropV(text) == body
  {
    hide SplitOn, Join, Strip, DropV;
    DottedSplits(parts);
    var body := Join(".", parts) + [separator] + tag;
    assert body[0] == Join(".", parts)[0];
    assert body[|body| - 1] == tag[|tag| - 1] && IsTagChar(tag[|tag| - 1]);
    TextAndBody(body, v);
  }

  lemma TextAndBody(body: string, v: bool)
    requires body != "" && IsDigit(body[0]) && IsTagChar(body[|body| - 1])
    ensures var text := (if v then "v" else "") + body; Strip(text) == text && DropV(text) == body
  {
    hide TrimLeft, TrimRight;
    var text := (if v then "v" else "") + body;
    assert text[0..1] == [text[0]] && text[|text| - 1] == body[|body| - 1];
    assert v ==> text[1..] == body;
    assert !v ==> text == body;
    assert !IsSpace(text[0]) && !IsSpace(text[|text| - 1]) by { VisibleEnds(text[0], text[|text| - 1]); }
    assert Trimmed(text);
  }

  lemma VisibleEnds(a: char, b: char)
    requires (IsDigit(a) || a == 'v') && IsTagChar(b)
    ensures !IsSpace(a) && !IsSpace(b)
  {
  }
}
