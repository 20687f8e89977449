/** Printing a range specification and parsing it again (devrepro/core/versioning.py): every clause
    comes back except the one a bare `*` stands for, which comes back as a bounded range. */
module SpecRoundTrip {
  import opened Strings
  import opened Versioning
  import opened VersionOrders

  // ---------------------------------------------------------------- version texts

  predicate IsVersionChar(c: char) { IsTagChar(c) || c == '+' }

  /** A text that starts like a version and holds nothing a specification is split at. */
  predicate IsVersionText(s: string) {
    && s != "" && (IsDigit(s[0]) || s[0] == 'v')
    && forall i | 0 <= i < |s| :: IsVersionChar(s[i])
  }

  lemma {:induction false} DottedChars(s: string)
    requires IsDotted(s)
    ensures s != "" && IsDigit(s[0])
    ensures forall i | 0 <= i < |s| :: IsVersionChar(s[i])
  {
    var parts := SplitOn(s, ".");
    assert AllDigits(parts[0]);
    assert s[0] == parts[0][0];
    forall i | 0 <= i < |s| ensures IsVersionChar(s[i]) {
      var k := PartOf(s, '.', i);
      assert AllDigits(parts[k]);
    }
  }

  /** Every character that is not the separator lies in some part. */
  lemma {:induction false} PartOf(s: string, c: char, i: nat) returns (k: nat)
    requires i < |s|
    ensures k < |SplitOn(s, [c])|
    ensures s[i] == c || s[i] in SplitOn(s, [c])[k]
  {
    k := 0;
    assert s[..1] == [s[0]];
    if StartsWith(s, [c]) {
      if i > 0 {
        var q := PartOf(s[1..], c, i - 1);
        k := q + 1;
      }
    } else if i > 0 {
      k := PartOf(s[1..], c, i - 1);
      assert SplitOn(s, [c])[k] == (if k == 0 then [s[0]] else []) + SplitOn(s[1..], [c])[k];
    }
  }

  lemma RestChars(r: string)
    requires IsRest(r)
    ensures forall i | 0 <= i < |r| :: IsVersionChar(r[i])
  {
    if r != "" && !IsTag(r) && |r| > 1 {
      assert forall i | 1 <= i < |r| :: r[i] == r[1..][i - 1];
    }
  }

  lemma ParsedBody(body: string)
    requires NumbersLen(body, |body|) > 0
    ensures body != "" && IsDigit(body[0])
    ensures forall i | 0 <= i < |body| :: IsVersionChar(body[i])
  {
    hide IsDotted, IsRest, IsVersionChar;
    var n := NumbersLen(body, |body|);
    var head, tail := body[..n], body[n..];
    DottedChars(head);
    RestChars(tail);
    assert forall i | 0 <= i < n :: body[i] == head[i];
    assert forall i | n <= i < |body| :: body[i] == tail[i - n];
  }

  /** A parsed version keeps the trimmed text, which parses to the same version again. */
  lemma ParsedText(raw: string)
    requires ParseVersion(raw).Some?
    ensures var v := ParseVersion(raw).value;
      v.raw == Strip(raw) && ParseVersion(v.raw) == Some(v) && IsVersionText(v.raw)
  {
    hide NumbersLen, DropV, Numbers, TagOf, IsVersionText, SplitOn, IsVersionChar;
    ParsedBody(DropV(Strip(raw)));
    DropVChars(Strip(raw));
  }

  lemma DropVChars(text: string)
    requires DropV(text) != "" && IsDigit(DropV(text)[0])
    requires forall i | 0 <= i < |DropV(text)| :: IsVersionChar(DropV(text)[i])
    ensures IsVersionText(text)
  {
    if StartsWith(text, "v") {
      assert text[0..1] == "v" && text == "v" + text[1..];
    }
  }

  // ---------------------------------------------------------------- numbers

  lemma {:induction false} NumberDecimal(n: nat)
    ensures Number(Decimal(n)) == n
  {
    var s := Decimal(n);
    var last := (n % 10) as char + '0';
    assert DigitValue(last) == n % 10;
    if n >= 10 {
      NumberDecimal(n / 10);
      assert s[..|s| - 1] == Decimal(n / 10);
    } else {
      assert s == [last] && s[..0] == "";
    }
  }

  /** The text `x.y.0`. */
  function Triple(x: string, y: string): string { x + "." + y + ".0" }

  lemma TripleSplits(x: string, y: string)
    requires AllDigits(x) && AllDigits(y)
    ensures SplitOn(Triple(x, y), ".") == [x, y, "0"]
  {
    assert Triple(x, y) == x + ['.'] + (y + ['.'] + "0");
    SplitOnFirst(x, '.', y + ['.'] + "0");
    SplitOnFirst(y, '.', "0");
    SplitOnNone("0", '.');
  }

  lemma TripleParses(x: string, y: string)
    requires AllDigits(x) && AllDigits(y)
    ensures ParseVersion(Triple(x, y)) == Some(Version(Triple(x, y), [Number(x), Number(y), 0], None))
  {
    hide IsRest, IsTag;
    var t := Triple(x, y);
    TripleSplits(x, y);
    assert Trimmed(t) && DropV(t) == t by { TripleEnds(x, y); }
    assert t[..|t|] == t && t[|t|..] == "";
    assert IsDotted(t) && IsRest("") by { EmptyRest(); }
    assert NumbersLen(t, |t|) == |t|;
    ThreeNumbers(x, y);
  }

  lemma TripleEnds(x: string, y: string)
    requires AllDigits(x) && AllDigits(y)
    ensures Trimmed(Triple(x, y)) && DropV(Triple(x, y)) == Triple(x, y)
  {
    var t := Triple(x, y);
    assert IsDigit(t[0]) && t[|t| - 1] == '0';
    assert t[0..1] == [t[0]];
  }

  lemma EmptyRest()
    ensures IsRest("") && TagOf("") == None
  {
  }

  lemma ThreeNumbers(x: string, y: string)
    requires AllDigits(x) && AllDigits(y)
    ensures AreNumbers([x, y, "0"]) && Numbers([x, y, "0"]) == [Number(x), Number(y), 0]
  {
    assert [x, y, "0"][1..] == [y, "0"] && [y, "0"][1..] == ["0"] && ["0"][1..] == [];
    assert Numbers(["0"]) == [Number("0")] + Numbers([]);
    assert "0"[..0] == "" && Number("") == 0;
  }

  lemma {:induction false} DigitsLenOf(x: string, rest: string)
    requires OnlyDigits(x) && (rest == "" || !IsDigit(rest[0]))
    ensures DigitsLen(x + rest) == |x|
  {
    if x == "" {
      assert x + rest == rest;
    } else {
      assert (x + rest)[1..] == x[1..] + rest;
      DigitsLenOf(x[1..], rest);
    }
  }

  lemma DotDigitsOf(y: string, rest: string)
    requires AllDigits(y) && (rest == "" || !IsDigit(rest[0]))
    ensures DotDigits("." + y + rest) == y
  {
    var s := "." + y + rest;
    assert s[1..] == y + rest;
    DigitsLenOf(y, rest);
    assert s[1..1 + |y|] == y;
  }

  lemma TripleLeading(x: string, y: string)
    requires AllDigits(x) && AllDigits(y)
    ensures LeadingOf(Triple(x, y)) == Leading(x, y, "0")
  {
    hide DigitsLen, DotDigits;
    var t := Triple(x, y);
    var afterMajor := "." + y + ".0";
    assert t == x + afterMajor;
    DigitsLenOf(x, afterMajor);
    assert t[..|x|] == x && t[|x|..] == afterMajor;
    DotDigitsOf(y, ".0");
    var afterMinor := afterMajor[1 + |y|..];
    assert afterMinor == ".0";
    assert "." + "0" + "" == ".0";
    DotDigitsOf("0", "");
  }

  // ---------------------------------------------------------------- clauses

  const BARE_STAR := Clause(Any, ZERO)

  /** A clause that its own text parses back to. */
  predicate IsStable(c: Clause) {
    && ParseVersion(c.version.raw) == Some(c.version)
    && var l := LeadingOf(c.version.raw);
       !IsPartial(l) || c.op == Ne || ((c.op == Lt || c.op == Le) && l.minor != "")
  }

  predicate AreStable(cs: seq<Clause>) {
    forall i | 0 <= i < |cs| :: IsStable(cs[i])
  }

  lemma OneStable(op: Op, raw: string)
    requires One(op, raw).Some? && Trimmed(raw)
    requires !IsPartial(LeadingOf(raw)) || op == Ne || ((op == Lt || op == Le) && LeadingOf(raw).minor != "")
    ensures AreStable(One(op, raw).value)
  {
    hide LeadingOf, ParseVersion, Strip, IsVersionText, IsPartial;
    ParsedText(raw);
    assert Strip(raw) == raw;
    assert One(op, raw).value == [Clause(op, ParseVersion(raw).value)];
  }

  lemma LowerTriple(l: Leading)
    requires OnlyDigits(l.major) && OnlyDigits(l.minor)
    ensures var y := if l.minor == "" then "0" else l.minor;
      AllDigits(y) && LowerText(l) == Triple(Decimal(Number(l.major)), y)
    ensures UpperText(l) == Triple(Decimal(Number(l.major) + 1), "0")
  {
    hide Decimal, Number;
  }

  lemma BoundsStable(l: Leading)
    requires OnlyDigits(l.major) && OnlyDigits(l.minor)
    ensures One(Ge, LowerText(l)).Some? && AreStable(One(Ge, LowerText(l)).value)
    ensures One(Lt, UpperText(l)).Some? && AreStable(One(Lt, UpperText(l)).value)
  {
    hide LeadingOf, ParseVersion, Triple, LowerText, UpperText, Decimal, Number;
    var x, x' := Decimal(Number(l.major)), Decimal(Number(l.major) + 1);
    var y := if l.minor == "" then "0" else l.minor;
    TripleParses(x, y);
    TripleLeading(x, y);
    TripleParses(x', "0");
    TripleLeading(x', "0");
    LowerTriple(l);
  }

  lemma PartialClausesStable(op: Option<Op>, ver: string)
    requires Trimmed(ver) && PartialClauses(op, ver).Some?
    ensures AreStable(PartialClauses(op, ver).value) && PartialClauses(op, ver).value != []
  {
    hide IsStable, LeadingOf, ParseVersion, LowerText, UpperText;
    var l := LeadingOf(ver);
    BoundsStable(l);
    if !IsPartial(l) {
      OneStable(if op.None? then EqEq else op.value, ver);
    } else if op == Some(Ne) || (l.minor != "" && (op == Some(Lt) || op == Some(Le))) {
      OneStable(op.value, ver);
    }
  }

  lemma ParseClauseStable(text: string)
    requires Trimmed(text) && text != "" && ParseClause(text).Some?
    ensures ParseClause(text).value != []
    ensures text == "*" || AreStable(ParseClause(text).value)
  {
    hide IsStable, PartialClauses;
    if text != "*" {
      var op := ReadOp(text);
      var n := if op.None? then 0 else |OpText(op.value)|;
      var ver := TrimLeft(text[n..], IsSpace);
      assert ver[|ver| - 1] == text[|text| - 1];
      PartialClausesStable(op, ver);
    }
  }

  /** What a clause's text may contain. */
  predicate IsClauseText(t: string) {
    t != "" && Trimmed(t) && ',' !in t && '|' !in t
  }

  lemma VersionTextPlain(op: Op, raw: string)
    requires IsVersionText(raw)
    ensures IsClauseText(OpText(op) + raw) && OpText(op) + raw != "*"
    ensures Trimmed(raw) && '\n' !in raw
    ensures ReadOp(OpText(op) + raw) == Some(op)
  {
    hide ReadOp;
    var t := OpText(op) + raw;
    assert forall i | 0 <= i < |raw| :: IsVersionChar(raw[i]);
    ReadsOp(op, raw);
  }

  lemma ReadsOp(op: Op, raw: string)
    requires raw != "" && (IsDigit(raw[0]) || raw[0] == 'v')
    ensures ReadOp(OpText(op) + raw) == Some(op)
  {
    var t := OpText(op) + raw;
    assert t[0..1] == [t[0]];
    if |t| > 1 { assert t[0..2] == [t[0], t[1]]; }
  }

  /** Printing a stable clause and parsing the text gives the clause. */
  lemma StableReparses(c: Clause)
    requires IsStable(c)
    ensures IsClauseText(ClauseText(c)) && ParseClause(ClauseText(c)) == Some([c])
  {
    hide ParseVersion, ReadOp, IsClauseText, IsVersionText, PartialClauses, OpText, IsStable;
    var raw := c.version.raw;
    StableText(c);
    VersionTextPlain(c.op, raw);
    VersionTextNonempty(raw);
    var t := ClauseText(c);
    assert t[|OpText(c.op)|..] == raw;
    StableClauses(c);
  }

  lemma StableText(c: Clause)
    requires IsStable(c)
    ensures IsVersionText(c.version.raw)
  {
    hide ParseVersion, LeadingOf, IsVersionText;
    ParsedText(c.version.raw);
  }

  lemma StableClauses(c: Clause)
    requires IsStable(c)
    ensures PartialClauses(Some(c.op), c.version.raw) == Some([c])
  {
    hide ParseVersion, LeadingOf, LowerText, UpperText;
    assert PartialClauses(Some(c.op), c.version.raw) == One(c.op, c.version.raw);
  }

  lemma VersionTextNonempty(raw: string)
    requires IsVersionText(raw)
    ensures raw != ""
  {
  }

  /** The range a printed `*` is read back as. */
  function UnitRange(): seq<Clause> {
    [Clause(Ge, Version("0.0.0", [0, 0, 0], None)), Clause(Lt, Version("1.0.0", [1, 0, 0], None))]
  }

  lemma ZeroLeading()
    ensures LeadingOf("0") == Leading("0", "", "")
  {
    assert "0" + "" == "0";
    DigitsLenOf("0", "");
    assert "0"[1..] == "" && "0"[..1] == "0";
  }

  lemma SmallNumbers()
    ensures Number("0") == 0 && Decimal(0) == "0" && Decimal(1) == "1" && Number("1") == 1
  {
    assert "0"[..0] == "" && "1"[..0] == "";
  }

  lemma UnitBounds()
    ensures var l := Leading("0", "", "");
      One(Ge, LowerText(l)) == Some([UnitRange()[0]]) && One(Lt, UpperText(l)) == Some([UnitRange()[1]])
  {
    hide ParseVersion, Number, Decimal;
    var l := Leading("0", "", "");
    SmallNumbers();
    assert LowerText(l) == Triple("0", "0") && UpperText(l) == Triple("1", "0");
    TripleParses("0", "0");
    TripleParses("1", "0");
    assert Triple("0", "0") == "0.0.0" && Triple("1", "0") == "1.0.0";
  }

  lemma StarText()
    ensures ClauseText(BARE_STAR) == "*0" && IsClauseText("*0")
    ensures ReadOp("*0") == Some(Any) && "*0" != "*" && "*0"[1..] == "0"
  {
    assert "*" + "0" == "*0";
  }

  lemma StarClauses()
    ensures PartialClauses(Some(Any), "0") == Some(UnitRange())
  {
    hide One, LeadingOf, LowerText, UpperText, UnitRange;
    ZeroLeading();
    UnitBounds();
    assert [UnitRange()[0]] + [UnitRange()[1]] == UnitRange() by { TwoBounds(); }
  }

  lemma TwoBounds()
    ensures |UnitRange()| == 2 && [UnitRange()[0]] + [UnitRange()[1]] == UnitRange()
  {
  }

  lemma StarReparses()
    ensures ClauseText(BARE_STAR) == "*0" && IsClauseText("*0")
    ensures ParseClause("*0") == Some(UnitRange())
  {
    hide PartialClauses, ReadOp, ClauseText, IsClauseText, UnitRange;
    StarText();
    StarClauses();
    assert !IsSpace("0"[0]) && "0" != "";
  }

  // ---------------------------------------------------------------- specifications

  /** A clause some specification text parses to. */
  predicate IsParsed(c: Clause) { c == BARE_STAR || IsStable(c) }

  predicate IsParsedGroup(g: seq<Clause>) {
    g != [] && forall i | 0 <= i < |g| :: IsParsed(g[i])
  }

  predicate IsParsedSpec(s: SpecSet) {
    s != [] && forall i | 0 <= i < |s| :: IsParsedGroup(s[i])
  }

  lemma {:induction false} ParseGroupShape(parts: seq<string>)
    requires ParseGroup(parts).Some?
    ensures forall i | 0 <= i < |ParseGroup(parts).value| :: IsParsed(ParseGroup(parts).value[i])
  {
    hide IsStable, ParseClause, Strip;
    if parts != [] {
      ParseGroupShape(parts[1..]);
      var text := Strip(parts[0]);
      if text != "" {
        ParseClauseStable(text);
        if text == "*" { assert ParseClause("*") == Some([BARE_STAR]) by { StarParses(); } }
      }
    }
  }

  lemma StarParses()
    ensures ParseClause("*") == Some([BARE_STAR])
  {
  }

  lemma {:induction false} ParseGroupsShape(texts: seq<string>)
    requires ParseGroups(texts).Some?
    ensures forall i | 0 <= i < |ParseGroups(texts).value| :: IsParsedGroup(ParseGroups(texts).value[i])
  {
    hide IsParsed, ParseGroup, SplitOn;
    if texts != [] {
      ParseGroupShape(SplitOn(texts[0], ","));
      ParseGroupsShape(texts[1..]);
    }
  }

  /** Everything `parse_spec` returns has nonempty groups of clauses that are stable or a bare star. */
  lemma ParseSpecShape(text: string)
    requires ParseSpec(text).Some?
    ensures IsParsedSpec(ParseSpec(text).value)
  {
    hide ParseGroups, SplitOn, IsStable;
    ParseGroupsShape(SplitOn(text, "||"));
  }

  function ReparsedClause(c: Clause): seq<Clause> {
    if c == BARE_STAR then UnitRange() else [c]
  }

  function ReparsedGroup(g: seq<Clause>): seq<Clause> {
    if g == [] then [] else ReparsedClause(g[0]) + ReparsedGroup(g[1..])
  }

  function ReparsedSpec(s: SpecSet): (r: SpecSet)
    ensures |r| == |s| && forall i | 0 <= i < |r| :: r[i] == ReparsedGroup(s[i])
  {
    seq(|s|, i requires 0 <= i < |s| => ReparsedGroup(s[i]))
  }

  lemma ParsedReparses(c: Clause)
    requires IsParsed(c)
    ensures IsClauseText(ClauseText(c)) && ParseClause(ClauseText(c)) == Some(ReparsedClause(c))
  {
    hide IsStable, ParseClause, ClauseText, IsClauseText, UnitRange;
    if c == BARE_STAR { StarReparses(); } else { StableReparses(c); }
  }

  lemma {:induction false} GroupReparses(g: seq<Clause>)
    requires forall i | 0 <= i < |g| :: IsParsed(g[i])
    ensures ParseGroup(ClauseTexts(g)) == Some(ReparsedGroup(g))
  {
    hide IsParsed, ParseClause, ClauseText, Strip, ReparsedClause;
    if g != [] {
      var texts := ClauseTexts(g);
      ParsedReparses(g[0]);
      assert Strip(texts[0]) == texts[0];
      assert texts[1..] == ClauseTexts(g[1..]);
      GroupReparses(g[1..]);
    }
  }

  lemma {:induction false} JoinAvoids(sep: string, parts: seq<string>, c: char)
    requires c !in sep && forall i | 0 <= i < |parts| :: c !in parts[i]
    ensures c !in Join(sep, parts)
  {
    if |parts| > 1 {
      JoinAvoids(sep, parts[1..], c);
    }
  }

  lemma ClauseTextsPlain(g: seq<Clause>)
    requires IsParsedGroup(g)
    ensures SplitOn(GroupText(g), ",") == ClauseTexts(g) && '|' !in GroupText(g)
  {
    hide IsParsed, ClauseText;
    var texts := ClauseTexts(g);
    forall i | 0 <= i < |texts| ensures ',' !in texts[i] && '|' !in texts[i] {
      ParsedReparses(g[i]);
    }
    JoinAvoids(",", texts, '|');
    SplitOnJoin(texts, ',');
  }

  // ---------------------------------------------------------------- padding around groups

  lemma {:induction false} ParseGroupStripped(a: seq<string>, b: seq<string>)
    requires |a| == |b| && forall i | 0 <= i < |a| :: Strip(a[i]) == Strip(b[i])
    ensures ParseGroup(a) == ParseGroup(b)
  {
    hide Strip, ParseClause;
    if a != [] { ParseGroupStripped(a[1..], b[1..]); }
  }

  lemma StripSpaceBefore(s: string)
    ensures Strip(" " + s) == Strip(s)
  {
    assert (" " + s)[1..] == s;
  }

  lemma {:induction false} TrimLeftSpaceAfter(s: string)
    ensures TrimLeft(s + " ", IsSpace)
         == if TrimLeft(s, IsSpace) == "" then "" else TrimLeft(s, IsSpace) + " "
  {
    if s == "" {
      assert s + " " == " " && " "[1..] == "";
    } else if IsSpace(s[0]) {
      assert (s + " ")[1..] == s[1..] + " ";
      TrimLeftSpaceAfter(s[1..]);
    }
  }

  lemma StripSpaceAfter(s: string)
    ensures Strip(s + " ") == Strip(s)
  {
    TrimLeftSpaceAfter(s);
    var t := TrimLeft(s, IsSpace);
    if t != "" { assert (t + " ")[..|t|] == t; }
  }

  lemma SplitSpaceBefore(s: string)
    ensures SplitOn(" " + s, ",") == [" " + SplitOn(s, ",")[0]] + SplitOn(s, ",")[1..]
  {
    var t := " " + s;
    assert t[0..1] == " " && t[1..] == s;
    assert !StartsWith(t, ",");
  }

  /** A list of parts with a space after the last. */
  function SpaceLast(parts: seq<string>): seq<string>
    requires parts != []
  {
    parts[..|parts| - 1] + [parts[|parts| - 1] + " "]
  }

  lemma SpaceLastFirst(head: string, parts: seq<string>)
    requires parts != []
    ensures SpaceLast([head] + parts) == [head] + SpaceLast(parts)
    ensures SpaceLast([head + parts[0]] + parts[1..])
         == [head + SpaceLast(parts)[0]] + SpaceLast(parts)[1..]
  {
    if |parts| == 1 {
      assert head + (parts[0] + " ") == head + parts[0] + " ";
    }
  }

  lemma {:induction false} SplitSpaceAfter(s: string)
    ensures SplitOn(s + " ", ",") == SpaceLast(SplitOn(s, ","))
  {
    hide SplitOn, SpaceLast;
    var t := s + " ";
    if s == "" {
      SplitOnNone(" ", ',');
      SplitOnNone("", ',');
      assert t == " " && SpaceLast([""]) == [" "] by { SpaceAlone(); }
    } else {
      assert t[0] == s[0] && t[1..] == s[1..] + " ";
      SplitSpaceAfter(s[1..]);
      SplitOnStep(s, ',');
      SplitOnStep(t, ',');
      var rest := SplitOn(s[1..], ",");
      SpaceLastFirst("", rest);
      SpaceLastFirst([s[0]], rest);
    }
  }

  lemma SpaceAlone()
    ensures SpaceLast([""]) == [" "]
  {
    assert [""][..0] == [] && "" + " " == " ";
  }

  /** Spaces around a group do not matter. */
  lemma GroupSpaces(g: string)
    ensures ParseGroup(SplitOn(" " + g, ",")) == ParseGroup(SplitOn(g, ","))
    ensures ParseGroup(SplitOn(g + " ", ",")) == ParseGroup(SplitOn(g, ","))
  {
    hide ParseGroup, SplitOn, Strip;
    var parts := SplitOn(g, ",");
    SplitSpaceBefore(g);
    StripSpaceBefore(parts[0]);
    ParseGroupStripped(SplitOn(" " + g, ","), parts);
    SplitSpaceAfter(g);
    StripSpaceAfter(parts[|parts| - 1]);
    assert forall i | 0 <= i < |parts| - 1 :: SpaceLast(parts)[i] == parts[i];
    ParseGroupStripped(SplitOn(g + " ", ","), parts);
  }

  // ---------------------------------------------------------------- alternatives

  lemma {:induction false} SplitBarsFirst(l: string, rest: string)
    requires '|' !in l
    ensures SplitOn(l + "||" + rest, "||") == [l] + SplitOn(rest, "||")
  {
    var s := l + "||" + rest;
    if l == "" {
      assert s[..2] == "||" && s[2..] == rest;
    } else {
      assert s[0] == l[0] && l[0] in l;
      assert s[1..] == l[1..] + "||" + rest;
      assert !StartsWith(s, "||") by { assert s[0..2][0] == l[0]; }
      SplitBarsFirst(l[1..], rest);
      assert [l[0]] + l[1..] == l;
    }
  }

  lemma {:induction false} SplitBarsNone(l: string)
    requires '|' !in l
    ensures SplitOn(l, "||") == [l]
  {
    if l != "" {
      assert l[0] in l;
      assert !StartsWith(l, "||") by { if |l| >= 2 { assert l[0..2][0] == l[0]; } }
      SplitBarsNone(l[1..]);
      assert [l[0]] + l[1..] == l;
    }
  }

  lemma SpacesAvoidBars(g: string)
    requires '|' !in g
    ensures '|' !in " " + g && '|' !in g + " " && '|' !in " " + g + " "
  {
  }

  /** The groups of a printed specification, from the given lead-in on. */
  lemma {:induction false} GroupsReparse(spec: SpecSet, spaced: bool)
    requires IsParsedSpec(spec)
    ensures ParseGroups(SplitOn((if spaced then " " else "") + SpecText(spec), "||"))
         == Some(ReparsedSpec(spec))
  {
    hide SplitOn, ParseGroup, GroupText, IsParsedGroup, ReparsedGroup;
    var lead := if spaced then " " else "";
    var g := GroupText(spec[0]);
    assert IsParsedGroup(spec[0]);
    ClauseTextsPlain(spec[0]);
    GroupParses(spec[0], spaced);
    SpacesAvoidBars(g);
    if |spec| == 1 {
      assert SpecText(spec) == g && lead + g == (if spaced then " " + g else g);
      SplitBarsNone(lead + g);
      LastGroup(spec, lead + g);
    } else {
      var rest := spec[1..];
      assert GroupTexts(spec)[1..] == GroupTexts(rest);
      assert lead + SpecText(spec) == (lead + g + " ") + "||" + (" " + SpecText(rest));
      SplitBarsFirst(lead + g + " ", " " + SpecText(rest));
      GroupsReparse(rest, true);
      FirstGroup(spec, lead + g + " ", SplitOn(" " + SpecText(rest), "||"));
    }
  }

  lemma GroupParses(g: seq<Clause>, spaced: bool)
    requires IsParsedGroup(g)
    ensures var lead := if spaced then " " else "";
      && ParseGroup(SplitOn(lead + GroupText(g), ",")) == Some(ReparsedGroup(g))
      && ParseGroup(SplitOn(lead + GroupText(g) + " ", ",")) == Some(ReparsedGroup(g))
    ensures ReparsedGroup(g) != []
  {
    hide SplitOn, ParseGroup, IsParsed, GroupText, UnitRange;
    ClauseTextsPlain(g);
    GroupReparses(g);
    var t := GroupText(g);
    GroupSpaces(t);
    GroupSpaces(" " + t);
    assert "" + t == t;
    assert ReparsedClause(g[0]) != [] by { UnitNonempty(); }
  }

  lemma UnitNonempty()
    ensures UnitRange() != []
  {
  }

  lemma LastGroup(spec: SpecSet, text: string)
    requires |spec| == 1 && ParseGroup(SplitOn(text, ",")) == Some(ReparsedGroup(spec[0]))
    requires ReparsedGroup(spec[0]) != []
    ensures ParseGroups([text]) == Some(ReparsedSpec(spec))
  {
    hide SplitOn, ParseGroup, ReparsedGroup;
    assert [text][1..] == [];
    assert ParseGroups([]) == Some([]);
    var g := ReparsedGroup(spec[0]);
    assert ParseGroups([text]) == Some([g] + []);
    assert ReparsedSpec(spec) == [g] && [g] + [] == [g];
  }

  lemma FirstGroup(spec: SpecSet, text: string, texts: seq<string>)
    requires spec != [] && ParseGroup(SplitOn(text, ",")) == Some(ReparsedGroup(spec[0]))
    requires ReparsedGroup(spec[0]) != []
    requires ParseGroups(texts) == Some(ReparsedSpec(spec[1..]))
    ensures ParseGroups([text] + texts) == Some(ReparsedSpec(spec))
  {
    hide SplitOn, ParseGroup, ReparsedGroup;
    assert ([text] + texts)[1..] == texts;
    assert ReparsedSpec(spec) == [ReparsedGroup(spec[0])] + ReparsedSpec(spec[1..]);
  }

  /** Printing a parsed specification and parsing the text gives it back, with every bare star
      replaced by the range from 0.0.0 to below 1.0.0 and nothing else changed. */
  lemma SpecReparses(text: string)
    requires ParseSpec(text).Some?
    ensures var s := ParseSpec(text).value;
      ParseSpec(SpecText(s)) == Some(ReparsedSpec(s))
  {
    hide ParseGroups, SplitOn, SpecText;
    var s := ParseSpec(text).value;
    ParseSpecShape(text);
    GroupsReparse(s, false);
    assert "" + SpecText(s) == SpecText(s);
  }

  predicate HasBareStar(s: SpecSet) {
    exists i | 0 <= i < |s| :: BARE_STAR in s[i]
  }

  lemma {:induction false} ReparsedLength(g: seq<Clause>)
    ensures BARE_STAR !in g ==> ReparsedGroup(g) == g
    ensures BARE_STAR in g ==> |ReparsedGroup(g)| > |g|
    ensures |ReparsedGroup(g)| >= |g|
  {
    if g != [] {
      ReparsedLength(g[1..]);
      assert BARE_STAR in g <==> g[0] == BARE_STAR || BARE_STAR in g[1..];
    }
  }

  /** The round trip holds exactly for the specifications without a bare star. */
  lemma SpecRoundTripExactly(text: string)
    requires ParseSpec(text).Some?
    ensures var s := ParseSpec(text).value;
      ParseSpec(SpecText(s)) == Some(s) <==> !HasBareStar(s)
  {
    hide ParseSpec, SpecText, ReparsedGroup;
    var s := ParseSpec(text).value;
    SpecReparses(text);
    forall i | 0 <= i < |s| ensures ReparsedSpec(s)[i] == s[i] <==> BARE_STAR !in s[i] {
      ReparsedLength(s[i]);
    }
    if !HasBareStar(s) {
      assert ReparsedSpec(s) == s;
    }
  }

  // ---------------------------------------------------------------- partial versions

  /** The untagged version with three numbers. */
  function Release(major: nat, minor: nat, patch: nat): Version {
    Version("", [major, minor, patch], None)
  }

  /** Number of an optional minor part. */
  function MinorOf(l: Leading): nat
    requires OnlyDigits(l.minor)
  {
    if l.minor == "" then 0 else Number(l.minor)
  }

  lemma BoundClauses(l: Leading, v: Version)
    requires OnlyDigits(l.major) && OnlyDigits(l.minor)
    ensures One(Ge, LowerText(l)).Some? && One(Lt, UpperText(l)).Some?
    ensures |One(Ge, LowerText(l)).value| == 1 == |One(Lt, UpperText(l)).value|
    ensures ClauseHolds(One(Ge, LowerText(l)).value[0], v)
      <==> CmpVersions(v, Release(Number(l.major), MinorOf(l), 0)) >= 0
    ensures ClauseHolds(One(Lt, UpperText(l)).value[0], v)
      <==> CmpVersions(v, Release(Number(l.major) + 1, 0, 0)) < 0
  {
    hide ParseVersion, Number, Decimal, CmpPadded, CmpTags;
    var m := Number(l.major);
    var y := if l.minor == "" then "0" else l.minor;
    SmallNumbers();
    NumberDecimal(m);
    NumberDecimal(m + 1);
    assert LowerText(l) == Triple(Decimal(m), y) && UpperText(l) == Triple(Decimal(m + 1), "0");
    TripleParses(Decimal(m), y);
    TripleParses(Decimal(m + 1), "0");
  }

  /** What a partial version accepts, by operator, M being its major number and m its minor (0 when
      absent): bare, `=`, `==` and `*` the range from M.m.0 to below (M+1).0.0; `>` and `>=` alike
      everything from M.m.0; `<` and `<=` of a lone major number alike everything below (M+1).0.0. */
  lemma PartialRange(op: Option<Op>, ver: string, v: Version)
    requires IsPartial(LeadingOf(ver))
    requires op != Some(Ne) && (op == Some(Lt) || op == Some(Le) ==> LeadingOf(ver).minor == "")
    ensures var l := LeadingOf(ver);
      var from := CmpVersions(v, Release(Number(l.major), MinorOf(l), 0)) >= 0;
      var below := CmpVersions(v, Release(Number(l.major) + 1, 0, 0)) < 0;
      && PartialClauses(op, ver).Some?
      && (GroupHolds(PartialClauses(op, ver).value, v) <==>
            if op == Some(Gt) || op == Some(Ge) then from
            else if op == Some(Lt) || op == Some(Le) then below
            else from && below)
  {
    hide LeadingOf, One, LowerText, UpperText, ClauseHolds, CmpVersions, Number;
    var l := LeadingOf(ver);
    BoundClauses(l, v);
    var lower, upper := One(Ge, LowerText(l)).value, One(Lt, UpperText(l)).value;
    assert lower == [lower[0]] && upper == [upper[0]];
    if op == None || op == Some(Any) || op == Some(Eq) || op == Some(EqEq) {
      var both := lower + upper;
      assert both[0] == lower[0] && both[1] == upper[0];
    }
  }

  /** So `<M` accepts every release of major version M itself. */
  lemma StrictBoundAdmitsMajor(ver: string, minor: nat, patch: nat)
    requires IsPartial(LeadingOf(ver)) && LeadingOf(ver).minor == ""
    ensures PartialClauses(Some(Lt), ver).Some?
    ensures GroupHolds(PartialClauses(Some(Lt), ver).value, Release(Number(LeadingOf(ver).major), minor, patch))
  {
    hide LeadingOf, PartialClauses, GroupHolds, Number;
    var m := Number(LeadingOf(ver).major);
    PartialRange(Some(Lt), ver, Release(m, minor, patch));
    assert Pad([m, minor, patch], 3) == [m, minor, patch] && Pad([m + 1, 0, 0], 3) == [m + 1, 0, 0];
  }
}
