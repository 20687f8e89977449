/** Versions, the two orders on them, and range specifications (devrepro/core/versioning.py).
    A ValueError is None. */
module Versioning {
  import opened Strings

  datatype Version = Version(raw: string, nums: seq<nat>, tag: Option<string>)

  // ---------------------------------------------------------------- parsing a version

  predicate OnlyDigits(s: string) {
    forall i | 0 <= i < |s| :: IsDigit(s[i])
  }

  predicate AllDigits(s: string) { s != "" && OnlyDigits(s) }

  predicate AreNumbers(parts: seq<string>) {
    forall i | 0 <= i < |parts| :: AllDigits(parts[i])
  }

  /** `\d+(\.\d+)*` */
  predicate IsDotted(s: string) {
    AreNumbers(SplitOn(s, "."))
  }

  predicate IsTagChar(c: char) { IsAsciiLetter(c) || IsDigit(c) || c == '.' || c == '-' }

  predicate IsTag(s: string) {
    && s != "" && (IsAsciiLetter(s[0]) || IsDigit(s[0]))
    && forall i | 0 <= i < |s| :: IsTagChar(s[i])
  }

  predicate IsTagSeparator(c: char) { c == '.' || c == '-' || c == '+' }

  /** What may follow the numbers: an optional separator and an optional tag. */
  predicate IsRest(r: string) {
    || r == "" || IsTag(r)
    || (IsTagSeparator(r[0]) && (|r| == 1 || IsTag(r[1..])))
  }

  function TagOf(r: string): Option<string>
    requires IsRest(r)
  {
    if r == "" then None
    else if IsTag(r) then Some(r)
    else if |r| == 1 then None
    else Some(r[1..])
  }

  /** The longest dotted prefix, at most n long, whose remainder is a tag; 0 for none.  This is the
      order a backtracking matcher tries them in. */
  function NumbersLen(body: string, n: nat): (r: nat)
    requires n <= |body|
    ensures r <= n
    ensures r > 0 ==> IsDotted(body[..r]) && IsRest(body[r..])
  {
    if n == 0 then 0
    else if IsDotted(body[..n]) && IsRest(body[n..]) then n
    else NumbersLen(body, n - 1)
  }

  /** `int(s)` on decimal digits. */
  function Number(s: string): nat
    requires OnlyDigits(s)
  {
    if s == "" then 0 else 10 * Number(s[..|s| - 1]) + DigitValue(s[|s| - 1])
  }

  function Numbers(parts: seq<string>): (nums: seq<nat>)
    requires AreNumbers(parts)
    ensures |nums| == |parts|
  {
    if parts == [] then []
    else
      assert AllDigits(parts[0]);
      [Number(parts[0])] + Numbers(parts[1..])
  }

  function DropV(text: string): string {
    if StartsWith(text, "v") then text[1..] else text
  }

  function ParseVersion(raw: string): Option<Version> {
    var text := Strip(raw);
    var body := DropV(text);
    var n := NumbersLen(body, |body|);
    if n == 0 then None
    else Some(Version(text, Numbers(SplitOn(body[..n], ".")), TagOf(body[n..])))
  }

  // ---------------------------------------------------------------- the two orders

  function Sign(x: int): int { if x < 0 then -1 else if x > 0 then 1 else 0 }

  /** Tuple and string comparison: lexicographic, a proper prefix coming first. */
  function Lex(a: seq<int>, b: seq<int>): int {
    if a == [] then (if b == [] then 0 else -1)
    else if b == [] then 1
    else if a[0] != b[0] then Sign(a[0] - b[0])
    else Lex(a[1..], b[1..])
  }

  function Codes(s: string): (r: seq<int>)
    ensures |r| == |s| && forall i | 0 <= i < |s| :: r[i] == s[i] as int
  {
    seq(|s|, i requires 0 <= i < |s| => s[i] as int)
  }

  function Then(first: int, second: int): int { if first != 0 then first else second }

  function TagCodes(tag: Option<string>): seq<int> {
    match tag case None => [] case Some(t) => Codes(t)
  }

  /** Comparing `_key()` tuples: numbers as they stand, untagged before tagged, tag characters. */
  function CmpKeys(a: Version, b: Version): int {
    Then(Lex(a.nums, b.nums),
      Then(Sign((if a.tag.None? then 0 else 1) - (if b.tag.None? then 0 else 1)),
        Lex(TagCodes(a.tag), TagCodes(b.tag))))
  }

  function Pad(a: seq<int>, n: nat): (r: seq<int>)
    ensures |a| <= n ==> |r| == n
  {
    if |a| >= n then a else a + seq(n - |a|, _ => 0)
  }

  function Max(a: nat, b: nat): nat { if a < b then b else a }

  function CmpPadded(a: seq<int>, b: seq<int>): int {
    var n := Max(|a|, |b|);
    Lex(Pad(a, n), Pad(b, n))
  }

  function CmpTags(a: Option<string>, b: Option<string>): int {
    match (a, b)
    case (None, None) => 0
    case (Some(_), None) => -1
    case (None, Some(_)) => 1
    case (Some(s), Some(t)) => Lex(Codes(s), Codes(t))
  }

  /** `_cmp_versions`: numbers padded with zeros, then a tagged version before the untagged one. */
  function CmpVersions(a: Version, b: Version): int {
    Then(CmpPadded(a.nums, b.nums), CmpTags(a.tag, b.tag))
  }

  // ---------------------------------------------------------------- specifications

  datatype Op = Any | Ge | Le | Ne | EqEq | Eq | Gt | Lt

  function OpText(op: Op): string {
    match op
    case Any => "*"
    case Ge => ">="
    case Le => "<="
    case Ne => "!="
    case EqEq => "=="
    case Eq => "="
    case Gt => ">"
    case Lt => "<"
  }

  datatype Clause = Clause(op: Op, version: Version)

  type SpecSet = seq<seq<Clause>>

  predicate ClauseHolds(c: Clause, v: Version) {
    var sign := CmpVersions(v, c.version);
    match c.op
    case Any => true
    case Ge => sign >= 0
    case Le => sign <= 0
    case Gt => sign > 0
    case Lt => sign < 0
    case Ne => sign != 0
    case EqEq => sign == 0
    case Eq => sign == 0
  }

  predicate GroupHolds(group: seq<Clause>, v: Version) {
    forall i | 0 <= i < |group| :: ClauseHolds(group[i], v)
  }

  predicate SpecHolds(spec: SpecSet, v: Version) {
    exists i | 0 <= i < |spec| :: GroupHolds(spec[i], v)
  }

  function ClauseText(c: Clause): string { OpText(c.op) + c.version.raw }

  function ClauseTexts(group: seq<Clause>): (r: seq<string>)
    ensures |r| == |group| && forall i | 0 <= i < |r| :: r[i] == ClauseText(group[i])
  {
    seq(|group|, i requires 0 <= i < |group| => ClauseText(group[i]))
  }

  function GroupText(group: seq<Clause>): string { Join(",", ClauseTexts(group)) }

  function GroupTexts(spec: SpecSet): (r: seq<string>)
    ensures |r| == |spec| && forall i | 0 <= i < |r| :: r[i] == GroupText(spec[i])
  {
    seq(|spec|, i requires 0 <= i < |spec| => GroupText(spec[i]))
  }

  function SpecText(spec: SpecSet): string { Join(" || ", GroupTexts(spec)) }

  // ---------------------------------------------------------------- parsing a specification

  function DigitsLen(s: string): (n: nat)
    ensures n <= |s| && (forall i | 0 <= i < n :: IsDigit(s[i])) && (n < |s| ==> !IsDigit(s[n]))
  {
    if s == "" || !IsDigit(s[0]) then 0 else 1 + DigitsLen(s[1..])
  }

  /** The digits of `.digits` at the start of the string, "" for none. */
  function DotDigits(s: string): (r: string)
    ensures |r| < |s| || r == ""
    ensures OnlyDigits(r)
  {
    if s == "" || s[0] != '.' then "" else s[1..1 + DigitsLen(s[1..])]
  }

  /** The leading numbers of a version text, "" for each that is absent. */
  datatype Leading = Leading(major: string, minor: string, patch: string)

  function LeadingOf(ver: string): (l: Leading)
    ensures OnlyDigits(l.major) && OnlyDigits(l.minor) && OnlyDigits(l.patch)
  {
    var n := DigitsLen(ver);
    var minor := if n == 0 then "" else DotDigits(ver[n..]);
    var patch := if minor == "" then "" else DotDigits(ver[n..][1 + |minor|..]);
    Leading(ver[..n], minor, patch)
  }

  predicate IsPartial(l: Leading) { l.major != "" && l.patch == "" }

  function One(op: Op, raw: string): Option<seq<Clause>> {
    match ParseVersion(raw) case None => None case Some(v) => Some([Clause(op, v)])
  }

  function Both(a: Option<seq<Clause>>, b: Option<seq<Clause>>): Option<seq<Clause>> {
    if a.Some? && b.Some? then Some(a.value + b.value) else None
  }

  /** `M.m.0`, a missing minor number being 0. */
  function LowerText(l: Leading): string
    requires OnlyDigits(l.major)
  {
    Decimal(Number(l.major)) + "." + (if l.minor == "" then "0" else l.minor) + ".0"
  }

  /** `(M+1).0.0` */
  function UpperText(l: Leading): string
    requires OnlyDigits(l.major)
  {
    Decimal(Number(l.major) + 1) + "." + "0" + ".0"
  }

  /** `_partial_clauses`; no operator is None. */
  function PartialClauses(op: Option<Op>, ver: string): Option<seq<Clause>> {
    var l := LeadingOf(ver);
    if !IsPartial(l) then One(if op.None? then EqEq else op.value, ver)
    else match op
      case None => Both(One(Ge, LowerText(l)), One(Lt, UpperText(l)))
      case Some(o) =>
        match o
        case Lt => if l.minor == "" then One(Lt, UpperText(l)) else One(Lt, ver)
        case Le => if l.minor == "" then One(Lt, UpperText(l)) else One(Le, ver)
        case Gt => One(Ge, LowerText(l))
        case Ge => One(Ge, LowerText(l))
        case Ne => One(Ne, ver)
        case Any => Both(One(Ge, LowerText(l)), One(Lt, UpperText(l)))
        case EqEq => Both(One(Ge, LowerText(l)), One(Lt, UpperText(l)))
        case Eq => Both(One(Ge, LowerText(l)), One(Lt, UpperText(l)))
  }

  /** The operator a clause starts with, tried in this order; it must leave something behind it. */
  function ReadOp(text: string): Option<Op> {
    if StartsWith(text, "*") && |text| > 1 then Some(Any)
    else if StartsWith(text, ">=") && |text| > 2 then Some(Ge)
    else if StartsWith(text, "<=") && |text| > 2 then Some(Le)
    else if StartsWith(text, "!=") && |text| > 2 then Some(Ne)
    else if StartsWith(text, "==") && |text| > 2 then Some(EqEq)
    else if StartsWith(text, "=") && |text| > 1 then Some(Eq)
    else if StartsWith(text, ">") && |text| > 1 then Some(Gt)
    else if StartsWith(text, "<") && |text| > 1 then Some(Lt)
    else None
  }

  const ZERO := Version("0", [0], None)

  /** The clauses one trimmed, nonempty piece of a group stands for. */
  function ParseClause(text: string): Option<seq<Clause>> {
    if text == "*" then Some([Clause(Any, ZERO)])
    else
      var op := ReadOp(text);
      var n := if op.None? then 0 else |OpText(op.value)|;
      if n > |text| then None
      else
        var ver := TrimLeft(text[n..], IsSpace);
        if ver == "" || '\n' in ver then None else PartialClauses(op, ver)
  }

  function ParseGroup(parts: seq<string>): Option<seq<Clause>> {
    if parts == [] then Some([])
    else if Strip(parts[0]) == "" then ParseGroup(parts[1..])
    else Both(ParseClause(Strip(parts[0])), ParseGroup(parts[1..]))
  }

  function ParseGroups(texts: seq<string>): Option<SpecSet> {
    if texts == [] then Some([])
    else match (ParseGroup(SplitOn(texts[0], ",")), ParseGroups(texts[1..]))
      case (Some(group), Some(groups)) => Some(if group == [] then groups else [group] + groups)
      case _ => None
  }

  function ParseSpec(spec: string): Option<SpecSet> {
    match ParseGroups(SplitOn(spec, "||"))
    case None => None
    case Some(groups) => Some(if groups == [] then [[Clause(Any, ZERO)]] else groups)
  }

  /** A result already begun. */
  function Continued<T>(begun: seq<T>, rest: Option<seq<T>>): Option<seq<T>> {
    match rest case None => None case Some(r) => Some(begun + r)
  }

  lemma ContinuedTwice<T>(a: seq<T>, b: seq<T>, rest: Option<seq<T>>)
    ensures Continued(a, Continued(b, rest)) == Continued(a + b, rest)
    ensures Continued([], rest) == rest
  {
    if rest.Some? { assert a + (b + rest.value) == a + b + rest.value; assert [] + rest.value == rest.value; }
  }

  method ParseSpecLoop(spec: string) returns (r: Option<SpecSet>)
    ensures r == ParseSpec(spec)
  {
    hide ParseGroup, SplitOn, Continued;
    var groups: SpecSet := [];
    var texts := SplitOn(spec, "||");
    ContinuedTwice(groups, groups, ParseGroups(texts));
    assert texts[0..] == texts;
    for i := 0 to |texts|
      invariant Continued(groups, ParseGroups(texts[i..])) == ParseGroups(texts)
    {
      assert texts[i..][1..] == texts[i + 1..];
      var clauses := ParseGroupLoop(SplitOn(texts[i], ","));
      ContinuedNone(groups);
      if clauses.None? {
        return None;
      }
      if clauses.value != [] {
        ContinuedTwice(groups, [clauses.value], ParseGroups(texts[i + 1..]));
        GroupsStep(texts, i);
        groups := groups + [clauses.value];
      }
    }
    ContinuedEnd(groups);
    r := Some(if groups == [] then [[Clause(Any, ZERO)]] else groups);
  }

  lemma ContinuedNone<T>(begun: seq<T>)
    ensures Continued(begun, None) == None
  {
  }

  lemma ContinuedEnd<T>(begun: seq<T>)
    ensures Continued(begun, Some([])) == Some(begun)
  {
    assert begun + [] == begun;
  }

  lemma GroupsStep(texts: seq<string>, i: nat)
    requires i < |texts|
    requires ParseGroup(SplitOn(texts[i], ",")).Some? && ParseGroup(SplitOn(texts[i], ",")).value != []
    ensures ParseGroups(texts[i..])
         == Continued([ParseGroup(SplitOn(texts[i], ",")).value], ParseGroups(texts[i + 1..]))
  {
    hide ParseGroup, SplitOn;
    assert texts[i..][1..] == texts[i + 1..];
  }

  /** The inner loop: the clauses of one group. */
  method ParseGroupLoop(parts: seq<string>) returns (r: Option<seq<Clause>>)
    ensures r == ParseGroup(parts)
  {
    hide ParseClause, Strip, Continued;
    var clauses: seq<Clause> := [];
    ContinuedTwice(clauses, clauses, ParseGroup(parts));
    assert parts[0..] == parts;
    for i := 0 to |parts|
      invariant Continued(clauses, ParseGroup(parts[i..])) == ParseGroup(parts)
    {
      assert parts[i..][1..] == parts[i + 1..];
      var text := Strip(parts[i]);
      if text != "" {
        var parsed := ParseClause(text);
        ContinuedNone(clauses);
        if parsed.None? {
          return None;
        }
        ContinuedTwice(clauses, parsed.value, ParseGroup(parts[i + 1..]));
        GroupStep(parts, i);
        clauses := clauses + parsed.value;
      }
    }
    ContinuedEnd(clauses);
    r := Some(clauses);
  }

  lemma GroupStep(parts: seq<string>, i: nat)
    requires i < |parts| && Strip(parts[i]) != "" && ParseClause(Strip(parts[i])).Some?
    ensures ParseGroup(parts[i..])
         == Continued(ParseClause(Strip(parts[i])).value, ParseGroup(parts[i + 1..]))
  {
    hide ParseClause, Strip;
    assert parts[i..][1..] == parts[i + 1..];
  }
}
