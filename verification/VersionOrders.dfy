/** The two comparisons of devrepro/core/versioning.py: each is a total (pre)order, exactly where they
    disagree, and what range specifications inherit from `_cmp_versions`. */
module VersionOrders {
  import opened Strings
  import opened Versioning

  // ---------------------------------------------------------------- lexicographic comparison

  lemma {:induction false} LexTotal(a: seq<int>, b: seq<int>)
    ensures Lex(a, b) == -Lex(b, a) && -1 <= Lex(a, b) <= 1
    ensures Lex(a, b) == 0 <==> a == b
  {
    if a != [] && b != [] && a[0] == b[0] {
      LexTotal(a[1..], b[1..]);
      assert a == [a[0]] + a[1..] && b == [b[0]] + b[1..];
    }
  }

  lemma {:induction false} LexTransitive(a: seq<int>, b: seq<int>, c: seq<int>)
    requires Lex(a, b) <= 0 && Lex(b, c) <= 0
    ensures Lex(a, c) <= 0
    ensures Lex(a, b) < 0 || Lex(b, c) < 0 ==> Lex(a, c) < 0
  {
    if a != [] && b != [] && c != [] && a[0] == b[0] == c[0] {
      LexTransitive(a[1..], b[1..], c[1..]);
    }
  }

  /** Comparisons combined by `Then` are transitive when both parts are. */
  predicate Chains(ab: int, bc: int, ac: int) {
    ab <= 0 && bc <= 0 ==> ac <= 0 && (ab < 0 || bc < 0 ==> ac < 0)
  }

  lemma LexChains(a: seq<int>, b: seq<int>, c: seq<int>)
    ensures Chains(Lex(a, b), Lex(b, c), Lex(a, c))
  {
    if Lex(a, b) <= 0 && Lex(b, c) <= 0 { LexTransitive(a, b, c); }
  }

  // ---------------------------------------------------------------- padding

  lemma {:induction false} LexAppendSame(a: seq<int>, b: seq<int>, x: int)
    requires |a| == |b|
    ensures Lex(a + [x], b + [x]) == Lex(a, b)
  {
    if a == [] {
      assert a + [x] == [x] == b + [x];
      assert Lex([x][1..], [x][1..]) == 0;
    } else {
      assert (a + [x])[1..] == a[1..] + [x] && (b + [x])[1..] == b[1..] + [x];
      if a[0] == b[0] { LexAppendSame(a[1..], b[1..], x); }
    }
  }

  /** Padding further changes nothing, so three operands can be padded to one length. */
  lemma {:induction false} PadFurther(a: seq<int>, b: seq<int>, n: nat)
    requires n >= Max(|a|, |b|)
    ensures Lex(Pad(a, n), Pad(b, n)) == CmpPadded(a, b)
    decreases n
  {
    if n > Max(|a|, |b|) {
      PadFurther(a, b, n - 1);
      assert Pad(a, n) == Pad(a, n - 1) + [0] && Pad(b, n) == Pad(b, n - 1) + [0];
      LexAppendSame(Pad(a, n - 1), Pad(b, n - 1), 0);
    }
  }

  lemma PaddedTotal(a: seq<int>, b: seq<int>)
    ensures CmpPadded(a, b) == -CmpPadded(b, a) && CmpPadded(a, a) == 0
  {
    var n := Max(|a|, |b|);
    LexTotal(Pad(a, n), Pad(b, n));
    LexTotal(a, a);
  }

  lemma PaddedChains(a: seq<int>, b: seq<int>, c: seq<int>)
    ensures Chains(CmpPadded(a, b), CmpPadded(b, c), CmpPadded(a, c))
  {
    var n := Max(Max(|a|, |b|), |c|);
    PadFurther(a, b, n);
    PadFurther(b, c, n);
    PadFurther(a, c, n);
    LexChains(Pad(a, n), Pad(b, n), Pad(c, n));
  }

  // ---------------------------------------------------------------- tags

  lemma CodesInjective(s: string, t: string)
    ensures Codes(s) == Codes(t) <==> s == t
  {
    if Codes(s) == Codes(t) {
      assert |s| == |t|;
      forall i | 0 <= i < |s| ensures s[i] == t[i] { assert Codes(s)[i] == Codes(t)[i]; }
    }
  }

  lemma TagsTotal(a: Option<string>, b: Option<string>)
    ensures CmpTags(a, b) == -CmpTags(b, a)
    ensures CmpTags(a, b) == 0 <==> a == b
  {
    if a.Some? && b.Some? {
      LexTotal(Codes(a.value), Codes(b.value));
      CodesInjective(a.value, b.value);
    }
  }

  lemma TagsChain(a: Option<string>, b: Option<string>, c: Option<string>)
    ensures Chains(CmpTags(a, b), CmpTags(b, c), CmpTags(a, c))
  {
    if a.Some? && b.Some? && c.Some? {
      LexChains(Codes(a.value), Codes(b.value), Codes(c.value));
    }
  }

  // ---------------------------------------------------------------- the two orders

  /** `_cmp_versions` is a total preorder, whatever the lengths of the three numbers. */
  lemma CmpVersionsPreorder(a: Version, b: Version, c: Version)
    ensures CmpVersions(a, a) == 0
    ensures CmpVersions(a, b) == -CmpVersions(b, a)
    ensures Chains(CmpVersions(a, b), CmpVersions(b, c), CmpVersions(a, c))
  {
    hide CmpPadded, CmpTags;
    PaddedTotal(a.nums, b.nums);
    PaddedTotal(b.nums, c.nums);
    PaddedTotal(a.nums, c.nums);
    TagsTotal(a.tag, b.tag);
    TagsTotal(a.tag, a.tag);
    PaddedChains(a.nums, b.nums, c.nums);
    PaddedChains(c.nums, b.nums, a.nums);
    PaddedChains(b.nums, a.nums, c.nums);
    PaddedChains(a.nums, c.nums, b.nums);
    TagsChain(a.tag, b.tag, c.tag);
  }

  /** Versions that compare equal compare alike with every other. */
  lemma CmpVersionsCongruence(a: Version, b: Version, c: Version)
    requires CmpVersions(a, b) == 0
    ensures Sign(CmpVersions(a, c)) == Sign(CmpVersions(b, c))
  {
    hide CmpVersions;
    CmpVersionsPreorder(a, b, c);
    CmpVersionsPreorder(b, a, c);
    CmpVersionsPreorder(c, a, b);
    CmpVersionsPreorder(c, b, a);
  }

  /** `_key` orders versions totally: only equal numbers with equal tags tie, so 1.2 and 1.2.0 do not. */
  lemma CmpKeysTotalOrder(a: Version, b: Version, c: Version)
    ensures CmpKeys(a, b) == -CmpKeys(b, a)
    ensures CmpKeys(a, b) == 0 <==> a.nums == b.nums && a.tag == b.tag
    ensures Chains(CmpKeys(a, b), CmpKeys(b, c), CmpKeys(a, c))
  {
    hide Lex, Codes;
    LexTotal(a.nums, b.nums);
    LexTotal(b.nums, c.nums);
    LexTotal(TagCodes(a.tag), TagCodes(b.tag));
    if a.tag.Some? && b.tag.Some? { CodesInjective(a.tag.value, b.tag.value); }
    LexChains(a.nums, b.nums, c.nums);
    LexChains(TagCodes(a.tag), TagCodes(b.tag), TagCodes(c.tag));
    LexTotal(a.nums, c.nums);
  }

  function Zeros(n: nat): (r: seq<int>)
    ensures |r| == n && forall i | 0 <= i < n :: r[i] == 0
  {
    seq(n, _ => 0)
  }

  lemma {:induction false} ZerosFirst(b: seq<nat>)
    ensures Lex(Zeros(|b|), b) <= 0
  {
    if b != [] {
      assert Zeros(|b|)[1..] == Zeros(|b| - 1);
      ZerosFirst(b[1..]);
    }
  }

  /** Padded and plain comparison agree unless padding makes the numbers equal. */
  lemma {:induction false} PlainOrPadded(a: seq<nat>, b: seq<nat>)
    ensures Lex(a, b) == if CmpPadded(a, b) != 0 then CmpPadded(a, b) else Sign(|a| - |b|)
  {
    if a == [] {
      assert Pad(b, |b|) == b && Pad(a, |b|) == Zeros(|b|);
      ZerosFirst(b);
      LexTotal(Zeros(|b|), b);
    } else if b == [] {
      assert Pad(a, |a|) == a && Pad(b, |a|) == Zeros(|a|);
      ZerosFirst(a);
      LexTotal(Zeros(|a|), a);
    } else {
      var n := Max(|a|, |b|);
      assert Pad(a, n)[1..] == Pad(a[1..], n - 1) && Pad(b, n)[1..] == Pad(b[1..], n - 1);
      PlainOrPadded(a[1..], b[1..]);
    }
  }

  /** Exactly when the class's own order and the one ranges use disagree: the numbers are equal after
      padding, and either they have one length and just one version is tagged, or the order of the
      lengths is not that of the tags. */
  lemma OrdersDisagreeExactly(a: Version, b: Version)
    ensures CmpKeys(a, b) != CmpVersions(a, b)
      <==> && CmpPadded(a.nums, b.nums) == 0
           && (if |a.nums| == |b.nums| then a.tag.None? != b.tag.None?
               else CmpTags(a.tag, b.tag) != Sign(|a.nums| - |b.nums|))
  {
    hide Lex, CmpPadded;
    PlainOrPadded(a.nums, b.nums);
    LexTotal(TagCodes(a.tag), TagCodes(b.tag));
    LexTotal([], []);
  }

  /** A release and its pre-release, the orders opposite. */
  lemma ReleaseOrderDiffers(nums: seq<nat>, tag: string)
    ensures CmpVersions(Version("", nums, Some(tag)), Version("", nums, None)) == -1
    ensures CmpKeys(Version("", nums, Some(tag)), Version("", nums, None)) == 1
  {
    LexTotal(nums, nums);
    PaddedTotal(nums, nums);
  }

  // ---------------------------------------------------------------- ranges

  /** Versions the range order identifies meet exactly the same specifications. */
  lemma EqualVersionsMeetSameSpecs(a: Version, b: Version, spec: SpecSet)
    requires CmpVersions(a, b) == 0
    ensures SpecHolds(spec, a) <==> SpecHolds(spec, b)
  {
    hide CmpVersions;
    forall c: Clause ensures ClauseHolds(c, a) <==> ClauseHolds(c, b) {
      CmpVersionsCongruence(a, b, c.version);
    }
    forall i | 0 <= i < |spec| ensures GroupHolds(spec[i], a) <==> GroupHolds(spec[i], b) {}
  }

  lemma ClauseConvex(c: Clause, lo: Version, v: Version, hi: Version)
    requires c.op != Ne && ClauseHolds(c, lo) && ClauseHolds(c, hi)
    requires CmpVersions(lo, v) <= 0 && CmpVersions(v, hi) <= 0
    ensures ClauseHolds(c, v)
  {
    hide CmpVersions;
    CmpVersionsPreorder(lo, v, c.version);
    CmpVersionsPreorder(v, hi, c.version);
    CmpVersionsPreorder(c.version, lo, v);
    CmpVersionsPreorder(hi, v, c.version);
    CmpVersionsPreorder(v, lo, c.version);
    CmpVersionsPreorder(c.version, hi, v);
  }

  /** A conjunction without an exclusion accepts everything between two versions it accepts. */
  lemma GroupConvex(group: seq<Clause>, lo: Version, v: Version, hi: Version)
    requires forall i | 0 <= i < |group| :: group[i].op != Ne
    requires GroupHolds(group, lo) && GroupHolds(group, hi)
    requires CmpVersions(lo, v) <= 0 && CmpVersions(v, hi) <= 0
    ensures GroupHolds(group, v)
  {
    hide CmpVersions, ClauseHolds;
    forall i | 0 <= i < |group| ensures ClauseHolds(group[i], v) {
      ClauseConvex(group[i], lo, v, hi);
    }
  }
}
