/** `sorted(...)` of a set of strings: code-point order, each element once. */
module Ordering {
  import opened Strings

  predicate Leq(a: string, b: string) {
    if a == "" then true
    else if b == "" then false
    else if a[0] != b[0] then a[0] < b[0]
    else Leq(a[1..], b[1..])
  }

  lemma {:induction false} LeqTotal(a: string, b: string)
    ensures Leq(a, b) || Leq(b, a)
    ensures Leq(a, b) && Leq(b, a) ==> a == b
  {
    if a != "" && b != "" && a[0] == b[0] {
      LeqTotal(a[1..], b[1..]);
      assert a == [a[0]] + a[1..] && b == [b[0]] + b[1..];
    }
  }

  lemma {:induction false} LeqTransitive(a: string, b: string, c: string)
    requires Leq(a, b) && Leq(b, c)
    ensures Leq(a, c)
  {
    if a != "" && b != "" && c != "" && a[0] == b[0] == c[0] {
      LeqTransitive(a[1..], b[1..], c[1..]);
    }
  }

  predicate IsLeast(x: string, s: set<string>) {
    x in s && forall y | y in s :: Leq(x, y)
  }

  lemma {:induction false} LeastExists(s: set<string>)
    requires s != {}
    ensures exists x :: IsLeast(x, s)
  {
    var x :| x in s;
    var rest := s - {x};
    LeqTotal(x, x);
    if rest == {} {
      assert s == {x} && IsLeast(x, s);
    } else {
      LeastExists(rest);
      var y :| IsLeast(y, rest);
      LeqTotal(x, y);
      var z := if Leq(x, y) then x else y;
      forall w | w in s ensures Leq(z, w) {
        if w != x && z == x { LeqTransitive(x, y, w); }
      }
      assert IsLeast(z, s);
    }
  }

  lemma LeastUnique(x: string, y: string, s: set<string>)
    requires IsLeast(x, s) && IsLeast(y, s)
    ensures x == y
  {
    LeqTotal(x, y);
  }

  function Least(s: set<string>): (x: string)
    requires s != {}
    ensures IsLeast(x, s)
  {
    LeastExists(s);
    assert forall x, y | IsLeast(x, s) && IsLeast(y, s) :: x == y by {
      forall x, y | IsLeast(x, s) && IsLeast(y, s) ensures x == y { LeastUnique(x, y, s); }
    }
    var x :| IsLeast(x, s);
    x
  }

  predicate Increasing(q: seq<string>) {
    forall i, j | 0 <= i < j < |q| :: q[i] != q[j] && Leq(q[i], q[j])
  }

  lemma ConsSorted(x: string, rest: seq<string>, s: set<string>)
    requires IsLeast(x, s) && Increasing(rest) && forall y :: y in rest <==> y in s - {x}
    ensures Increasing([x] + rest) && forall y :: y in [x] + rest <==> y in s
  {
    hide Leq;
    assert forall i | 0 <= i < |rest| :: rest[i] in s - {x};
    var all := [x] + rest;
    assert forall i | 0 < i < |all| :: all[i] == rest[i - 1];
  }

  /** The elements of the set in order. */
  function Sorted(s: set<string>): (q: seq<string>)
    ensures forall x :: x in q <==> x in s
    ensures |q| == |s| && Increasing(q)
  {
    hide Leq;
    if s == {} then []
    else
      var x := Least(s);
      var rest := Sorted(s - {x});
      ConsSorted(x, rest, s);
      [x] + rest
  }
}
