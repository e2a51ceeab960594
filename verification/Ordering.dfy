/** Python's order on strings, and the least element of a set: `sorted(names)`
    visits a set by repeatedly taking the least name that is left. */
module Ordering {

  predicate Le(a: string, b: string) {
    a == "" || (b != "" && (a[0] < b[0] || (a[0] == b[0] && Le(a[1..], b[1..]))))
  }

  /** It is the dictionary order: the first difference decides, and a prefix comes first. */
  lemma {:induction false} LeIsLexicographic(a: string, b: string)
    ensures Le(a, b) <==> a <= b || exists k: nat :: FirstDifference(a, b, k) && a[k] < b[k]
  {
    if a != "" && b != "" {
      LeIsLexicographic(a[1..], b[1..]);
      assert a == [a[0]] + a[1..] && b == [b[0]] + b[1..];
      if k: nat :| FirstDifference(a[1..], b[1..], k) && a[1..][k] < b[1..][k] {
        if a[0] == b[0] { assert FirstDifference(a, b, k + 1) && a[k + 1] < b[k + 1]; }
      }
      if a[0] < b[0] { assert FirstDifference(a, b, 0); }
      if k: nat :| FirstDifference(a, b, k) && a[k] < b[k] {
        if k > 0 { OneLess(a, b, k); }
      }
    }
  }

  ghost predicate FirstDifference(a: string, b: string, k: nat) {
    k < |a| && k < |b| && a[..k] == b[..k] && a[k] != b[k]
  }

  lemma OneLess(a: string, b: string, k: nat)
    requires k > 0 && FirstDifference(a, b, k)
    ensures a[0] == b[0] && FirstDifference(a[1..], b[1..], k - 1)
  {
    assert a[..k][0] == b[..k][0];
    assert a[1..][..k - 1] == a[..k][1..] && b[1..][..k - 1] == b[..k][1..];
  }

  lemma {:induction false} LeTotal(a: string, b: string)
    ensures Le(a, b) || Le(b, a)
  {
    if a != "" && b != "" && a[0] == b[0] {
      LeTotal(a[1..], b[1..]);
    }
  }

  lemma {:induction false} LeAntisymmetric(a: string, b: string)
    requires Le(a, b) && Le(b, a)
    ensures a == b
  {
    if a != "" && b != "" {
      LeAntisymmetric(a[1..], b[1..]);
      assert a == [a[0]] + a[1..] && b == [b[0]] + b[1..];
    }
  }

  lemma {:induction false} LeTransitive(a: string, b: string, c: string)
    requires Le(a, b) && Le(b, c)
    ensures Le(a, c)
  {
    if a != "" && a[0] == b[0] && b[0] == c[0] {
      LeTransitive(a[1..], b[1..], c[1..]);
    }
  }

  predicate IsLeast(n: string, s: set<string>) {
    n in s && forall m :: m in s ==> Le(n, m)
  }

  lemma {:induction false} LeastExists(s: set<string>)
    requires s != {}
    ensures exists n :: IsLeast(n, s)
    decreases |s|
  {
    var x :| x in s;
    if s == {x} {
      LeTotal(x, x);
      assert IsLeast(x, s);
    } else {
      LeastExists(s - {x});
      var n :| IsLeast(n, s - {x});
      LeTotal(n, x);
      if Le(n, x) {
        assert IsLeast(n, s);
      } else {
        forall m | m in s ensures Le(x, m) {
          if m == x { LeTotal(x, x); } else { LeTransitive(x, n, m); }
        }
        assert IsLeast(x, s);
      }
    }
  }

  lemma LeastUnique(s: set<string>, a: string, b: string)
    requires IsLeast(a, s) && IsLeast(b, s)
    ensures a == b
  {
    LeAntisymmetric(a, b);
  }

  ghost function Least(s: set<string>): (n: string)
    requires s != {}
    ensures IsLeast(n, s)
  {
    LeastExists(s);
    var n :| IsLeast(n, s);
    n
  }

  ghost predicate Sorted(s: seq<string>) {
    forall i, j :: 0 <= i < j < |s| ==> Le(s[i], s[j]) && s[i] != s[j]
  }

  /** Python's `sorted(s)` for a set. */
  ghost function SortedOf(s: set<string>): seq<string> {
    if s == {} then [] else [Least(s)] + SortedOf(s - {Least(s)})
  }

  lemma {:induction false} SortedOfIs(s: set<string>)
    ensures Sorted(SortedOf(s)) && forall x :: x in SortedOf(s) <==> x in s
    ensures |SortedOf(s)| == |s|
    decreases |s|
  {
    if s != {} {
      var rest := SortedOf(s - {Least(s)});
      SortedOfIs(s - {Least(s)});
      forall i | 0 <= i < |rest| ensures Le(Least(s), rest[i]) && Least(s) != rest[i] {
        assert rest[i] in rest;
      }
    }
  }

  lemma SortedAppend(list: seq<string>, n: string)
    requires Sorted(list) && forall x :: x in list ==> Le(x, n) && x != n
    ensures Sorted(list + [n])
  {
    assert forall i :: 0 <= i < |list| ==> list[i] in list;
  }

  /** Repeatedly taking the least name that is left. */
  method SortedList(s: set<string>) returns (list: seq<string>)
    ensures list == SortedOf(s)
  {
    list := [];
    var left := s;
    while left != {}
      invariant list + SortedOf(left) == SortedOf(s)
      decreases |left|
    {
      LeastExists(left);
      var n :| n in left && forall m :: m in left ==> Le(n, m);
      LeastUnique(left, n, Least(left));
      assert SortedOf(left) == [n] + SortedOf(left - {n});
      left := left - {n};
      list := list + [n];
    }
  }
}
