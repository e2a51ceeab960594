/** The order of `resolve_order` in its own terms (recon/modules/registry.py:53-89): phases
    first, then dependencies, and otherwise the alphabet. */
module RegistryOrder {
  import opened Prelude
  import opened Ordering
  import opened Registry

  // ---------------------------------------------------------------------- phases

  /** Osint before passive before active, and an edge into a later phase is one against that. */
  lemma PhasesInOrder(c: Catalog, names: set<Name>)
    requires Resolve(c, names).Some?
    ensures var order := Resolve(c, names).value;
      forall i, j :: 0 <= i < j < |order| ==>
        && order[i] in c && order[j] in c
        && (c[order[i]].phase == Active ==> c[order[j]].phase == Active)
        && (c[order[i]].phase == Passive ==> c[order[j]].phase != Osint)
    ensures forall n, d :: n in Closure(c, names) && n in c && d in c[n].dependsOn && d in c ==>
      && (c[n].phase == Osint ==> c[d].phase == Osint)
      && (c[n].phase == Passive ==> c[d].phase != Active)
  {
    ResolveSound(c, names);
    var order, w := Resolve(c, names).value, Closure(c, names);
    forall i | 0 <= i < |order| ensures order[i] in c {
      assert order[i] in Elems(order);
    }
    forall n, d | n in w && n in c && d in c[n].dependsOn && d in c ensures Rank(c[d].phase) <= Rank(c[n].phase) {
    }
  }

  // -------------------------------------------------------------------- alphabet

  /** `z` depends on `y`, directly or through others of the subset, or is it. */
  ghost predicate Needs(c: Catalog, subset: set<Name>, z: Name, y: Name) {
    exists p :: NeedsBy(c, subset, z, y, p)
  }

  ghost predicate NeedsBy(c: Catalog, subset: set<Name>, z: Name, y: Name, p: seq<Name>) {
    p != [] && IsPath(c, subset, p) && p[0] == z && p[|p| - 1] == y
  }

  lemma NeedsItself(c: Catalog, subset: set<Name>, n: Name)
    requires n in subset
    ensures Needs(c, subset, n, n)
  {
    assert NeedsBy(c, subset, n, n, [n]);
  }

  lemma NeedsThrough(c: Catalog, subset: set<Name>, n: Name, d: Name, y: Name)
    requires n in subset && d in Deps(c, n) && Needs(c, subset, d, y)
    ensures Needs(c, subset, n, y)
  {
    var p :| NeedsBy(c, subset, d, y, p);
    var q := [n] + p;
    forall i | 0 <= i < |q| - 1 ensures q[i + 1] in Deps(c, q[i]) {
      if i > 0 { assert q[i] == p[i - 1] && q[i + 1] == p[i - 1 + 1]; }
    }
    assert NeedsBy(c, subset, n, y, q);
  }

  /** A visit lists only what its module needs. */
  lemma {:induction false} VisitListsNeeded(c: Catalog, subset: set<Name>, n: Name, out: seq<Name>, visiting: set<Name>)
    requires n in subset && visiting <= subset && Visit(c, subset, n, out, visiting).Some?
    ensures var o := Visit(c, subset, n, out, visiting).value;
      out <= o && forall x :: x in o && x !in out ==> Needs(c, subset, n, x)
    decreases |subset - visiting|, 0, 0
  {
    if n !in out && n !in visiting {
      assert subset - (visiting + {n}) < subset - visiting by { assert n in subset - visiting; }
      CardinalityOfSubset(subset - (visiting + {n}), subset - visiting);
      VisitEachListsNeeded(c, subset, Deps(c, n), out, visiting + {n});
      var r := VisitEach(c, subset, Deps(c, n), out, visiting + {n}).value;
      forall x | x in r + [n] && x !in out ensures Needs(c, subset, n, x) {
        if x == n {
          NeedsItself(c, subset, n);
        } else {
          var d :| d in Deps(c, n) && Needs(c, subset, d, x);
          NeedsThrough(c, subset, n, d, x);
        }
      }
    }
  }

  lemma {:induction false} VisitEachListsNeeded(c: Catalog, subset: set<Name>, rest: set<Name>, out: seq<Name>,
      visiting: set<Name>)
    requires visiting <= subset && VisitEach(c, subset, rest, out, visiting).Some?
    ensures var o := VisitEach(c, subset, rest, out, visiting).value;
      out <= o && forall x :: x in o && x !in out ==> exists d :: d in rest && Needs(c, subset, d, x)
    decreases |subset - visiting|, 1, |rest|
  {
    if rest != {} {
      var n := Least(rest);
      if n !in subset {
        VisitEachListsNeeded(c, subset, rest - {n}, out, visiting);
      } else {
        VisitListsNeeded(c, subset, n, out, visiting);
        VisitEachListsNeeded(c, subset, rest - {n}, Visit(c, subset, n, out, visiting).value, visiting);
      }
    }
  }

  /** `y` is listed before `x`. */
  ghost predicate Before(order: seq<Name>, y: Name, x: Name) {
    exists i, j :: 0 <= i < j < |order| && order[i] == y && order[j] == x
  }

  /** Something that is not after `x` in the alphabet needs `y`. */
  ghost predicate NeededBy(c: Catalog, subset: set<Name>, roots: set<Name>, x: Name, y: Name) {
    exists z :: z in roots && Le(z, x) && Needs(c, subset, z, y)
  }

  /** Of two modules that a loop is to list, the one later in the alphabet comes first only if
      something not after the other one needs it. */
  lemma {:induction false} LoopIsAlphabetical(c: Catalog, subset: set<Name>, rest: set<Name>, out: seq<Name>,
      visiting: set<Name>, x: Name, y: Name)
    requires visiting <= subset && Ordered(c, subset, out) && VisitEach(c, subset, rest, out, visiting).Some?
    requires x in rest && x in subset && x !in out && y !in out
    requires Before(VisitEach(c, subset, rest, out, visiting).value, y, x)
    ensures NeededBy(c, subset, rest, x, y)
    decreases |rest|
  {
    var n := Least(rest);
    var r := VisitEach(c, subset, rest, out, visiting).value;
    if n !in subset {
      LoopIsAlphabetical(c, subset, rest - {n}, out, visiting, x, y);
    } else {
      var o := Visit(c, subset, n, out, visiting).value;
      VisitListsNeeded(c, subset, n, out, visiting);
      VisitSound(c, subset, n, out, visiting);
      if y in o {
        assert Needs(c, subset, n, y) && Le(n, x);
      } else {
        VisitEachSound(c, subset, rest - {n}, o, visiting);
        if x in o { ListedEarlier(o, r, x, y); }
        LoopIsAlphabetical(c, subset, rest - {n}, o, visiting, x, y);
      }
    }
  }

  lemma ListedEarlier(o: seq<Name>, r: seq<Name>, x: Name, y: Name)
    requires o <= r && NoDup(r) && x in o && y !in o
    ensures !Before(r, y, x)
  {
    var k :| 0 <= k < |o| && o[k] == x;
    forall i, j | 0 <= i < j < |r| && r[j] == x ensures r[i] != y {
      assert r[k] == x;
      assert j == k && r[i] == o[i];
    }
  }

  lemma SortIsAlphabetical(c: Catalog, subset: set<Name>, x: Name, y: Name)
    requires Toposort(c, subset).Some? && x in subset && Before(Toposort(c, subset).value, y, x)
    ensures NeededBy(c, subset, subset, x, y)
  {
    LoopIsAlphabetical(c, subset, subset, [], {}, x, y);
  }

  /** Two modules of one phase are in alphabetical order, unless the later name is needed by a
      module that is not after the earlier one: independent modules come by the alphabet. */
  lemma AlphabeticalUnlessNeeded(c: Catalog, names: set<Name>, x: Name, y: Name)
    requires Resolve(c, names).Some? && Before(Resolve(c, names).value, y, x)
    requires x in c && y in c && c[x].phase == c[y].phase
    ensures Le(y, x) || exists z :: z in Closure(c, names) && Le(z, x) && z != y && Needs(c, Closure(c, names), z, y)
  {
    var w := Closure(c, names);
    ClosureProperties(c, names);
    var subset := OfPhase(c, w, c[x].phase);
    BeforeInPhase(c, names, x, y);
    SortIsAlphabetical(c, subset, x, y);
    var z :| z in subset && Le(z, x) && Needs(c, subset, z, y);
    var p :| NeedsBy(c, subset, z, y, p);
    assert NeedsBy(c, w, z, y, p);
  }

  lemma BeforeInParts(o: seq<Name>, p: seq<Name>, a: seq<Name>, y: Name, x: Name)
    requires Before(o + p + a, y, x)
    requires (y in o ==> x !in p && x !in a) && (y in p ==> x !in o && x !in a) && (y in a ==> x !in o && x !in p)
    ensures y in o ==> Before(o, y, x)
    ensures y in p && y !in o ==> Before(p, y, x)
    ensures y in a && y !in o && y !in p ==> Before(a, y, x)
  {
    var r := o + p + a;
    var i, j :| 0 <= i < j < |r| && r[i] == y && r[j] == x;
    PartAt(o, p, a, i);
    PartAt(o, p, a, j);
  }

  lemma PartAt(o: seq<Name>, p: seq<Name>, a: seq<Name>, i: nat)
    requires i < |o + p + a|
    ensures var n, k, l := (o + p + a)[i], |o|, |o| + |p|;
      && (i < k ==> n == o[i] && n in o)
      && (k <= i < l ==> n == p[i - k] && n in p)
      && (l <= i ==> n == a[i - l] && n in a)
  {
  }

  lemma BeforeInPhase(c: Catalog, names: set<Name>, x: Name, y: Name)
    requires Resolve(c, names).Some? && Before(Resolve(c, names).value, y, x)
    requires x in c && y in c && c[x].phase == c[y].phase
    ensures var subset := OfPhase(c, Closure(c, names), c[x].phase);
      Toposort(c, subset).Some? && x in subset && Before(Toposort(c, subset).value, y, x)
  {
    var w := Closure(c, names);
    ToposortCorrect(c, OfPhase(c, w, Osint));
    ToposortCorrect(c, OfPhase(c, w, Passive));
    ToposortCorrect(c, OfPhase(c, w, Active));
    var o := Toposort(c, OfPhase(c, w, Osint)).value;
    var p := Toposort(c, OfPhase(c, w, Passive)).value;
    var a := Toposort(c, OfPhase(c, w, Active)).value;
    ResolveSound(c, names);
    assert x in Elems(Resolve(c, names).value) && y in Elems(Resolve(c, names).value);
    assert forall n :: n in o <==> n in Elems(o);
    assert forall n :: n in p <==> n in Elems(p);
    assert forall n :: n in a <==> n in Elems(a);
    BeforeInParts(o, p, a, y, x);
  }

  // ------------------------------------------------- modules without dependencies

  ghost predicate Leaf(c: Catalog, subset: set<Name>, n: Name) {
    Deps(c, n) !! subset
  }

  lemma {:induction false} NothingToVisit(c: Catalog, subset: set<Name>, rest: set<Name>, out: seq<Name>,
      visiting: set<Name>)
    requires visiting <= subset && rest !! subset
    ensures VisitEach(c, subset, rest, out, visiting) == Some(out)
    decreases |rest|
  {
    if rest != {} { NothingToVisit(c, subset, rest - {Least(rest)}, out, visiting); }
  }

  lemma LeafIsListed(c: Catalog, subset: set<Name>, n: Name, out: seq<Name>, visiting: set<Name>)
    requires visiting <= subset && n in subset && Leaf(c, subset, n) && n !in out && n !in visiting
    ensures Visit(c, subset, n, out, visiting) == Some(out + [n])
  {
    NothingToVisit(c, subset, Deps(c, n), out, visiting + {n});
  }

  lemma SortedStep(rest: set<Name>, subset: set<Name>, n: Name)
    requires IsLeast(n, rest) && n in subset
    ensures SortedOf(rest * subset) == [n] + SortedOf((rest - {n}) * subset)
  {
    var left := rest * subset;
    LeastUnique(left, n, Least(left));
    assert left - {n} == (rest - {n}) * subset;
  }

  ghost predicate FreshLeaves(c: Catalog, subset: set<Name>, rest: set<Name>, out: seq<Name>, visiting: set<Name>) {
    forall n :: n in rest && n in subset ==> Leaf(c, subset, n) && n !in out && n !in visiting
  }

  lemma FewerLeaves(c: Catalog, subset: set<Name>, rest: set<Name>, out: seq<Name>, visiting: set<Name>, n: Name)
    requires FreshLeaves(c, subset, rest, out, visiting)
    ensures FreshLeaves(c, subset, rest - {n}, out, visiting) && FreshLeaves(c, subset, rest - {n}, out + [n], visiting)
  {
  }

  lemma LeafStep(c: Catalog, subset: set<Name>, rest: set<Name>, out: seq<Name>, visiting: set<Name>, n: Name,
      later: seq<Name>)
    requires visiting <= subset && IsLeast(n, rest) && n in subset
    requires Leaf(c, subset, n) && n !in out && n !in visiting
    requires VisitEach(c, subset, rest - {n}, out + [n], visiting) == Some(out + [n] + later)
    ensures VisitEach(c, subset, rest, out, visiting) == Some(out + ([n] + later))
  {
    LeafIsListed(c, subset, n, out, visiting);
    LeastUnique(rest, n, Least(rest));
    assert out + [n] + later == out + ([n] + later);
  }

  lemma OthersStep(c: Catalog, subset: set<Name>, rest: set<Name>, out: seq<Name>, visiting: set<Name>, n: Name)
    requires visiting <= subset && IsLeast(n, rest) && n !in subset
    ensures VisitEach(c, subset, rest, out, visiting) == VisitEach(c, subset, rest - {n}, out, visiting)
    ensures (rest - {n}) * subset == rest * subset
  {
    LeastUnique(rest, n, Least(rest));
  }

  /** A loop over modules without dependencies lists them by the alphabet. */
  lemma {:induction false} LeavesComeSorted(c: Catalog, subset: set<Name>, rest: set<Name>, out: seq<Name>,
      visiting: set<Name>)
    requires visiting <= subset && FreshLeaves(c, subset, rest, out, visiting)
    ensures VisitEach(c, subset, rest, out, visiting) == Some(out + SortedOf(rest * subset))
    decreases |rest|
  {
    if rest == {} {
      NothingToVisit(c, subset, rest, out, visiting);
      assert rest * subset == {} && out + [] == out;
    } else {
      LeastExists(rest);
      var n :| IsLeast(n, rest);
      FewerLeaves(c, subset, rest, out, visiting, n);
      if n !in subset {
        OthersStep(c, subset, rest, out, visiting, n);
        LeavesComeSorted(c, subset, rest - {n}, out, visiting);
      } else {
        LeavesComeSorted(c, subset, rest - {n}, out + [n], visiting);
        LeafStep(c, subset, rest, out, visiting, n, SortedOf((rest - {n}) * subset));
        SortedStep(rest, subset, n);
      }
    }
  }

  /** The dependencies of the first module come first, by the alphabet, if they have none of
      their own; and a phase without dependencies is listed by the alphabet. */
  lemma FirstDependenciesSorted(c: Catalog, subset: set<Name>, n: Name)
    requires IsLeast(n, subset) && Toposort(c, subset).Some?
    requires n !in Deps(c, n) && forall d :: d in Deps(c, n) * subset ==> Leaf(c, subset, d)
    ensures SortedOf(Deps(c, n) * subset) + [n] <= Toposort(c, subset).value
    ensures (forall d :: d in subset ==> Leaf(c, subset, d)) ==> Toposort(c, subset).value == SortedOf(subset)
  {
    LeastUnique(subset, n, Least(subset));
    LeavesComeSorted(c, subset, Deps(c, n), [], {n});
    assert [] + SortedOf(Deps(c, n) * subset) == SortedOf(Deps(c, n) * subset);
    assert {} + {n} == {n};
    var first := SortedOf(Deps(c, n) * subset) + [n];
    assert Visit(c, subset, n, [], {}) == Some(first);
    VisitEachListsNeeded(c, subset, subset - {n}, first, {});
    if forall d :: d in subset ==> Leaf(c, subset, d) {
      LeavesComeSorted(c, subset, subset, [], {});
      assert subset * subset == subset && [] + SortedOf(subset) == SortedOf(subset);
    }
  }
}
