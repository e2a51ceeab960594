/** recon/modules/registry.py: the dependency closure and the passive-first order
    of a module selection. */
module Registry {
  import opened Prelude
  import opened Ordering

  type Name = string

  datatype Phase = Osint | Passive | Active

  function Rank(p: Phase): nat {
    match p
    case Osint => 0
    case Passive => 1
    case Active => 2
  }

  /** A registered module. `depends_on` is kept as a set: a repeated dependency is
      found in `out` (or in `wanted`) and has no second effect. */
  datatype Module = Module(phase: Phase, dependsOn: set<Name>)

  /** The `MODULES` dictionary. */
  type Catalog = map<Name, Module>

  datatype ResolveError = UnknownModule(name: Name) | LaterPhase(name: Name) | Cycle(name: Name)

  // ---------------------------------------------------------------- closure

  ghost predicate Closed(c: Catalog, s: set<Name>) {
    forall n, d :: n in s && n in c && d in c[n].dependsOn && d in c ==> d in s
  }

  /** The least set of registered modules that holds the request and is closed
      under registered dependencies. */
  ghost function Closure(c: Catalog, names: set<Name>): (w: set<Name>) {
    set n | n in c && forall s: set<Name> :: names <= s && Closed(c, s) ==> n in s
  }

  lemma ClosureIsLeast(c: Catalog, names: set<Name>, w: set<Name>)
    requires names <= w <= c.Keys && Closed(c, w)
    requires forall s: set<Name> :: names <= s && Closed(c, s) ==> w <= s
    ensures w == Closure(c, names)
  {
  }

  lemma {:induction false} ClosureProperties(c: Catalog, names: set<Name>)
    requires names <= c.Keys
    ensures names <= Closure(c, names) <= c.Keys
    ensures Closed(c, Closure(c, names))
    ensures forall s: set<Name> :: names <= s && Closed(c, s) ==> Closure(c, names) <= s
  {
    var w := Closure(c, names);
    forall n, d | n in w && n in c && d in c[n].dependsOn && d in c ensures d in w {
      forall s: set<Name> | names <= s && Closed(c, s) ensures d in s {
        assert n in s;
      }
    }
  }

  lemma ClosureOfClosure(c: Catalog, names: set<Name>)
    requires names <= c.Keys
    ensures Closure(c, Closure(c, names)) == Closure(c, names)
  {
    ClosureProperties(c, names);
    ClosureProperties(c, Closure(c, names));
  }

  // ---------------------------------------------------------- topological sort

  ghost function Deps(c: Catalog, n: Name): set<Name> {
    if n in c then c[n].dependsOn else {}
  }

  /** `out` lists modules of `subset` without repetition, each after those of its
      dependencies that lie in `subset`. */
  ghost predicate Ordered(c: Catalog, subset: set<Name>, out: seq<Name>) {
    && NoDup(out)
    && (forall i :: 0 <= i < |out| ==> out[i] in subset)
    && (forall i, d :: 0 <= i < |out| && d in Deps(c, out[i]) && d in subset ==> d in out[..i])
  }

  /** `_visit`: None stands for the ValueError raised on a cycle. */
  ghost function Visit(c: Catalog, subset: set<Name>, n: Name, out: seq<Name>,
      visiting: set<Name>): (r: Option<seq<Name>>)
    requires n in subset && visiting <= subset
    decreases |subset - visiting|, 0, 0
  {
    if n in out then Some(out)
    else if n in visiting then None
    else
      assert subset - (visiting + {n}) < subset - visiting by { assert n in subset - visiting; }
      CardinalityOfSubset(subset - (visiting + {n}), subset - visiting);
      match VisitEach(c, subset, Deps(c, n), out, visiting + {n})
      case None => None
      case Some(o) => Some(o + [n])
  }

  /** A loop over `sorted(rest)` that visits the members of `subset`. */
  ghost function VisitEach(c: Catalog, subset: set<Name>, rest: set<Name>, out: seq<Name>,
      visiting: set<Name>): (r: Option<seq<Name>>)
    requires visiting <= subset
    decreases |subset - visiting|, 1, |rest|
  {
    if rest == {} then Some(out)
    else
      var n := Least(rest);
      if n !in subset then VisitEach(c, subset, rest - {n}, out, visiting)
      else
        match Visit(c, subset, n, out, visiting)
        case None => None
        case Some(o) => VisitEach(c, subset, rest - {n}, o, visiting)
  }

  lemma {:induction false} CardinalityOfSubset<T>(a: set<T>, b: set<T>)
    requires a < b
    ensures |a| < |b|
    decreases b
  {
    var x :| x in b && x !in a;
    assert |b - {x}| == |b| - 1;
    if a < b - {x} { CardinalityOfSubset(a, b - {x}); } else { assert a == b - {x}; }
  }

  ghost function Toposort(c: Catalog, subset: set<Name>): (r: Option<seq<Name>>) {
    VisitEach(c, subset, subset, [], {})
  }

  /** Extending `out` by a visit: nothing already listed moves, nothing being
      visited is listed, and the order property is kept. */
  ghost predicate Extends(c: Catalog, subset: set<Name>, visiting: set<Name>, out: seq<Name>, o: seq<Name>) {
    && out <= o
    && Ordered(c, subset, o)
    && (forall x :: x in o && x in visiting ==> x in out)
  }

  lemma {:induction false} VisitSound(c: Catalog, subset: set<Name>, n: Name, out: seq<Name>, visiting: set<Name>)
    requires n in subset && visiting <= subset && Ordered(c, subset, out)
    ensures var r := Visit(c, subset, n, out, visiting);
      r.Some? ==> Extends(c, subset, visiting, out, r.value) && n in r.value
    decreases |subset - visiting|, 0, 0
  {
    if n !in out && n !in visiting {
      assert subset - (visiting + {n}) < subset - visiting by { assert n in subset - visiting; }
      CardinalityOfSubset(subset - (visiting + {n}), subset - visiting);
      VisitEachSound(c, subset, Deps(c, n), out, visiting + {n});
      var r := VisitEach(c, subset, Deps(c, n), out, visiting + {n});
      if r.Some? {
        var o := r.value + [n];
        assert n !in r.value;
        assert o[..|r.value|] == r.value;
        forall i, d | 0 <= i < |o| && d in Deps(c, o[i]) && d in subset ensures d in o[..i] {
          if i < |r.value| {
            assert o[..i] == r.value[..i];
          } else {
            assert d in Deps(c, n) * subset;
          }
        }
      }
    }
  }

  lemma {:induction false} VisitEachSound(c: Catalog, subset: set<Name>, rest: set<Name>, out: seq<Name>,
      visiting: set<Name>)
    requires visiting <= subset && Ordered(c, subset, out)
    ensures var r := VisitEach(c, subset, rest, out, visiting);
      r.Some? ==> Extends(c, subset, visiting, out, r.value) && rest * subset <= Elems(r.value)
    decreases |subset - visiting|, 1, |rest|
  {
    if rest != {} {
      var n := Least(rest);
      if n !in subset {
        VisitEachSound(c, subset, rest - {n}, out, visiting);
      } else {
        VisitSound(c, subset, n, out, visiting);
        var r := Visit(c, subset, n, out, visiting);
        if r.Some? {
          VisitEachSound(c, subset, rest - {n}, r.value, visiting);
        }
      }
    }
  }

  // --------------------------------------------------------------- cycles

  /** Each module of the path depends on the next one. */
  ghost predicate IsPath(c: Catalog, subset: set<Name>, p: seq<Name>) {
    && (forall i :: 0 <= i < |p| ==> p[i] in subset)
    && (forall i :: 0 <= i < |p| - 1 ==> p[i + 1] in Deps(c, p[i]))
  }

  ghost predicate IsCycle(c: Catalog, subset: set<Name>, p: seq<Name>) {
    |p| >= 2 && IsPath(c, subset, p) && p[0] == p[|p| - 1]
  }

  ghost predicate HasCycle(c: Catalog, subset: set<Name>) {
    exists p :: IsCycle(c, subset, p)
  }

  /** A failing visit shows a cycle: the modules being visited form a path to `n`. */
  lemma {:induction false} VisitFails(c: Catalog, subset: set<Name>, n: Name, out: seq<Name>, visiting: set<Name>,
      path: seq<Name>)
    returns (cycle: seq<Name>)
    requires n in subset && visiting <= subset && visiting == Elems(path)
    requires IsPath(c, subset, path + [n])
    requires Visit(c, subset, n, out, visiting).None?
    ensures IsCycle(c, subset, cycle)
    decreases |subset - visiting|, 0, 0
  {
    var p := path + [n];
    if n in visiting {
      var i :| 0 <= i < |path| && path[i] == n;
      cycle := p[i..];
      forall j | 0 <= j < |cycle| - 1 ensures cycle[j + 1] in Deps(c, cycle[j]) {
        assert cycle[j] == p[i + j] && cycle[j + 1] == p[i + j + 1];
      }
    } else {
      assert subset - (visiting + {n}) < subset - visiting by { assert n in subset - visiting; }
      CardinalityOfSubset(subset - (visiting + {n}), subset - visiting);
      assert Elems(p) == visiting + {n};
      cycle := VisitEachFails(c, subset, Deps(c, n), out, visiting + {n}, p);
    }
  }

  lemma {:induction false} VisitEachFails(c: Catalog, subset: set<Name>, rest: set<Name>, out: seq<Name>,
      visiting: set<Name>, path: seq<Name>)
    returns (cycle: seq<Name>)
    requires visiting <= subset && visiting == Elems(path) && IsPath(c, subset, path)
    requires path != [] ==> rest <= Deps(c, path[|path| - 1])
    requires VisitEach(c, subset, rest, out, visiting).None?
    ensures IsCycle(c, subset, cycle)
    decreases |subset - visiting|, 1, |rest|
  {
    var n := Least(rest);
    if n !in subset {
      cycle := VisitEachFails(c, subset, rest - {n}, out, visiting, path);
    } else {
      var r := Visit(c, subset, n, out, visiting);
      if r.None? {
        cycle := VisitFails(c, subset, n, out, visiting, path);
      } else {
        cycle := VisitEachFails(c, subset, rest - {n}, r.value, visiting, path);
      }
    }
  }

  /** Along a dependency path the positions in a complete order go down. */
  lemma {:induction false} PathGoesDown(c: Catalog, subset: set<Name>, out: seq<Name>, p: seq<Name>, i: nat, j: nat)
    requires Ordered(c, subset, out) && IsPath(c, subset, p)
    requires i < |out| && |p| > 0 && out[i] == p[0] && j < |p|
    ensures exists k :: 0 <= k <= i && out[k] == p[j] && (j > 0 ==> k < i)
    decreases j
  {
    if j > 0 {
      PathGoesDown(c, subset, out, p, i, j - 1);
      var k :| 0 <= k <= i && out[k] == p[j - 1];
      assert p[j - 1 + 1] in Deps(c, out[k]);
      var m :| 0 <= m < k && out[..k][m] == p[j];
      assert out[m] == p[j];
    }
  }

  /** The sort succeeds exactly on acyclic subsets, and then orders all of the subset. */
  lemma ToposortCorrect(c: Catalog, subset: set<Name>)
    ensures Toposort(c, subset).None? <==> HasCycle(c, subset)
    ensures var r := Toposort(c, subset);
      r.Some? ==> Ordered(c, subset, r.value) && Elems(r.value) == subset
  {
    VisitEachSound(c, subset, subset, [], {});
    var r := Toposort(c, subset);
    if r.None? {
      var cycle := VisitEachFails(c, subset, subset, [], {}, []);
    } else if HasCycle(c, subset) {
      var p :| IsCycle(c, subset, p);
      assert p[0] in subset * subset;
      var i :| 0 <= i < |r.value| && r.value[i] == p[0];
      PathGoesDown(c, subset, r.value, p, i, |p| - 1);
    }
  }

  // ------------------------------------------------------------ resolve_order

  ghost function OfPhase(c: Catalog, w: set<Name>, p: Phase): set<Name> {
    set n | n in w && n in c && c[n].phase == p
  }

  ghost predicate MissingDependency(c: Catalog, w: set<Name>) {
    exists n, d :: n in w && d in Deps(c, n) && d !in c
  }

  ghost predicate LaterPhaseEdge(c: Catalog, w: set<Name>) {
    exists n, d :: n in w && n in c && d in c[n].dependsOn && d in c && Rank(c[d].phase) > Rank(c[n].phase)
  }

  ghost function SortedPhases(c: Catalog, w: set<Name>): Option<seq<Name>> {
    var o := Toposort(c, OfPhase(c, w, Osint));
    var p := Toposort(c, OfPhase(c, w, Passive));
    var a := Toposort(c, OfPhase(c, w, Active));
    if o.None? || p.None? || a.None? then None else Some(o.value + p.value + a.value)
  }

  /** What `resolve_order` returns, None for an exception. */
  ghost function Resolve(c: Catalog, names: set<Name>): Option<seq<Name>> {
    var w := Closure(c, names);
    if !(names <= c.Keys) || MissingDependency(c, w) || LaterPhaseEdge(c, w) then None
    else
      SortedPhases(c, w)
  }

  /** A valid run order for the module set `w`. */
  ghost predicate ValidOrder(c: Catalog, w: set<Name>, order: seq<Name>) {
    && Elems(order) == w
    && w <= c.Keys
    && Ordered(c, w, order)
    && (forall i, j :: 0 <= i < j < |order| ==> Rank(c[order[i]].phase) <= Rank(c[order[j]].phase))
  }

  lemma {:induction false} PhaseDown(c: Catalog, w: set<Name>, p: seq<Name>, i: nat, j: nat)
    requires w <= c.Keys && IsPath(c, w, p) && !LaterPhaseEdge(c, w) && i <= j < |p|
    ensures Rank(c[p[j]].phase) <= Rank(c[p[i]].phase)
    decreases j
  {
    if i < j {
      PhaseDown(c, w, p, i, j - 1);
      assert p[j - 1 + 1] in Deps(c, p[j - 1]);
      assert p[j] in c[p[j - 1]].dependsOn && p[j] in w;
    }
  }

  /** A cycle anywhere in the closure is a cycle inside one phase, or crosses a
      later-phase edge that the phase check reports. */
  lemma CycleWithinPhase(c: Catalog, w: set<Name>)
    requires w <= c.Keys && !LaterPhaseEdge(c, w)
    ensures HasCycle(c, w) <==>
      HasCycle(c, OfPhase(c, w, Osint)) || HasCycle(c, OfPhase(c, w, Passive)) || HasCycle(c, OfPhase(c, w, Active))
  {
    if HasCycle(c, w) {
      var p :| IsCycle(c, w, p);
      var ph := c[p[0]].phase;
      forall j | 0 <= j < |p| ensures p[j] in OfPhase(c, w, ph) {
        PhaseDown(c, w, p, 0, j);
        PhaseDown(c, w, p, j, |p| - 1);
      }
      assert IsCycle(c, OfPhase(c, w, ph), p);
      match ph { case Osint => case Passive => case Active => }
    }
    forall ph: Phase | HasCycle(c, OfPhase(c, w, ph)) ensures HasCycle(c, w) {
      var p :| IsCycle(c, OfPhase(c, w, ph), p);
      assert IsCycle(c, w, p);
    }
  }

  /** Errors, exactly: an unknown request, an unregistered dependency, an edge into
      a later phase, or a dependency cycle in the closure. */
  lemma ResolveFailsExactly(c: Catalog, names: set<Name>)
    ensures Resolve(c, names).None? <==>
      var w := Closure(c, names);
      !(names <= c.Keys) || MissingDependency(c, w) || LaterPhaseEdge(c, w) || HasCycle(c, w)
  {
    var w := Closure(c, names);
    if !LaterPhaseEdge(c, w) {
      CycleWithinPhase(c, w);
      ToposortCorrect(c, OfPhase(c, w, Osint));
      ToposortCorrect(c, OfPhase(c, w, Passive));
      ToposortCorrect(c, OfPhase(c, w, Active));
    }
  }

  lemma ConcatOrdered(c: Catalog, w: set<Name>, a: set<Name>, b: set<Name>, x: seq<Name>, y: seq<Name>)
    requires Ordered(c, a, x) && Elems(x) == a && Ordered(c, b, y) && Elems(y) == b && a !! b
    requires forall n, d :: n in a && d in Deps(c, n) && d in b ==> false
    ensures Ordered(c, a + b, x + y) && Elems(x + y) == a + b
  {
    var z := x + y;
    forall i, d | 0 <= i < |z| && d in Deps(c, z[i]) && d in a + b ensures d in z[..i] {
      if i < |x| {
        assert z[..i] == x[..i];
      } else {
        assert z[i] == y[i - |x|] && z[..i] == x + y[..i - |x|];
        if d in a { assert d in x; }
      }
    }
    forall n | n in a + b ensures n in z {
      if n in a { assert n in x; } else { assert n in y; }
    }
  }

  lemma PhasesPartition(c: Catalog, w: set<Name>)
    requires w <= c.Keys
    ensures var o, p, a := OfPhase(c, w, Osint), OfPhase(c, w, Passive), OfPhase(c, w, Active);
      o + p + a == w && o !! p && (o + p) !! a
  {
    var o, p, a := OfPhase(c, w, Osint), OfPhase(c, w, Passive), OfPhase(c, w, Active);
    forall n | n in w ensures n in o + p + a {
      match c[n].phase { case Osint => case Passive => case Active => }
    }
  }

  ghost predicate AllOfPhase(c: Catalog, out: seq<Name>, ph: Phase) {
    forall i :: 0 <= i < |out| ==> out[i] in c && c[out[i]].phase == ph
  }

  lemma SortedHasPhase(c: Catalog, w: set<Name>, ph: Phase, out: seq<Name>)
    requires w <= c.Keys && Elems(out) == OfPhase(c, w, ph)
    ensures AllOfPhase(c, out, ph)
  {
    forall i | 0 <= i < |out| ensures out[i] in c && c[out[i]].phase == ph {
      assert out[i] in Elems(out);
    }
  }

  /** Three lists, one a phase: ranks never fall. */
  lemma RanksNeverFall(c: Catalog, o: seq<Name>, p: seq<Name>, a: seq<Name>)
    requires AllOfPhase(c, o, Osint) && AllOfPhase(c, p, Passive) && AllOfPhase(c, a, Active)
    ensures var order := o + p + a;
      forall i, j :: 0 <= i < j < |order| ==>
        order[i] in c && order[j] in c && Rank(c[order[i]].phase) <= Rank(c[order[j]].phase)
  {
    var order := o + p + a;
    forall i | 0 <= i < |order|
      ensures order[i] in c && c[order[i]].phase == if i < |o| then Osint else if i < |o| + |p| then Passive else Active
    {
      assert order[i] == if i < |o| then o[i] else if i < |o| + |p| then p[i - |o|] else a[i - |o| - |p|];
    }
  }

  /** No dependency points from a phase into a later one. */
  lemma NoLaterDeps(c: Catalog, w: set<Name>, n: Name, d: Name)
    requires w <= c.Keys && !LaterPhaseEdge(c, w) && n in w && d in w && d in Deps(c, n)
    ensures Rank(c[d].phase) <= Rank(c[n].phase)
  {
  }

  lemma PhasesOrdered(c: Catalog, w: set<Name>, o: seq<Name>, p: seq<Name>, a: seq<Name>)
    requires w <= c.Keys && !LaterPhaseEdge(c, w)
    requires Ordered(c, OfPhase(c, w, Osint), o) && Elems(o) == OfPhase(c, w, Osint)
    requires Ordered(c, OfPhase(c, w, Passive), p) && Elems(p) == OfPhase(c, w, Passive)
    requires Ordered(c, OfPhase(c, w, Active), a) && Elems(a) == OfPhase(c, w, Active)
    ensures Ordered(c, w, o + p + a) && Elems(o + p + a) == w
  {
    var wo, wp, wa := OfPhase(c, w, Osint), OfPhase(c, w, Passive), OfPhase(c, w, Active);
    PhasesPartition(c, w);
    forall n, d | n in wo && d in Deps(c, n) && d in wp ensures false {
      NoLaterDeps(c, w, n, d);
    }
    ConcatOrdered(c, w, wo, wp, o, p);
    forall n, d | n in wo + wp && d in Deps(c, n) && d in wa ensures false {
      NoLaterDeps(c, w, n, d);
    }
    ConcatOrdered(c, w, wo + wp, wa, o + p, a);
  }

  /** Every answer is a valid order of exactly the closure of the request. */
  lemma ResolveSound(c: Catalog, names: set<Name>)
    requires Resolve(c, names).Some?
    ensures ValidOrder(c, Closure(c, names), Resolve(c, names).value)
  {
    var w := Closure(c, names);
    ClosureProperties(c, names);
    var wo, wp, wa := OfPhase(c, w, Osint), OfPhase(c, w, Passive), OfPhase(c, w, Active);
    ToposortCorrect(c, wo);
    ToposortCorrect(c, wp);
    ToposortCorrect(c, wa);
    var o, p, a := Toposort(c, wo).value, Toposort(c, wp).value, Toposort(c, wa).value;
    PhasesOrdered(c, w, o, p, a);
    SortedHasPhase(c, w, Osint, o);
    SortedHasPhase(c, w, Passive, p);
    SortedHasPhase(c, w, Active, a);
    RanksNeverFall(c, o, p, a);
  }

  /** Resolving the stored order again gives the identical order. */
  lemma ResolveStable(c: Catalog, names: set<Name>)
    requires Resolve(c, names).Some?
    ensures Resolve(c, Elems(Resolve(c, names).value)) == Resolve(c, names)
  {
    ResolveSound(c, names);
    ClosureOfClosure(c, names);
    ClosureProperties(c, names);
  }

  // -------------------------------------------------------- the imperative form

  /** The state that the nested functions of `resolve_order` share. */
  class Resolver {
    const catalog: Catalog
    var wanted: set<Name>
    var out: seq<Name>
    var visiting: set<Name>

    constructor (catalog: Catalog)
      ensures this.catalog == catalog && wanted == {} && out == [] && visiting == {}
    {
      this.catalog := catalog;
      wanted, out, visiting := {}, [], {};
    }

    /** What a call of `_pull` adds: a part closed under dependencies, and nothing
        that a closed set holding the old `wanted` and `n` could leave out. */
    ghost predicate Grown(before: set<Name>, roots: set<Name>, after: set<Name>) {
      && before <= after <= catalog.Keys
      && (forall r :: r in roots && r in catalog ==> r in after)
      && (forall m, d :: m in after && m !in before && d in catalog[m].dependsOn && d in catalog ==> d in after)
      && (forall s: set<Name> ::
        before <= s && (forall r :: r in roots && r in catalog ==> r in s) && Closed(catalog, s) ==> after <= s)
    }

    method Pull(n: Name, required: bool) returns (error: Option<ResolveError>)
      requires wanted <= catalog.Keys
      modifies this`wanted
      ensures error == if required && n !in catalog then Some(UnknownModule(n)) else None
      ensures Grown(old(wanted), {n}, wanted)
      decreases |catalog.Keys - wanted|, 0
    {
      if n in wanted {
        return None;
      }
      if n !in catalog {
        if required {
          return Some(UnknownModule(n));
        }
        return None;
      }
      assert catalog.Keys - (wanted + {n}) < catalog.Keys - wanted by { assert n in catalog.Keys - wanted; }
      CardinalityOfSubset(catalog.Keys - (wanted + {n}), catalog.Keys - wanted);
      wanted := wanted + {n};
      PullAll(catalog[n].dependsOn);
      error := None;
    }

    method PullAll(deps: set<Name>)
      requires wanted <= catalog.Keys
      modifies this`wanted
      ensures Grown(old(wanted), deps, wanted)
      decreases |catalog.Keys - wanted|, 1
    {
      var rest := deps;
      while rest != {}
        invariant rest <= deps
        invariant Grown(old(wanted), deps - rest, wanted)
        decreases |rest|
      {
        var dep :| dep in rest;
        ghost var before := wanted;
        if catalog.Keys - before < catalog.Keys - old(wanted) {
          CardinalityOfSubset(catalog.Keys - before, catalog.Keys - old(wanted));
        } else {
          assert catalog.Keys - before == catalog.Keys - old(wanted);
        }
        var _ := Pull(dep, false);
        rest := rest - {dep};
      }
    }

    /** `_visit`: an error is exactly a None of the specification. */
    method DoVisit(n: Name, subset: set<Name>) returns (error: Option<ResolveError>)
      requires n in subset && subset <= catalog.Keys && visiting <= subset
      modifies this`out, this`visiting
      ensures error.None? ==>
        Visit(catalog, subset, n, old(out), old(visiting)) == Some(out) && visiting == old(visiting)
      ensures error.Some? ==> error.value.Cycle? && Visit(catalog, subset, n, old(out), old(visiting)) == None
      decreases |subset - visiting|, 0
    {
      if n in out {
        return None;
      }
      if n in visiting {
        return Some(Cycle(n));
      }
      assert subset - (visiting + {n}) < subset - visiting by { assert n in subset - visiting; }
      CardinalityOfSubset(subset - (visiting + {n}), subset - visiting);
      visiting := visiting + {n};
      error := VisitSorted(catalog[n].dependsOn, subset);
      if error.Some? {
        return;
      }
      visiting := visiting - {n};
      out := out + [n];
    }

    /** The loops over `sorted(...)`. */
    method VisitSorted(names: set<Name>, subset: set<Name>) returns (error: Option<ResolveError>)
      requires subset <= catalog.Keys && visiting <= subset
      modifies this`out, this`visiting
      ensures error.None? ==>
        VisitEach(catalog, subset, names, old(out), old(visiting)) == Some(out) && visiting == old(visiting)
      ensures error.Some? ==> error.value.Cycle? && VisitEach(catalog, subset, names, old(out), old(visiting)) == None
      decreases |subset - visiting|, 1
    {
      var rest := names;
      while rest != {}
        invariant visiting == old(visiting)
        invariant VisitEach(catalog, subset, names, old(out), visiting) ==
          VisitEach(catalog, subset, rest, out, visiting)
        decreases |rest|
      {
        LeastExists(rest);
        var n :| n in rest && forall m :: m in rest ==> Le(n, m);
        LeastUnique(rest, n, Least(rest));
        if n in subset {
          error := DoVisit(n, subset);
          if error.Some? {
            return;
          }
        }
        rest := rest - {n};
      }
      error := None;
    }

    method DoToposort(subset: set<Name>) returns (r: Result<seq<Name>, ResolveError>)
      requires subset <= catalog.Keys
      modifies this`out, this`visiting
      ensures r.Ok? ==> Toposort(catalog, subset) == Some(r.value)
      ensures r.Err? ==> r.error.Cycle? && Toposort(catalog, subset).None?
    {
      out, visiting := [], {};
      var error := VisitSorted(subset, subset);
      r := if error.Some? then Err(error.value) else Ok(out);
    }

    /** The loop over `wanted` that looks up each dependency's phase. The set has no
        fixed iteration order, so which of several errors is raised is left open. */
    method CheckPhases() returns (error: Option<ResolveError>)
      requires wanted <= catalog.Keys
      ensures error.None? <==> !MissingDependency(catalog, wanted) && !LaterPhaseEdge(catalog, wanted)
      ensures error.Some? && error.value.UnknownModule? ==> MissingDependency(catalog, wanted)
      ensures error.Some? && error.value.LaterPhase? ==> LaterPhaseEdge(catalog, wanted)
      ensures error.Some? ==> !error.value.Cycle?
    {
      var rest := wanted;
      while rest != {}
        invariant rest <= wanted
        invariant forall n, d :: n in wanted - rest && d in catalog[n].dependsOn ==>
          d in catalog && Rank(catalog[d].phase) <= Rank(catalog[n].phase)
        decreases |rest|
      {
        var n :| n in rest;
        var deps := catalog[n].dependsOn;
        while deps != {}
          invariant deps <= catalog[n].dependsOn
          invariant forall d :: d in catalog[n].dependsOn && d !in deps ==>
            d in catalog && Rank(catalog[d].phase) <= Rank(catalog[n].phase)
          decreases |deps|
        {
          var d :| d in deps;
          if d !in catalog {
            return Some(UnknownModule(d));
          }
          if Rank(catalog[d].phase) > Rank(catalog[n].phase) {
            return Some(LaterPhase(n));
          }
          deps := deps - {d};
        }
        rest := rest - {n};
      }
      error := None;
    }

    /** The loop over the requested names. */
    method PullRequested(names: seq<Name>) returns (error: Option<ResolveError>)
      requires wanted == {}
      modifies this`wanted
      ensures error.None? <==> Elems(names) <= catalog.Keys
      ensures error.None? ==> wanted == Closure(catalog, Elems(names))
      ensures error.Some? ==> error.value.UnknownModule?
    {
      for i := 0 to |names|
        invariant Elems(names[..i]) <= catalog.Keys
        invariant Grown({}, Elems(names[..i]), wanted)
      {
        error := Pull(names[i], true);
        if error.Some? {
          assert names[i] in Elems(names);
          return;
        }
        assert Elems(names[..i + 1]) == Elems(names[..i]) + {names[i]};
      }
      assert names[..|names|] == names;
      ClosureIsLeast(catalog, Elems(names), wanted);
      error := None;
    }

    /** The sort of each phase in rank order. */
    method SortPhases() returns (r: Result<seq<Name>, ResolveError>)
      requires wanted <= catalog.Keys
      modifies this`out, this`visiting
      ensures r.Ok? ==> SortedPhases(catalog, wanted) == Some(r.value)
      ensures r.Err? ==> r.error.Cycle? && SortedPhases(catalog, wanted).None?
    {
      var osint := DoToposort(set n | n in wanted && catalog[n].phase == Osint);
      assert (set n | n in wanted && catalog[n].phase == Osint) == OfPhase(catalog, wanted, Osint);
      if osint.Err? { return osint; }
      var passive := DoToposort(set n | n in wanted && catalog[n].phase == Passive);
      assert (set n | n in wanted && catalog[n].phase == Passive) == OfPhase(catalog, wanted, Passive);
      if passive.Err? { return passive; }
      var active := DoToposort(set n | n in wanted && catalog[n].phase == Active);
      assert (set n | n in wanted && catalog[n].phase == Active) == OfPhase(catalog, wanted, Active);
      if active.Err? { return active; }
      r := Ok(osint.value + passive.value + active.value);
    }
  }

  /** `resolve_order`: success is exactly the specification's order; a KeyError
      (`UnknownModule`) means an unregistered request or dependency, a ValueError a
      later-phase edge or a cycle in the closure. */
  method ResolveOrder(catalog: Catalog, names: seq<Name>) returns (r: Result<seq<Name>, ResolveError>)
    ensures r.Ok? <==> Resolve(catalog, Elems(names)).Some?
    ensures r.Ok? ==> Resolve(catalog, Elems(names)) == Some(r.value)
    ensures r.Err? ==>
      var w := Closure(catalog, Elems(names));
      match r.error
      case UnknownModule(_) => !(Elems(names) <= catalog.Keys) || MissingDependency(catalog, w)
      case LaterPhase(_) => LaterPhaseEdge(catalog, w)
      case Cycle(_) => HasCycle(catalog, w)
  {
    var s := new Resolver(catalog);
    var error := s.PullRequested(names);
    if error.Some? {
      return Err(error.value);
    }
    error := s.CheckPhases();
    if error.Some? {
      return Err(error.value);
    }
    ResolveFailsExactly(catalog, Elems(names));
    r := s.SortPhases();
  }
}
