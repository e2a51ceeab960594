/** The recursive subdomain enumeration
    (recon/modules/passive/subdomain_recurse.py): rounds over seeds over sources over hits. */
module Recurse {
  import opened Prelude
  import opened Text
  import opened Ordering

  /** `_MAX_SEEDS_PER_ROUND` and `_MAX_NEW_TOTAL`. */
  datatype Limits = Limits(seeds: nat, total: nat)

  const DEFAULTS := Limits(60, 3000)
  const RECURSE_SOURCES: set<string> := {"crtsh", "certspotter", "anubis", "otx"}

  /** What a source answers to a seed in a round: its names, or nothing when it fails or
      times out. */
  type Fetch = (nat, string, string) -> Option<seq<string>>

  /** The names seen, the next frontier, and the names emitted, in order. */
  datatype Acc = Acc(seen: set<string>, next: set<string>, found: seq<string>)

  // ----------------------------------------------------------------- the loops

  predicate IsNew(a: Acc, seed: string, name: string) {
    name !in a.seen && Below(name, seed)
  }

  function Add(a: Acc, name: string): Acc {
    Acc(a.seen + {name}, a.next + {name}, a.found + [name])
  }

  /** The loop over the hits of one source; reaching the cap ends this loop only. */
  ghost function TakeHits(m: Limits, a: Acc, seed: string, hits: seq<string>): Acc
    decreases |hits|
  {
    if hits == [] then a
    else if !IsNew(a, seed, hits[0]) then TakeHits(m, a, seed, hits[1..])
    else
      var b := Add(a, hits[0]);
      if |b.found| >= m.total then b else TakeHits(m, b, seed, hits[1..])
  }

  ghost function AskSources(m: Limits, f: Fetch, round: nat, seed: string, sources: seq<string>, a: Acc): Acc
    decreases |sources|
  {
    if sources == [] then a
    else AskSources(m, f, round, seed, sources[1..], AskSource(m, f, round, seed, sources[0], a))
  }

  ghost function AskSource(m: Limits, f: Fetch, round: nat, seed: string, source: string, a: Acc): Acc {
    match f(round, seed, source) case None => a case Some(hits) => TakeHits(m, a, seed, hits)
  }

  ghost function AskSeeds(m: Limits, f: Fetch, round: nat, seeds: seq<string>, sources: seq<string>, a: Acc): Acc
    decreases |seeds|
  {
    if seeds == [] then a
    else AskSeeds(m, f, round, seeds[1..], sources, AskSources(m, f, round, seeds[0], sources, a))
  }

  function Batch(m: Limits, frontier: seq<string>): seq<string> {
    if |frontier| <= m.seeds then frontier else frontier[..m.seeds]
  }

  /** One round, from an empty next frontier. */
  ghost function Round(m: Limits, f: Fetch, round: nat, frontier: seq<string>, sources: seq<string>, a: Acc): Acc {
    AskSeeds(m, f, round, Batch(m, frontier), sources, a.(next := {}))
  }

  /** The rounds from `round` to `last`. */
  ghost function Rounds(m: Limits, f: Fetch, round: nat, last: nat, frontier: seq<string>, sources: seq<string>,
      a: Acc): Acc
    decreases last + 1 - round
  {
    if round > last || frontier == [] || |a.found| >= m.total then a
    else
      var b := Round(m, f, round, frontier, sources, a);
      Rounds(m, f, round + 1, last, SortedOf(b.next), sources, b)
  }

  /** The names to start from: known names below an apex that are no apex themselves. */
  predicate Starts(apexes: set<string>, n: string) {
    n !in apexes && exists a :: a in apexes && Below(n, a) && n != a
  }

  ghost function Frontier(apexes: set<string>, known: set<string>): seq<string> {
    SortedOf(set n | n in known && Starts(apexes, n))
  }

  /** `SubdomainRecurseModule.run` on the known names. */
  ghost function Recursion(m: Limits, f: Fetch, rounds: nat, apexes: set<string>, known: set<string>,
      sources: seq<string>): Acc {
    Rounds(m, f, 1, rounds, Frontier(apexes, known), sources, Acc(known, {}, []))
  }

  method HitsLoop(m: Limits, a: Acc, seed: string, hits: seq<string>) returns (b: Acc)
    ensures b == TakeHits(m, a, seed, hits)
  {
    b := a;
    for k := 0 to |hits|
      invariant TakeHits(m, b, seed, hits[k..]) == TakeHits(m, a, seed, hits)
    {
      assert hits[k..][0] == hits[k] && hits[k..][1..] == hits[k + 1..];
      var name := hits[k];
      if name in b.seen || !Below(name, seed) {
        continue;
      }
      b := Acc(b.seen + {name}, b.next + {name}, b.found + [name]);
      if |b.found| >= m.total {
        return;
      }
    }
  }

  method SourcesLoop(m: Limits, f: Fetch, round: nat, seed: string, sources: seq<string>, a: Acc) returns (b: Acc)
    ensures b == AskSources(m, f, round, seed, sources, a)
  {
    b := a;
    for k := 0 to |sources|
      invariant AskSources(m, f, round, seed, sources[k..], b) == AskSources(m, f, round, seed, sources, a)
    {
      assert sources[k..][0] == sources[k] && sources[k..][1..] == sources[k + 1..];
      var hits := f(round, seed, sources[k]);
      if hits.None? {
        continue;
      }
      b := HitsLoop(m, b, seed, hits.value);
    }
  }

  method SeedsLoop(m: Limits, f: Fetch, round: nat, seeds: seq<string>, sources: seq<string>, a: Acc) returns (b: Acc)
    ensures b == AskSeeds(m, f, round, seeds, sources, a)
  {
    b := a;
    for k := 0 to |seeds|
      invariant AskSeeds(m, f, round, seeds[k..], sources, b) == AskSeeds(m, f, round, seeds, sources, a)
    {
      assert seeds[k..][0] == seeds[k] && seeds[k..][1..] == seeds[k + 1..];
      b := SourcesLoop(m, f, round, seeds[k], sources, b);
    }
  }

  /** `SubdomainRecurseModule.run`. `all` are the names of the source adapters. */
  method Run(m: Limits, f: Fetch, rounds: nat, apexes: set<string>, known: set<string>, all: seq<string>,
      disabled: set<string>)
    returns (b: Acc)
    ensures b == Recursion(m, f, rounds, apexes, known, Chosen(all, disabled))
  {
    var sources := Choose(all, disabled);
    b := Acc(known, {}, []);
    if rounds == 0 || sources == [] {
      NoSources(m, f, 1, rounds, Frontier(apexes, known), b);
      return;
    }
    var frontier := SortedList(set n | n in known && Starts(apexes, n));
    var round := 1;
    while round <= rounds
      invariant Rounds(m, f, round, rounds, frontier, sources, b) == Recursion(m, f, rounds, apexes, known, sources)
      invariant round <= rounds + 1
    {
      if frontier == [] || |b.found| >= m.total {
        break;
      }
      b := SeedsLoop(m, f, round, Batch(m, frontier), sources, b.(next := {}));
      frontier := SortedList(b.next);
      round := round + 1;
    }
  }

  function Chosen(all: seq<string>, disabled: set<string>): seq<string> {
    if all == [] then []
    else
      var source := all[|all| - 1];
      Chosen(all[..|all| - 1], disabled) + (if source in RECURSE_SOURCES && source !in disabled then [source] else [])
  }

  method Choose(all: seq<string>, disabled: set<string>) returns (sources: seq<string>)
    ensures sources == Chosen(all, disabled)
  {
    sources := [];
    for k := 0 to |all|
      invariant sources == Chosen(all[..k], disabled)
    {
      assert all[..k + 1][..k] == all[..k];
      if all[k] in RECURSE_SOURCES && all[k] !in disabled {
        sources := sources + [all[k]];
      }
    }
    assert all[..|all|] == all;
  }

  /** Without a source, or without a round, nothing is found. */
  lemma {:induction false} NoSources(m: Limits, f: Fetch, round: nat, last: nat, frontier: seq<string>, a: Acc)
    requires a.next == {}
    ensures Rounds(m, f, round, last, frontier, [], a) == a
  {
    AskNobody(m, f, round, Batch(m, frontier), a.(next := {}));
  }

  lemma {:induction false} AskNobody(m: Limits, f: Fetch, round: nat, seeds: seq<string>, a: Acc)
    ensures AskSeeds(m, f, round, seeds, [], a) == a
    decreases |seeds|
  {
    if seeds != [] { AskNobody(m, f, round, seeds[1..], a); }
  }

  // ------------------------------------------------------------- what was asked

  datatype Query = Query(round: nat, seed: string, source: string)

  ghost function SourceQueries(round: nat, seed: string, sources: seq<string>): (qs: seq<Query>)
    ensures |qs| == |sources|
  {
    if sources == [] then [] else [Query(round, seed, sources[0])] + SourceQueries(round, seed, sources[1..])
  }

  ghost function SeedQueries(round: nat, seeds: seq<string>, sources: seq<string>): seq<Query> {
    if seeds == [] then [] else SourceQueries(round, seeds[0], sources) + SeedQueries(round, seeds[1..], sources)
  }

  ghost function Queries(m: Limits, f: Fetch, round: nat, last: nat, frontier: seq<string>, sources: seq<string>,
      a: Acc): seq<Query>
    decreases last + 1 - round
  {
    if round > last || frontier == [] || |a.found| >= m.total then []
    else
      var b := Round(m, f, round, frontier, sources, a);
      SeedQueries(round, Batch(m, frontier), sources) + Queries(m, f, round + 1, last, SortedOf(b.next), sources, b)
  }

  /** The answer to a query offers this name: it is strictly below the seed. */
  ghost predicate Offered(f: Fetch, q: Query, name: string) {
    f(q.round, q.seed, q.source).Some? && name in f(q.round, q.seed, q.source).value && Below(name, q.seed)
  }

  /** From `a` to `b` the queries were asked: what is new was offered by one of them, and
      short of the cap everything they offered is seen. */
  ghost predicate Asked(m: Limits, f: Fetch, qs: seq<Query>, a: Acc, b: Acc) {
    && a.seen <= b.seen && |a.found| <= |b.found|
    && (forall x :: x in b.seen && x !in a.seen ==> exists q :: q in qs && Offered(f, q, x))
    && (|b.found| < m.total ==> forall q, x :: q in qs && Offered(f, q, x) ==> x in b.seen)
  }

  lemma AskedThen(m: Limits, f: Fetch, p: seq<Query>, q: seq<Query>, a: Acc, b: Acc, c: Acc)
    requires Asked(m, f, p, a, b) && Asked(m, f, q, b, c)
    ensures Asked(m, f, p + q, a, c)
  {
    forall x | x in c.seen && x !in a.seen ensures exists u :: u in p + q && Offered(f, u, x) {
      var u :| (u in p || u in q) && Offered(f, u, x);
      assert u in p + q;
    }
  }

  /** Names are emitted once: the found names are new, distinct, and together with the
      known ones all that is seen. */
  ghost predicate Sound(known: set<string>, a: Acc) {
    a.seen == known + Elems(a.found) && NoDup(a.found) && Elems(a.found) !! known && a.next <= a.seen
  }

  lemma AddKeepsSound(known: set<string>, a: Acc, name: string)
    requires Sound(known, a) && name !in a.seen
    ensures Sound(known, Add(a, name))
  {
    assert Elems(a.found + [name]) == Elems(a.found) + {name};
    assert forall i :: 0 <= i < |a.found| ==> a.found[i] in Elems(a.found);
  }

  /** One source: at the cap it adds one more name, if it offers a new one, and never two. */
  lemma {:induction false} TakeHitsIs(m: Limits, known: set<string>, a: Acc, seed: string, hits: seq<string>)
    requires Sound(known, a)
    ensures var b := TakeHits(m, a, seed, hits);
      && Sound(known, b) && a.seen <= b.seen && b.next == a.next + (b.seen - a.seen)
      && |a.found| <= |b.found| <= Max(m.total, |a.found| + 1)
      && (forall x :: x in b.seen && x !in a.seen ==> x in hits && Below(x, seed))
      && (|b.found| < m.total ==> forall x :: x in hits && Below(x, seed) ==> x in b.seen)
      && (|a.found| >= m.total ==> (|b.found| == |a.found| + 1 <==> exists x :: x in hits && IsNew(a, seed, x)))
    decreases |hits|
  {
    if hits != [] {
      var rest := hits[1..];
      assert hits == [hits[0]] + rest;
      if IsNew(a, seed, hits[0]) {
        AddKeepsSound(known, a, hits[0]);
        var b := Add(a, hits[0]);
        if |b.found| < m.total {
          TakeHitsIs(m, known, b, seed, rest);
        }
      } else {
        TakeHitsIs(m, known, a, seed, rest);
      }
    }
  }

  function Max(x: int, y: int): int {
    if x < y then y else x
  }

  /** How far the total can be from the cap: an answer moves it by at most one. */
  function Room(m: Limits, a: Acc): int {
    Max(m.total - 1, |a.found|)
  }

  /** `b` follows `a` after `k` queries: nothing is emitted twice, all that is new is in the
      next frontier, and the total is at most `k` above the cap less one. */
  ghost predicate After(m: Limits, known: set<string>, a: Acc, b: Acc, k: int) {
    Sound(known, b) && b.next == a.next + (b.seen - a.seen) && Room(m, b) <= Room(m, a) + k
  }

  lemma AskSourceIs(m: Limits, f: Fetch, known: set<string>, round: nat, seed: string, source: string, a: Acc)
    requires Sound(known, a)
    ensures var b := AskSource(m, f, round, seed, source, a);
      Asked(m, f, [Query(round, seed, source)], a, b) && After(m, known, a, b, 1)
  {
    var q := Query(round, seed, source);
    assert q in [q];
    match f(round, seed, source) {
      case None =>
      case Some(hits) => TakeHitsIs(m, known, a, seed, hits);
    }
  }

  lemma {:induction false} AskSourcesIs(m: Limits, f: Fetch, known: set<string>, round: nat, seed: string,
      sources: seq<string>, a: Acc)
    requires Sound(known, a)
    ensures var b := AskSources(m, f, round, seed, sources, a);
      Asked(m, f, SourceQueries(round, seed, sources), a, b) && After(m, known, a, b, |sources|)
    decreases |sources|
  {
    if sources != [] {
      var b := AskSource(m, f, round, seed, sources[0], a);
      AskSourceIs(m, f, known, round, seed, sources[0], a);
      AskSourcesIs(m, f, known, round, seed, sources[1..], b);
      AskedThen(m, f, [Query(round, seed, sources[0])], SourceQueries(round, seed, sources[1..]), a, b,
        AskSources(m, f, round, seed, sources, a));
    }
  }

  lemma {:induction false} AskSeedsIs(m: Limits, f: Fetch, known: set<string>, round: nat, seeds: seq<string>,
      sources: seq<string>, a: Acc)
    requires Sound(known, a)
    ensures var b := AskSeeds(m, f, round, seeds, sources, a);
      Asked(m, f, SeedQueries(round, seeds, sources), a, b) && After(m, known, a, b, |seeds| * |sources|)
    decreases |seeds|
  {
    if seeds != [] {
      var b := AskSources(m, f, round, seeds[0], sources, a);
      AskSourcesIs(m, f, known, round, seeds[0], sources, a);
      AskSeedsIs(m, f, known, round, seeds[1..], sources, b);
      AskedThen(m, f, SourceQueries(round, seeds[0], sources), SeedQueries(round, seeds[1..], sources), a, b,
        AskSeeds(m, f, round, seeds, sources, a));
      assert |seeds| * |sources| == |sources| + |seeds[1..]| * |sources|;
    }
  }

  lemma RoundIs(m: Limits, f: Fetch, known: set<string>, round: nat, frontier: seq<string>, sources: seq<string>,
      a: Acc)
    requires Sound(known, a) && |a.found| < m.total
    ensures var b := Round(m, f, round, frontier, sources, a);
      && Asked(m, f, SeedQueries(round, Batch(m, frontier), sources), a, b)
      && Sound(known, b) && b.next == b.seen - a.seen
      && |b.found| <= m.total - 1 + m.seeds * |sources|
  {
    var batch := Batch(m, frontier);
    AskSeedsIs(m, f, known, round, batch, sources, a.(next := {}));
    FewerSeeds(|batch|, m.seeds, |sources|);
  }

  lemma FewerSeeds(x: nat, y: nat, k: nat)
    requires x <= y
    ensures x * k <= y * k
  {
  }

  lemma {:induction false} RoundsAsk(m: Limits, f: Fetch, known: set<string>, round: nat, last: nat,
      frontier: seq<string>, sources: seq<string>, a: Acc)
    requires Sound(known, a)
    ensures var b := Rounds(m, f, round, last, frontier, sources, a);
      Sound(known, b) && Asked(m, f, Queries(m, f, round, last, frontier, sources, a), a, b)
    decreases last + 1 - round
  {
    if !(round > last || frontier == [] || |a.found| >= m.total) {
      var b := Round(m, f, round, frontier, sources, a);
      RoundIs(m, f, known, round, frontier, sources, a);
      RoundsAsk(m, f, known, round + 1, last, SortedOf(b.next), sources, b);
      AskedThen(m, f, SeedQueries(round, Batch(m, frontier), sources),
        Queries(m, f, round + 1, last, SortedOf(b.next), sources, b), a, b,
        Rounds(m, f, round, last, frontier, sources, a));
    }
  }

  /** The names found stay within a bound that covers one round's overshoot. */
  lemma {:induction false} RoundsStay(m: Limits, f: Fetch, known: set<string>, round: nat, last: nat,
      frontier: seq<string>, sources: seq<string>, a: Acc)
    requires Sound(known, a) && |a.found| <= Max(0, m.total - 1 + m.seeds * |sources|)
    ensures |Rounds(m, f, round, last, frontier, sources, a).found| <= Max(0, m.total - 1 + m.seeds * |sources|)
    decreases last + 1 - round
  {
    if !(round > last || frontier == [] || |a.found| >= m.total) {
      var b := Round(m, f, round, frontier, sources, a);
      RoundIs(m, f, known, round, frontier, sources, a);
      RoundsStay(m, f, known, round + 1, last, SortedOf(b.next), sources, b);
    }
  }

  /** All rounds: every name emitted once and offered by a query that was made; nothing
      offered is lost short of the cap; and the total passes the cap by less than the
      queries of one round. */
  lemma RoundsAre(m: Limits, f: Fetch, known: set<string>, round: nat, last: nat, frontier: seq<string>,
      sources: seq<string>, a: Acc)
    requires Sound(known, a) && |a.found| <= Max(0, m.total - 1 + m.seeds * |sources|)
    ensures var b := Rounds(m, f, round, last, frontier, sources, a);
      && Asked(m, f, Queries(m, f, round, last, frontier, sources, a), a, b)
      && Sound(known, b)
      && |b.found| <= Max(0, m.total - 1 + m.seeds * |sources|)
  {
    RoundsAsk(m, f, known, round, last, frontier, sources, a);
    RoundsStay(m, f, known, round, last, frontier, sources, a);
  }

  // ---------------------------------------------------------------- the results

  ghost predicate BelowApex(apexes: set<string>, n: string) {
    exists a :: a in apexes && Below(n, a)
  }

  ghost predicate SeedsOk(apexes: set<string>, older: set<string>, frontier: seq<string>, a: Acc) {
    older <= a.seen && forall n :: n in frontier ==> BelowApex(apexes, n) && n in a.seen && n !in older
  }

  lemma NextSeedsOk(m: Limits, f: Fetch, known: set<string>, apexes: set<string>, round: nat, frontier: seq<string>,
      sources: seq<string>, a: Acc, older: set<string>)
    requires Sound(known, a) && SeedsOk(apexes, older, frontier, a) && |a.found| < m.total
    ensures var b := Round(m, f, round, frontier, sources, a);
      Sound(known, b) && SeedsOk(apexes, a.seen, SortedOf(b.next), b)
  {
    var b := Round(m, f, round, frontier, sources, a);
    RoundIs(m, f, known, round, frontier, sources, a);
    SortedOfIs(b.next);
    var now := SeedQueries(round, Batch(m, frontier), sources);
    SeedQueriesAre(round, Batch(m, frontier), sources);
    forall n | n in b.next ensures BelowApex(apexes, n) {
      var q :| q in now && Offered(f, q, n);
      assert q.seed in frontier;
      var z :| z in apexes && Below(q.seed, z);
      BelowTransitive(n, q.seed, z);
    }
  }

  /** The seeds of these queries are strictly below an apex and not among the older names,
      and no seed is asked about in two rounds. */
  ghost predicate OneRoundEach(apexes: set<string>, older: set<string>, round: nat, last: nat, qs: seq<Query>) {
    && (forall q :: q in qs ==> BelowApex(apexes, q.seed) && round <= q.round <= last && q.seed !in older)
    && (forall q, r :: q in qs && r in qs && q.seed == r.seed ==> q.round == r.round)
  }

  lemma RoundThenLater(apexes: set<string>, older: set<string>, seen: set<string>, round: nat, last: nat,
      now: seq<Query>, later: seq<Query>)
    requires older <= seen && round <= last
    requires forall q :: q in now ==>
      q.round == round && BelowApex(apexes, q.seed) && q.seed !in older && q.seed in seen
    requires OneRoundEach(apexes, seen, round + 1, last, later)
    ensures OneRoundEach(apexes, older, round, last, now + later)
  {
    forall q | q in now + later ensures BelowApex(apexes, q.seed) && round <= q.round <= last && q.seed !in older {
      assert q in now || q in later;
    }
  }

  lemma {:induction false} SeedsAskedOnce(m: Limits, f: Fetch, known: set<string>, apexes: set<string>, round: nat,
      last: nat, frontier: seq<string>, sources: seq<string>, a: Acc, older: set<string>)
    requires Sound(known, a) && SeedsOk(apexes, older, frontier, a)
    ensures OneRoundEach(apexes, older, round, last, Queries(m, f, round, last, frontier, sources, a))
    decreases last + 1 - round
  {
    if !(round > last || frontier == [] || |a.found| >= m.total) {
      var b := Round(m, f, round, frontier, sources, a);
      NextSeedsOk(m, f, known, apexes, round, frontier, sources, a, older);
      var now := SeedQueries(round, Batch(m, frontier), sources);
      SeedQueriesAre(round, Batch(m, frontier), sources);
      SeedsAskedOnce(m, f, known, apexes, round + 1, last, SortedOf(b.next), sources, b, a.seen);
      RoundThenLater(apexes, older, a.seen, round, last, now,
        Queries(m, f, round + 1, last, SortedOf(b.next), sources, b));
    }
  }

  lemma {:induction false} SeedQueriesAre(round: nat, seeds: seq<string>, sources: seq<string>)
    ensures forall q :: q in SeedQueries(round, seeds, sources) ==>
      q.round == round && q.seed in seeds && q.source in sources
    decreases |seeds|
  {
    if seeds != [] {
      SourceQueriesAre(round, seeds[0], sources);
      SeedQueriesAre(round, seeds[1..], sources);
    }
  }

  lemma {:induction false} SourceQueriesAre(round: nat, seed: string, sources: seq<string>)
    ensures forall q :: q in SourceQueries(round, seed, sources) ==>
      q.round == round && q.seed == seed && q.source in sources
  {
    if sources != [] { SourceQueriesAre(round, seed, sources[1..]); }
  }

  lemma ChosenIsShort(all: seq<string>, disabled: set<string>)
    requires NoDup(all)
    ensures |Chosen(all, disabled)| <= 4
  {
    ChosenAre(all, disabled);
    DistinctAmong(Chosen(all, disabled), RECURSE_SOURCES);
    FourSources();
  }

  lemma FourSources()
    ensures |RECURSE_SOURCES| <= 4
  {
    var one := {"crtsh"};
    var two := one + {"certspotter"};
    var three := two + {"anubis"};
    assert |two| <= 2 && |three| <= 3;
    assert RECURSE_SOURCES == three + {"otx"};
  }

  lemma {:induction false} ChosenAre(all: seq<string>, disabled: set<string>)
    ensures forall s :: s in Chosen(all, disabled) <==> s in all && s in RECURSE_SOURCES && s !in disabled
    ensures NoDup(all) ==> NoDup(Chosen(all, disabled))
  {
    if all != [] {
      var n := |all| - 1;
      ChosenAre(all[..n], disabled);
      assert all == all[..n] + [all[n]];
    }
  }

  lemma {:induction false} DistinctAmong(s: seq<string>, among: set<string>)
    requires NoDup(s) && forall x :: x in s ==> x in among
    ensures |s| <= |among|
    decreases |s|
  {
    if s != [] {
      var n := |s| - 1;
      assert s[n] in among;
      DistinctAmong(s[..n], among - {s[n]});
    }
  }

  /** The whole module with its constants: at most 3000 + 60 * 4 - 1 names, each emitted
      once, new, offered by an answer, and strictly below an apex; and if the cap was not
      reached, every name offered by an answer is known or emitted. */
  lemma RecursionIsBounded(f: Fetch, rounds: nat, apexes: set<string>, known: set<string>, all: seq<string>,
      disabled: set<string>)
    requires NoDup(all)
    ensures var b := Recursion(DEFAULTS, f, rounds, apexes, known, Chosen(all, disabled));
      && |b.found| <= 3000 + 60 * 4 - 1
      && NoDup(b.found) && Elems(b.found) !! known
      && (forall n :: n in b.found ==> BelowApex(apexes, n))
    ensures var sources := Chosen(all, disabled);
      var b := Recursion(DEFAULTS, f, rounds, apexes, known, sources);
      var qs := Queries(DEFAULTS, f, 1, rounds, Frontier(apexes, known), sources, Acc(known, {}, []));
      && (forall n :: n in b.found ==> n !in known && exists q :: q in qs && Offered(f, q, n))
      && (|b.found| < 3000 ==> forall n :: n in b.found <==> n !in known && exists q :: q in qs && Offered(f, q, n))
      && (forall q, r :: q in qs && r in qs && q.seed == r.seed ==> q.round == r.round)
      && (forall q :: q in qs ==> q.round <= rounds)
  {
    var sources, start := Chosen(all, disabled), Acc(known, {}, []);
    var frontier := Frontier(apexes, known);
    ChosenIsShort(all, disabled);
    assert 60 * |sources| <= 240;
    RoundsAre(DEFAULTS, f, known, 1, rounds, frontier, sources, start);
    SortedOfIs(set n | n in known && Starts(apexes, n));
    SeedsAskedOnce(DEFAULTS, f, known, apexes, 1, rounds, frontier, sources, start, {});
    var b := Recursion(DEFAULTS, f, rounds, apexes, known, sources);
    var qs := Queries(DEFAULTS, f, 1, rounds, frontier, sources, start);
    forall n | n in b.found ensures n !in known && BelowApex(apexes, n) && exists q :: q in qs && Offered(f, q, n) {
      assert n in Elems(b.found) && n in b.seen;
      var q :| q in qs && Offered(f, q, n);
      var z :| z in apexes && Below(q.seed, z);
      BelowTransitive(n, q.seed, z);
    }
    if |b.found| < 3000 {
      forall n, q | n !in known && q in qs && Offered(f, q, n) ensures n in b.found {
        assert n in b.seen;
      }
    }
  }

  // --------------------------------------------------------- the bound is met

  function Label(n: nat): (s: string)
    ensures |s| == n && forall i :: 0 <= i < n ==> s[i] == 'y'
  {
    if n == 0 then "" else ['y'] + Label(n - 1)
  }

  /** A name below the seed, by a label of `n` letters. */
  function Deeper(seed: string, n: nat): string {
    Label(n) + ['.'] + seed
  }

  lemma DeeperIsBelow(seed: string, n: nat)
    ensures Below(Deeper(seed, n), seed) && |Deeper(seed, n)| > n
  {
    assert Deeper(seed, n)[n..] == "." + seed;
  }

  lemma DeeperIsInjective(s: string, m: nat, t: string, n: nat)
    requires Deeper(s, m) == Deeper(t, n)
    ensures s == t && m == n
  {
    var x, y := Deeper(s, m), Deeper(t, n);
    assert x[m] == '.' && y[n] == '.';
    assert forall i :: 0 <= i < m ==> x[i] == 'y';
    assert forall i :: 0 <= i < n ==> y[i] == 'y';
    assert s == x[m + 1..] && t == y[n + 1..];
  }

  function Index(xs: seq<string>, x: string): (i: nat)
    ensures i <= |xs| && (x in xs ==> i < |xs| && xs[i] == x)
  {
    if xs == [] || xs[0] == x then 0 else 1 + Index(xs[1..], x)
  }

  lemma {:induction false} LongerThanAll(names: set<string>) returns (n: nat)
    ensures forall x :: x in names ==> |x| < n
    decreases |names|
  {
    n := 0;
    if names != {} {
      var x :| x in names;
      var rest := LongerThanAll(names - {x});
      n := rest + |x| + 1;
    }
  }

  /** Sources that answer one question with `m.total` names, and every other question with
      one name of its own. */
  ghost function Generous(m: Limits, sources: seq<string>, first: string, base: nat): Fetch {
    (round, seed, source) =>
      if seed == first && Index(sources, source) == 0 then Some(ManyNames(seed, base, m.total))
      else Some([Deeper(seed, base + m.total + Index(sources, source))])
  }

  function ManyNames(seed: string, base: nat, n: nat): (names: seq<string>)
    ensures |names| == n && forall i :: 0 <= i < n ==> names[i] == Deeper(seed, base + i)
  {
    seq(n, i requires 0 <= i < n => Deeper(seed, base + i))
  }

  lemma {:induction false} TakesAll(m: Limits, a: Acc, seed: string, hits: seq<string>)
    requires |a.found| + |hits| == m.total && NoDup(hits) && forall x :: x in hits ==> IsNew(a, seed, x)
    ensures var b := TakeHits(m, a, seed, hits); |b.found| == m.total && b.seen == a.seen + Elems(hits)
    decreases |hits|
  {
    if hits == [] {
      assert a.seen == a.seen + Elems(hits);
    } else {
      var b, rest := Add(a, hits[0]), hits[1..];
      assert hits == [hits[0]] + rest;
      assert Elems(hits) == {hits[0]} + Elems(rest);
      if |b.found| < m.total {
        forall x | x in rest ensures IsNew(b, seed, x) {
          assert x in hits;
        }
        TakesAll(m, b, seed, rest);
      } else {
        assert rest == [];
      }
    }
  }

  /** Past the cap, a new name alone in its answer is one more. */
  lemma TakesOne(m: Limits, a: Acc, seed: string, name: string)
    requires |a.found| >= m.total && IsNew(a, seed, name)
    ensures TakeHits(m, a, seed, [name]) == Add(a, name)
  {
    assert [name][1..] == [];
  }

  /** None of the names that these sources have for this seed is seen. */
  ghost predicate Unseen(m: Limits, sources: seq<string>, rest: seq<string>, seed: string, base: nat,
      seen: set<string>) {
    forall source :: source in rest ==> Deeper(seed, base + m.total + Index(sources, source)) !in seen
  }

  /** What was added are such names. */
  ghost predicate OnlyDeeper(seed: string, before: set<string>, after: set<string>) {
    before <= after && forall x :: x in after && x !in before ==> exists n :: x == Deeper(seed, n)
  }

  lemma NamesDiffer(sources: seq<string>, base: nat, seed: string, x: string, y: string)
    requires x in sources && y in sources && x != y
    ensures Deeper(seed, base + Index(sources, x)) != Deeper(seed, base + Index(sources, y))
  {
    var i, j := base + Index(sources, x), base + Index(sources, y);
    assert i != j;
    if Deeper(seed, i) == Deeper(seed, j) { DeeperIsInjective(seed, i, seed, j); }
  }

  lemma {:induction false} SourcesAddOneEach(m: Limits, sources: seq<string>, rest: seq<string>, first: string,
      base: nat, round: nat, seed: string, a: Acc)
    requires |a.found| >= m.total && NoDup(rest) && (forall x :: x in rest ==> x in sources)
    requires Unseen(m, sources, rest, seed, base, a.seen)
    requires seed == first ==> forall x :: x in rest ==> Index(sources, x) != 0
    ensures var b := AskSources(m, Generous(m, sources, first, base), round, seed, rest, a);
      |b.found| == |a.found| + |rest| && OnlyDeeper(seed, a.seen, b.seen)
    decreases |rest|
  {
    if rest != [] {
      var name := Deeper(seed, base + m.total + Index(sources, rest[0]));
      var b := Add(a, name);
      DeeperIsBelow(seed, base + m.total + Index(sources, rest[0]));
      assert rest[0] in rest;
      TakesOne(m, a, seed, name);
      assert AskSource(m, Generous(m, sources, first, base), round, seed, rest[0], a) == b;
      forall source | source in rest[1..] ensures Deeper(seed, base + m.total + Index(sources, source)) !in b.seen {
        assert source in rest && source != rest[0];
        NamesDiffer(sources, base + m.total, seed, source, rest[0]);
      }
      SourcesAddOneEach(m, sources, rest[1..], first, base, round, seed, b);
    }
  }

  /** All names seen beyond `known` are of these seeds. */
  ghost predicate OnlyOf(known: set<string>, seeds: seq<string>, seen: set<string>) {
    forall x :: x in seen && x !in known ==> exists seed, n :: seed in seeds && x == Deeper(seed, n)
  }

  /** Names of a seed that has not been asked about are not seen. */
  lemma UnaskedIsUnseen(m: Limits, sources: seq<string>, known: set<string>, asked: seq<string>, seed: string,
      base: nat, seen: set<string>)
    requires OnlyOf(known, asked, seen) && seed !in asked && forall x :: x in known ==> |x| < base
    ensures Unseen(m, sources, sources, seed, base, seen)
  {
    forall source | source in sources ensures Deeper(seed, base + m.total + Index(sources, source)) !in seen {
      var n := base + m.total + Index(sources, source);
      DeeperIsBelow(seed, n);
      if Deeper(seed, n) in seen {
        var s, k :| s in asked && Deeper(seed, n) == Deeper(s, k);
        DeeperIsInjective(seed, n, s, k);
      }
    }
  }

  lemma MoreAsked(known: set<string>, asked: seq<string>, seed: string, before: set<string>, after: set<string>)
    requires OnlyOf(known, asked, before) && OnlyDeeper(seed, before, after)
    ensures OnlyOf(known, asked + [seed], after)
  {
    forall x | x in after && x !in known ensures exists s, n :: s in asked + [seed] && x == Deeper(s, n) {
      if x in before {
        var s, n :| s in asked && x == Deeper(s, n);
        assert s in asked + [seed];
      } else {
        var n :| x == Deeper(seed, n);
        assert seed in asked + [seed];
      }
    }
  }

  /** One more seed: its sources add a name each, and all names are still of asked seeds. */
  lemma SeedAdds(m: Limits, sources: seq<string>, first: string, base: nat, round: nat, known: set<string>,
      asked: seq<string>, seed: string, a: Acc)
    requires |a.found| >= m.total && NoDup(sources) && seed !in asked && first in asked
    requires OnlyOf(known, asked, a.seen) && forall x :: x in known ==> |x| < base
    ensures var b := AskSources(m, Generous(m, sources, first, base), round, seed, sources, a);
      |b.found| == |a.found| + |sources| && OnlyOf(known, asked + [seed], b.seen)
  {
    UnaskedIsUnseen(m, sources, known, asked, seed, base, a.seen);
    SourcesAddOneEach(m, sources, sources, first, base, round, seed, a);
    MoreAsked(known, asked, seed, a.seen,
      AskSources(m, Generous(m, sources, first, base), round, seed, sources, a).seen);
  }

  lemma {:induction false} SeedsAddAll(m: Limits, sources: seq<string>, first: string, base: nat, round: nat,
      known: set<string>, asked: seq<string>, seeds: seq<string>, a: Acc)
    requires |a.found| >= m.total && NoDup(sources) && NoDup(asked + seeds) && first in asked
    requires OnlyOf(known, asked, a.seen) && forall x :: x in known ==> |x| < base
    ensures |AskSeeds(m, Generous(m, sources, first, base), round, seeds, sources, a).found| ==
      |a.found| + Product(|seeds|, |sources|)
    decreases |seeds|
  {
    if seeds != [] {
      var seed, rest := seeds[0], seeds[1..];
      NotAmong(asked, seeds);
      SeedAdds(m, sources, first, base, round, known, asked, seed, a);
      Associative(asked, seed, rest);
      assert [seed] + rest == seeds;
      SeedsAddAll(m, sources, first, base, round, known, asked + [seed], rest,
        AskSources(m, Generous(m, sources, first, base), round, seed, sources, a));
    }
  }

  function Product(n: nat, k: nat): nat {
    if n == 0 then 0 else k + Product(n - 1, k)
  }

  lemma {:induction false} ProductIs(n: nat, k: nat)
    ensures Product(n, k) == n * k
  {
    if n > 0 { ProductIs(n - 1, k); }
  }

  lemma Associative(a: seq<string>, x: string, b: seq<string>)
    ensures (a + [x]) + b == a + ([x] + b)
  {
  }

  lemma NotAmong(asked: seq<string>, seeds: seq<string>)
    requires NoDup(asked + seeds) && seeds != []
    ensures seeds[0] !in asked
  {
    var all := asked + seeds;
    assert all[|asked|] == seeds[0];
    assert forall i :: 0 <= i < |asked| ==> all[i] == asked[i];
  }

  lemma ManyAreNew(known: set<string>, seed: string, base: nat, n: nat)
    requires forall x :: x in known ==> |x| < base
    ensures NoDup(ManyNames(seed, base, n))
    ensures forall x :: x in ManyNames(seed, base, n) ==> IsNew(Acc(known, {}, []), seed, x)
  {
    var names := ManyNames(seed, base, n);
    forall i, j | 0 <= i < j < n ensures names[i] != names[j] {
      assert |names[i]| < |names[j]|;
    }
    forall x | x in names ensures IsNew(Acc(known, {}, []), seed, x) {
      var i :| 0 <= i < n && names[i] == x;
      DeeperIsBelow(seed, base + i);
    }
  }

  /** The first question brings the total to the cap, and the other sources for the same
      seed take it past it. */
  lemma FirstSeed(m: Limits, sources: seq<string>, base: nat, round: nat, known: set<string>, seed: string)
    requires m.total >= 1 && sources != [] && NoDup(sources) && forall x :: x in known ==> |x| < base
    ensures var b := AskSources(m, Generous(m, sources, seed, base), round, seed, sources, Acc(known, {}, []));
      |b.found| == m.total + |sources| - 1 && OnlyOf(known, [seed], b.seen)
  {
    var start, f, names := Acc(known, {}, []), Generous(m, sources, seed, base), ManyNames(seed, base, m.total);
    ManyAreNew(known, seed, base, m.total);
    TakesAll(m, start, seed, names);
    var a := TakeHits(m, start, seed, names);
    assert AskSource(m, f, round, seed, sources[0], start) == a;
    var rest := sources[1..];
    forall source | source in rest ensures source in sources && Index(sources, source) != 0 {
    }
    OthersUnseen(m, sources, base, known, seed);
    SourcesAddOneEach(m, sources, rest, seed, base, round, seed, a);
    assert [] + [seed] == [seed];
    FirstNamesAreDeeper(known, seed, base, m.total);
    MoreAsked(known, [], seed, known, a.seen);
    var b := AskSources(m, f, round, seed, rest, a);
    MoreAsked(known, [], seed, known, b.seen);
  }

  lemma FirstNamesAreDeeper(known: set<string>, seed: string, base: nat, n: nat)
    ensures OnlyDeeper(seed, known, known + Elems(ManyNames(seed, base, n)))
  {
    var names := ManyNames(seed, base, n);
    forall x | x in Elems(names) ensures exists k :: x == Deeper(seed, k) {
      var i :| 0 <= i < n && names[i] == x;
    }
  }

  lemma OthersUnseen(m: Limits, sources: seq<string>, base: nat, known: set<string>, seed: string)
    requires sources != [] && NoDup(sources) && forall x :: x in known ==> |x| < base
    ensures Unseen(m, sources, sources[1..], seed, base, known + Elems(ManyNames(seed, base, m.total)))
  {
    var names := ManyNames(seed, base, m.total);
    forall source | source in sources[1..]
      ensures Deeper(seed, base + m.total + Index(sources, source)) !in known + Elems(names) {
      var n := base + m.total + Index(sources, source);
      DeeperIsBelow(seed, n);
      assert forall i :: 0 <= i < m.total ==> |names[i]| < |Deeper(seed, n)|;
    }
  }

  /** A round over these seeds. */
  lemma FullRound(m: Limits, sources: seq<string>, base: nat, round: nat, known: set<string>, seeds: seq<string>)
    requires m.total >= 1 && sources != [] && NoDup(sources) && forall x :: x in known ==> |x| < base
    requires seeds != [] && NoDup(seeds)
    ensures |AskSeeds(m, Generous(m, sources, seeds[0], base), round, seeds, sources, Acc(known, {}, [])).found| ==
      m.total + |seeds| * |sources| - 1
  {
    var f, start := Generous(m, sources, seeds[0], base), Acc(known, {}, []);
    FirstSeed(m, sources, base, round, known, seeds[0]);
    assert [seeds[0]] + seeds[1..] == seeds;
    SeedsAddAll(m, sources, seeds[0], base, round, known, [seeds[0]], seeds[1..],
      AskSources(m, f, round, seeds[0], sources, start));
    ProductIs(|seeds|, |sources|);
  }

  /** A first round that reaches the cap is the last one. */
  lemma OneRoundIsAll(m: Limits, f: Fetch, rounds: nat, apexes: set<string>, known: set<string>, sources: seq<string>)
    requires m.total >= 1 && rounds >= 1 && Frontier(apexes, known) != []
    requires |AskSeeds(m, f, 1, Batch(m, Frontier(apexes, known)), sources, Acc(known, {}, [])).found| >= m.total
    ensures Recursion(m, f, rounds, apexes, known, sources) ==
      AskSeeds(m, f, 1, Batch(m, Frontier(apexes, known)), sources, Acc(known, {}, []))
  {
    var start, frontier := Acc(known, {}, []), Frontier(apexes, known);
    var b := Round(m, f, 1, frontier, sources, start);
    assert start.(next := {}) == start;
    assert Rounds(m, f, 2, rounds, SortedOf(b.next), sources, b) == b;
  }

  /** The bound is met, for every cap, every number of seeds a round and every list of
      sources: whatever is known, as long as a round has its full number of seeds, some
      answers make the total the cap plus the queries of one round, less one. */
  lemma BoundIsMet(m: Limits, rounds: nat, apexes: set<string>, known: set<string>, sources: seq<string>)
    requires m.total >= 1 && rounds >= 1 && sources != [] && NoDup(sources)
    requires 1 <= m.seeds <= |Frontier(apexes, known)|
    ensures exists f :: |Recursion(m, f, rounds, apexes, known, sources).found| == m.total + m.seeds * |sources| - 1
  {
    var batch := Batch(m, Frontier(apexes, known));
    SortedOfIs(set n | n in known && Starts(apexes, n));
    assert |batch| == m.seeds;
    var base := LongerThanAll(known);
    FullRound(m, sources, base, 1, known, batch);
    ProductIs(|batch|, |sources|);
    OneRoundIsAll(m, Generous(m, sources, batch[0], base), rounds, apexes, known, sources);
  }
}
