/** Whom the recursive enumeration asks about
    (recon/modules/passive/subdomain_recurse.py:60-78): the first names by the alphabet. */
module RecurseSeeds {
  import opened Prelude
  import opened Text
  import opened Ordering
  import opened Recurse

  /** The names that come before it in the alphabet. */
  ghost function Smaller(names: set<string>, n: string): set<string> {
    set x | x in names && x != n && Le(x, n)
  }

  function First(list: seq<string>, k: nat): seq<string> {
    if |list| <= k then list else list[..k]
  }

  lemma FirstOfList(least: string, rest: seq<string>, k: nat, n: string)
    requires k > 0
    ensures n in First([least] + rest, k) <==> n == least || n in First(rest, k - 1)
  {
    assert First([least] + rest, k) == [least] + First(rest, k - 1);
  }

  /** The first `k` of a sorted list are the names with fewer than `k` before them. */
  lemma {:induction false} FirstInOrder(names: set<string>, k: nat, n: string)
    ensures var list := SortedOf(names);
      n in First(list, k) <==> n in names && |Smaller(names, n)| < k
    decreases |names|
  {
    SortedOfIs(names);
    if names != {} {
      var least := Least(names);
      if k > 0 {
        FirstInOrder(names - {least}, k - 1, n);
        SmallerWithout(names, least, n);
        FirstOfList(least, SortedOf(names - {least}), k, n);
      }
    }
  }

  lemma SmallerWithout(names: set<string>, least: string, n: string)
    requires IsLeast(least, names)
    ensures n == least ==> Smaller(names, n) == {}
    ensures n in names && n != least ==> |Smaller(names, n)| == |Smaller(names - {least}, n)| + 1
  {
    if n == least {
      forall x | x in names && Le(x, n) ensures x == n {
        LeAntisymmetric(x, n);
      }
    } else if n in names {
      assert Smaller(names, n) == Smaller(names - {least}, n) + {least};
    }
  }

  /** The seeds of the first round are the known names below an apex, without the apexes, and
      of these the first by the alphabet, as many as a round may ask about. */
  lemma FirstSeedsExactly(m: Limits, apexes: set<string>, known: set<string>, n: string)
    ensures var starts := set x | x in known && x !in apexes && exists a :: a in apexes && Below(x, a);
      n in Batch(m, Frontier(apexes, known)) <==> n in starts && |Smaller(starts, n)| < m.seeds
  {
    var starts := set x | x in known && x !in apexes && exists a :: a in apexes && Below(x, a);
    StartsAre(apexes, known);
    FirstInOrder(starts, m.seeds, n);
  }

  lemma StartsAre(apexes: set<string>, known: set<string>)
    ensures (set x | x in known && Starts(apexes, x)) == set x | x in known && x !in apexes &&
      exists a :: a in apexes && Below(x, a)
  {
    forall x | x in known && x !in apexes ensures Starts(apexes, x) <==> exists a :: a in apexes && Below(x, a) {
      if a :| a in apexes && Below(x, a) {
        assert x != a;
      }
    }
  }

  /** And those of a later round are, likewise, the first of the names that the round before
      it has found. */
  lemma NextSeedsExactly(m: Limits, f: Fetch, known: set<string>, round: nat, frontier: seq<string>,
      sources: seq<string>, a: Acc, n: string)
    requires Sound(known, a) && |a.found| < m.total
    ensures var b := Round(m, f, round, frontier, sources, a);
      n in Batch(m, SortedOf(b.next)) <==> n in b.seen - a.seen && |Smaller(b.seen - a.seen, n)| < m.seeds
  {
    RoundIs(m, f, known, round, frontier, sources, a);
    FirstInOrder(Round(m, f, round, frontier, sources, a).next, m.seeds, n);
  }
}
