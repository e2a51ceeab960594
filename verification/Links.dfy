/** Materialising the relationship hints (recon/correlation/engine.py:497-547) in a
    session without autoflush (recon/db.py:42-47): a relationship that was added is pending
    until the next new asset or the end of the pass flushes it, and the check for an
    existing one does not see it before. */
module Links {
  import opened Prelude
  import opened Routing
  import opened Correlation

  /** The keys with a known identifier in this pass, the stored keys, the stored and the
      pending relationships; `failed` once a flush has violated the unique constraint. */
  datatype Link = Link(ids: set<Key>, stored: set<Key>, rels: set<Triple>, pending: seq<Triple>, failed: bool)

  ghost predicate Clean(l: Link) {
    NoDup(l.pending) && Elems(l.pending) !! l.rels
  }

  /** `session.flush()`. */
  ghost function Flushed(l: Link): Link {
    if Clean(l) then l.(rels := l.rels + Elems(l.pending), pending := []) else l.(failed := true)
  }

  /** `_resolve_asset_id`: a key that is nowhere yet is written, which flushes. */
  ghost function Resolved(l: Link, k: Key): Link {
    if l.failed || k in l.ids then l
    else if k in l.stored then l.(ids := l.ids + {k})
    else Flushed(l.(ids := l.ids + {k}, stored := l.stored + {k}))
  }

  /** One hint. */
  ghost function Linked(c: Config, l: Link, h: Hint): Link {
    if l.failed || !RelKnown(h.rel) then l
    else
      var m := Resolved(Resolved(l, SourceKey(c, h)), TargetKey(c, h));
      if m.failed || !Relates(c, h) || TripleOf(c, h) in m.rels then m
      else m.(pending := m.pending + [TripleOf(c, h)])
  }

  ghost function LinkAll(c: Config, l: Link, order: seq<Hint>): Link
    decreases |order|
  {
    if order == [] then l else Linked(c, LinkAll(c, l, order[..|order| - 1]), order[|order| - 1])
  }

  ghost function Start(ids: set<Key>, stored: set<Key>, rels: set<Triple>): Link {
    Link(ids, stored, rels, [], false)
  }

  /** The pass succeeds when the hints come in this order. */
  ghost predicate Succeeds(c: Config, ids: set<Key>, stored: set<Key>, rels: set<Triple>, order: seq<Hint>) {
    var l := LinkAll(c, Start(ids, stored, rels), order);
    !l.failed && Clean(l)
  }

  /** Two hints stand for the same relationship, and it is not stored yet. */
  ghost predicate Collides(c: Config, hints: set<Hint>, rels: set<Triple>, g: Hint, h: Hint) {
    && g in hints && h in hints && g != h && Relates(c, g) && Relates(c, h)
    && TripleOf(c, g) == TripleOf(c, h) && TripleOf(c, h) !in rels
  }

  ghost predicate NoCollision(c: Config, hints: set<Hint>, rels: set<Triple>) {
    forall g, h :: !Collides(c, hints, rels, g, h)
  }

  /** The hints so far are exactly the stored and pending relationships, each once. */
  ghost predicate LinkInv(c: Config, rels: set<Triple>, done: set<Hint>, l: Link) {
    !l.failed && Clean(l) && rels <= l.rels && l.rels + Elems(l.pending) == rels + Triples(c, done)
  }

  lemma ResolveKeepsInv(c: Config, rels: set<Triple>, done: set<Hint>, l: Link, k: Key)
    requires LinkInv(c, rels, done, l)
    ensures LinkInv(c, rels, done, Resolved(l, k))
  {
  }

  /** A relationship that is not stored is not pending either. */
  lemma NotPending(c: Config, hints: set<Hint>, rels: set<Triple>, done: set<Hint>, l: Link, h: Hint)
    requires NoCollision(c, hints, rels) && LinkInv(c, rels, done, l)
    requires done <= hints && h in hints && h !in done && Relates(c, h) && TripleOf(c, h) !in l.rels
    ensures TripleOf(c, h) !in Elems(l.pending)
  {
    var t := TripleOf(c, h);
    if t in Elems(l.pending) {
      assert t in rels + Triples(c, done);
      var g :| g in done && Relates(c, g) && TripleOf(c, g) == t;
      assert Collides(c, hints, rels, g, h);
    }
  }

  lemma LinkKeepsInv(c: Config, hints: set<Hint>, rels: set<Triple>, done: set<Hint>, l: Link, h: Hint)
    requires NoCollision(c, hints, rels) && LinkInv(c, rels, done, l)
    requires done <= hints && h in hints && h !in done
    ensures LinkInv(c, rels, done + {h}, Linked(c, l, h))
  {
    if !RelKnown(h.rel) {
      SkipHint(c, done, h);
      return;
    }
    ResolveKeepsInv(c, rels, done, l, SourceKey(c, h));
    ResolveKeepsInv(c, rels, done, Resolved(l, SourceKey(c, h)), TargetKey(c, h));
    var m := Resolved(Resolved(l, SourceKey(c, h)), TargetKey(c, h));
    if !Relates(c, h) {
      SkipHint(c, done, h);
      return;
    }
    AddTriple(c, done, h);
    if TripleOf(c, h) !in m.rels {
      NotPending(c, hints, rels, done, m, h);
      PendingMore(m.pending, TripleOf(c, h));
    }
  }

  lemma SkipHint(c: Config, done: set<Hint>, h: Hint)
    requires !Relates(c, h)
    ensures Triples(c, done + {h}) == Triples(c, done)
  {
  }

  lemma AddTriple(c: Config, done: set<Hint>, h: Hint)
    requires Relates(c, h)
    ensures Triples(c, done + {h}) == Triples(c, done) + {TripleOf(c, h)}
  {
  }

  lemma PendingMore(pending: seq<Triple>, t: Triple)
    requires NoDup(pending)
    ensures Elems(pending + [t]) == Elems(pending) + {t}
    ensures t !in Elems(pending) ==> NoDup(pending + [t])
  {
    assert forall i :: 0 <= i < |pending| ==> pending[i] in Elems(pending);
  }

  /** Without a collision every order succeeds, and stores exactly the relationships of the
      hints. */
  lemma {:induction false} AllLinked(c: Config, hints: set<Hint>, rels: set<Triple>, l: Link, order: seq<Hint>)
    requires NoCollision(c, hints, rels) && NoDup(order) && Elems(order) <= hints
    requires LinkInv(c, rels, {}, l)
    ensures LinkInv(c, rels, Elems(order), LinkAll(c, l, order))
    decreases |order|
  {
    if order != [] {
      var n := |order| - 1;
      var most := order[..n];
      assert Elems(order) == Elems(most) + {order[n]};
      assert order[n] !in Elems(most);
      AllLinked(c, hints, rels, l, most);
      LinkKeepsInv(c, hints, rels, Elems(most), LinkAll(c, l, most), order[n]);
    }
  }

  /** Two equal pending relationships are never flushed apart. */
  ghost predicate Doomed(l: Link) {
    l.failed || !NoDup(l.pending)
  }

  lemma MoreStaysDoubled(pending: seq<Triple>, t: Triple)
    requires !NoDup(pending)
    ensures !NoDup(pending + [t])
  {
    var i, j :| 0 <= i < j < |pending| && pending[i] == pending[j];
    assert (pending + [t])[i] == (pending + [t])[j];
  }

  lemma {:induction false} DoomedStays(c: Config, l: Link, order: seq<Hint>)
    requires Doomed(l)
    ensures Doomed(LinkAll(c, l, order))
    decreases |order|
  {
    if order != [] {
      var m := LinkAll(c, l, order[..|order| - 1]);
      DoomedStays(c, l, order[..|order| - 1]);
      if !m.failed && Relates(c, order[|order| - 1]) {
        MoreStaysDoubled(m.pending, TripleOf(c, order[|order| - 1]));
      }
    }
  }

  lemma {:induction false} LinkAppend(c: Config, l: Link, a: seq<Hint>, b: seq<Hint>)
    ensures LinkAll(c, l, a + b) == LinkAll(c, LinkAll(c, l, a), b)
    decreases |b|
  {
    if b == [] {
      assert a + b == a;
    } else {
      var n := |b| - 1;
      LinkAppend(c, l, a, b[..n]);
      assert (a + b)[..|a + b| - 1] == a + b[..n];
    }
  }

  lemma ResolvedAtRest(l: Link, k: Key)
    requires l.pending == [] && !l.failed
    ensures var m := Resolved(l, k); m.pending == [] && !m.failed && m.rels == l.rels && m.ids == l.ids + {k}
  {
    assert Elems(l.pending) == {};
  }

  lemma FirstLinked(c: Config, l: Link, g: Hint)
    requires l.pending == [] && !l.failed && Relates(c, g) && TripleOf(c, g) !in l.rels
    ensures var m := Linked(c, l, g);
      m.pending == [TripleOf(c, g)] && m.rels == l.rels && !m.failed && SourceKey(c, g) in m.ids &&
        TargetKey(c, g) in m.ids
  {
    ResolvedAtRest(l, SourceKey(c, g));
    ResolvedAtRest(Resolved(l, SourceKey(c, g)), TargetKey(c, g));
  }

  lemma SecondLinked(c: Config, l: Link, h: Hint, t: Triple)
    requires l.pending == [t] && !l.failed && Relates(c, h) && TripleOf(c, h) == t && t !in l.rels
    requires SourceKey(c, h) in l.ids && TargetKey(c, h) in l.ids
    ensures Linked(c, l, h).pending == [t, t]
  {
  }

  /** Two colliding hints at the front double their relationship. */
  lemma CollisionDooms(c: Config, ids: set<Key>, stored: set<Key>, rels: set<Triple>, hints: set<Hint>, g: Hint,
      h: Hint)
    requires Collides(c, hints, rels, g, h)
    ensures Doomed(LinkAll(c, Start(ids, stored, rels), [g, h]))
  {
    var l := Start(ids, stored, rels);
    FirstLinked(c, l, g);
    SecondLinked(c, Linked(c, l, g), h, TripleOf(c, g));
    TwoLinked(c, l, g, h);
    var two := Linked(c, Linked(c, l, g), h);
    assert two.pending[0] == two.pending[1];
  }

  lemma TwoLinked(c: Config, l: Link, g: Hint, h: Hint)
    ensures LinkAll(c, l, [g, h]) == Linked(c, Linked(c, l, g), h)
  {
    assert [g, h][..1] == [g] && [g][..0] == [];
    assert LinkAll(c, l, []) == l;
    assert LinkAll(c, l, [g]) == Linked(c, l, g);
  }

  ghost predicate Lists(order: seq<Hint>, hints: set<Hint>) {
    NoDup(order) && Elems(order) == hints
  }

  lemma {:induction false} ListingExists(hints: set<Hint>)
    ensures exists order :: Lists(order, hints)
    decreases |hints|
  {
    if hints == {} {
      assert Lists([], hints);
    } else {
      var h :| h in hints;
      ListingExists(hints - {h});
      var rest :| Lists(rest, hints - {h});
      assert forall i :: 0 <= i < |rest| ==> rest[i] in Elems(rest);
      assert Elems(rest + [h]) == Elems(rest) + {h};
      assert Lists(rest + [h], hints);
    }
  }

  /** The pass succeeds in every order of the hints exactly if no two of them stand for the
      same relationship that is not stored yet. */
  lemma SucceedsExactly(c: Config, ids: set<Key>, stored: set<Key>, rels: set<Triple>, hints: set<Hint>)
    ensures (forall order :: Lists(order, hints) ==> Succeeds(c, ids, stored, rels, order)) <==>
      NoCollision(c, hints, rels)
  {
    if NoCollision(c, hints, rels) {
      forall order | Lists(order, hints) ensures Succeeds(c, ids, stored, rels, order) {
        AllLinked(c, hints, rels, Start(ids, stored, rels), order);
      }
    } else {
      var g, h :| Collides(c, hints, rels, g, h);
      CollisionDooms(c, ids, stored, rels, hints, g, h);
      ListingExists(hints - {g, h});
      var rest :| Lists(rest, hints - {g, h});
      FrontListing(g, h, rest, hints);
      LinkAppend(c, Start(ids, stored, rels), [g, h], rest);
      DoomedStays(c, LinkAll(c, Start(ids, stored, rels), [g, h]), rest);
      assert !Succeeds(c, ids, stored, rels, [g, h] + rest);
    }
  }

  /** A row whose first two explicit hints name the same value by two type names that are no
      asset types. */
  ghost predicate NamesTwice(ev: Evidence) {
    && ev.subject != EVIDENCE_ONLY && SubjectAsset(ev.subject).Some?
    && |ev.hints| >= 2 && RelKnown(ev.hints[0].rel) && ev.hints[1].rel == ev.hints[0].rel
    && ev.hints[0].targetType != ev.hints[1].targetType && ev.hints[0].targetValue == ev.hints[1].targetValue
    && TypeNamed(ev.hints[0].targetType).None? && TypeNamed(ev.hints[1].targetType).None?
  }

  /** Such a row alone makes two hints collide, whatever else there is, until their
      relationship is stored. */
  lemma RowCollides(c: Config, evs: set<Evidence>, rels: set<Triple>, ev: Evidence)
    requires ev in evs && NamesTwice(ev)
    requires TripleOf(c, ExplicitHint(c.env, ev, ev.hints[0])) !in rels
    ensures !NoCollision(c, HintsOf(c, evs), rels)
  {
    var hints := HintsFrom(c.env, ev);
    var g, h := ExplicitHint(c.env, ev, ev.hints[0]), ExplicitHint(c.env, ev, ev.hints[1]);
    assert hints[0] == g && hints[1] == h;
    assert g in hints && h in hints;
    SourceIsTyped(c, ev, 0);
    assert TargetKey(c, g).kind == Finding && TargetKey(c, h) == TargetKey(c, g);
    assert Collides(c, HintsOf(c, evs), rels, g, h);
  }

  lemma NameBack(t: AssetType)
    ensures TypeFromName(NameOf(t)) == t
  {
  }

  lemma NeverFinding(subject: string)
    requires SubjectAsset(subject).Some?
    ensures SubjectAsset(subject).value != Finding
  {
    OnlyFinding(subject);
  }

  lemma OnlyFinding(name: string)
    ensures TypeNamed(name) == Some(Finding) ==> name == "finding"
  {
  }

  lemma SourceIsTyped(c: Config, ev: Evidence, i: nat)
    requires i < |ev.hints| && SubjectAsset(ev.subject).Some?
    ensures SourceKey(c, ExplicitHint(c.env, ev, ev.hints[i])).kind == SubjectAsset(ev.subject).value
    ensures SubjectAsset(ev.subject).value != Finding
  {
    var t := SubjectAsset(ev.subject).value;
    NameBack(t);
    NeverFinding(ev.subject);
    assert ExplicitHint(c.env, ev, ev.hints[i]).srcType == NameOf(t);
  }

  /** A service affected by two findings whose types the engine does not know. */
  function TwiceNamed(): Evidence {
    Evidence(0, "service", "h:80", false, "m", None, 0.0, None,
      [RawHint("affects", "foo", "v"), RawHint("affects", "bar", "v")],
      None, "", "", "", "")
  }

  /** So there is evidence on which a pass over an empty database fails in some order. */
  lemma EvidenceCanCollide(c: Config)
    ensures var evs := [TwiceNamed()];
      var ids := WithParents(c, RefsOf(c, evs), Grouped(c, Elems(evs)));
      exists order :: Lists(order, HintsOf(c, Elems(evs))) && !Succeeds(c, ids, ids, {}, order)
  {
    var ev, evs := TwiceNamed(), [TwiceNamed()];
    assert ev.hints[0] == RawHint("affects", "foo", "v") && ev.hints[1] == RawHint("affects", "bar", "v");
    assert ev in Elems(evs) && NamesTwice(ev);
    RowCollides(c, Elems(evs), {}, ev);
    var ids := WithParents(c, RefsOf(c, evs), Grouped(c, Elems(evs)));
    SucceedsExactly(c, ids, ids, {}, HintsOf(c, Elems(evs)));
  }

  lemma FrontListing(g: Hint, h: Hint, rest: seq<Hint>, hints: set<Hint>)
    requires g in hints && h in hints && g != h && Lists(rest, hints - {g, h})
    ensures Lists([g, h] + rest, hints)
  {
    var order := [g, h] + rest;
    forall i | 0 <= i < |rest| ensures rest[i] != g && rest[i] != h {
      assert rest[i] in Elems(rest);
    }
    assert Elems(order) == {g, h} + Elems(rest);
  }

  /** When a pass succeeds, it has stored the relationships of all its hints, whether or
      not some of them collide. */
  lemma {:induction false} LinkedRels(c: Config, rels: set<Triple>, l: Link, order: seq<Hint>)
    requires l.rels + Elems(l.pending) == rels
    ensures var m := LinkAll(c, l, order);
      !m.failed ==> !l.failed && m.rels + Elems(m.pending) == rels + Triples(c, Elems(order))
    decreases |order|
  {
    if order == [] {
      assert Elems<Hint>([]) == {};
    } else {
      var n := |order| - 1;
      var h, m := order[n], LinkAll(c, l, order[..n]);
      LinkedRels(c, rels, l, order[..n]);
      assert Elems(order) == Elems(order[..n]) + {h};
      if !Linked(c, m, h).failed {
        LinkedRelsMore(c, rels, Elems(order[..n]), m, h);
      }
    }
  }

  lemma LinkedRelsMore(c: Config, rels: set<Triple>, done: set<Hint>, l: Link, h: Hint)
    requires l.rels + Elems(l.pending) == rels + Triples(c, done) && !Linked(c, l, h).failed && !l.failed
    ensures var m := Linked(c, l, h); m.rels + Elems(m.pending) == rels + Triples(c, done + {h})
  {
    LinkedRelsStep(c, rels + Triples(c, done), l, h);
    if Relates(c, h) { AddTriple(c, done, h); } else { SkipHint(c, done, h); }
  }

  lemma ResolvedRels(l: Link, k: Key)
    requires !l.failed && !Resolved(l, k).failed
    ensures var m := Resolved(l, k); m.rels + Elems(m.pending) == l.rels + Elems(l.pending)
  {
  }

  lemma LinkedRelsStep(c: Config, rels: set<Triple>, l: Link, h: Hint)
    requires l.rels + Elems(l.pending) == rels && !Linked(c, l, h).failed && !l.failed
    ensures var m := Linked(c, l, h); m.rels + Elems(m.pending) == rels + if Relates(c, h) then {TripleOf(c, h)} else {}
  {
    if RelKnown(h.rel) {
      var first := Resolved(l, SourceKey(c, h));
      var m := Resolved(first, TargetKey(c, h));
      if !first.failed {
        ResolvedRels(l, SourceKey(c, h));
        ResolvedRels(first, TargetKey(c, h));
      }
      assert Elems(m.pending + [TripleOf(c, h)]) == Elems(m.pending) + {TripleOf(c, h)};
    }
  }
}
