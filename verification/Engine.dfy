/** The Correlation Engine's loops over one session
    (recon/correlation/engine.py:177-269, 308-470, 497-547). */
module CorrelationEngine {
  import opened Prelude
  import opened Text
  import opened Routing
  import opened Correlation
  import opened Links
  import Scope

  // --------------------------------------------------------- fields of one record

  /** `_distinct_sources`. */
  method DistinctSources(evs: seq<Evidence>) returns (n: nat)
    ensures n == |Origins(Elems(evs))|
  {
    var origins := set ev | ev in evs :: Origin(ev.module_, ev.source);
    assert origins == Origins(Elems(evs));
    n := |origins|;
  }

  lemma HintedMore(evs: set<Evidence>, ev: Evidence)
    ensures HintedLevel(evs + {ev}) == MaxLevel(HintedLevel(evs),
      if Hinted(ev, HighValue) then HighValue else if Hinted(ev, Notable) then Notable else Informational)
  {
    assert (exists x :: x in evs + {ev} && Hinted(x, HighValue)) <==>
      (exists x :: x in evs && Hinted(x, HighValue)) || Hinted(ev, HighValue);
    assert (exists x :: x in evs + {ev} && Hinted(x, Notable)) <==>
      (exists x :: x in evs && Hinted(x, Notable)) || Hinted(ev, Notable);
  }

  /** `_interest`. */
  method Interest(c: Config, k: Key, evs: seq<Evidence>) returns (best: Level)
    ensures best == InterestOf(c, k, Elems(evs))
  {
    best := Informational;
    for i := 0 to |evs|
      invariant best == HintedLevel(Elems(evs[..i]))
    {
      assert Elems(evs[..i + 1]) == Elems(evs[..i]) + {evs[i]};
      HintedMore(Elems(evs[..i]), evs[i]);
      if evs[i].interest.Some? {
        var level := LevelNamed(evs[i].interest.value);
        if level.Some? {
          best := MaxLevel(best, level.value);
        }
      }
    }
    assert evs[..|evs|] == evs;
    if k.kind == Finding && StartsWith(k.value, "secret:") {
      return HighValue;
    }
    if k.kind == Finding {
      best := MaxLevel(best, FindingLevel(k.value));
    }
    if k.kind == Service {
      best := MaxLevel(best, Notable);
    }
    if k.kind == Email || k.kind == Document || k.kind == Netblock {
      best := MaxLevel(best, Notable);
    }
    if c.standsOut(Lower(k.value)) {
      best := MaxLevel(best, Notable);
    }
  }

  /** The list `resolved[host]`. */
  method AddressesOf(hints: set<Hint>, host: string) returns (ips: seq<string>)
    ensures Elems(ips) == Correlation.Resolved(hints, host)
  {
    ips := [];
    var left := hints;
    while left != {}
      invariant left <= hints && Elems(ips) == Correlation.Resolved(hints - left, host)
      decreases |left|
    {
      var h :| h in left;
      ghost var before := ips;
      var here := h.rel == "resolves_to" && h.tgtType == "ip" && h.srcValue == host;
      OneMoreResolved(hints - left, h, host);
      if here {
        ips := ips + [h.tgtValue];
      }
      assert Elems(ips) == Elems(before) + if here then {h.tgtValue} else {};
      assert hints - (left - {h}) == (hints - left) + {h};
      left := left - {h};
    }
    assert hints - {} == hints;
  }

  lemma OneMoreResolved(hints: set<Hint>, h: Hint, host: string)
    ensures Correlation.Resolved(hints + {h}, host) ==
      Correlation.Resolved(hints, host) +
        (if h.rel == "resolves_to" && h.tgtType == "ip" && h.srcValue == host then {h.tgtValue} else {})
  {
  }

  /** `_classify`. */
  method ClassifyKey(c: Config, k: Key, hints: set<Hint>) returns (status: Scope.ScopeStatus)
    ensures status == ScopeFor(c, k, hints)
  {
    if IsIntel(k.kind) {
      return Scope.NotApplicable;
    }
    if k.kind == Ip {
      assert Elems<string>([]) == {};
      status := Scope.Classify(c.roe, k.value, []);
      return;
    }
    var host := if k.kind == Url then c.roe.hostOf(k.value) else k.value;
    var ips := AddressesOf(hints, if k.kind == Url then host else CanonHostName(k.value));
    status := Scope.Classify(c.roe, host, ips);
  }

  method TimeRange(evs: seq<Evidence>) returns (first: real, last: real)
    requires evs != []
    ensures IsEarliest(Elems(evs), first) && IsLatest(Elems(evs), last)
  {
    first, last := evs[0].at, evs[0].at;
    for i := 1 to |evs|
      invariant IsEarliest(Elems(evs[..i]), first) && IsLatest(Elems(evs[..i]), last)
    {
      RangeMore(Elems(evs[..i]), evs[i], first, last);
      assert Elems(evs[..i + 1]) == Elems(evs[..i]) + {evs[i]};
      first, last := MinReal(first, evs[i].at), MaxReal(last, evs[i].at);
    }
    assert evs[..|evs|] == evs;
  }

  lemma RangeMore(evs: set<Evidence>, ev: Evidence, first: real, last: real)
    requires IsEarliest(evs, first) && IsLatest(evs, last)
    ensures IsEarliest(evs + {ev}, MinReal(first, ev.at)) && IsLatest(evs + {ev}, MaxReal(last, ev.at))
  {
    var a :| a in evs && a.at == first;
    var b :| b in evs && b.at == last;
    assert a in evs + {ev} && b in evs + {ev} && ev in evs + {ev};
  }

  lemma RangeUnique(evs: set<Evidence>, first: real, last: real)
    requires evs != {} && IsEarliest(evs, first) && IsLatest(evs, last)
    ensures first == Earliest(evs) && last == Latest(evs)
  {
  }

  /** The record `_upsert_asset` writes. */
  method Record(c: Config, k: Key, evs: seq<Evidence>, hints: set<Hint>, now: real, existing: Option<Asset>)
      returns (a: Asset)
    ensures a == Upsert(c, k, Elems(evs), ScopeFor(c, k, hints), now, existing)
  {
    var confidence := 0.3;
    var first, last := now, now;
    if evs != [] {
      var n := DistinctSources(evs);
      confidence := Confidence(n);
      first, last := TimeRange(evs);
      assert evs[0] in Elems(evs);
      RangeUnique(Elems(evs), first, last);
    }
    var interest := Interest(c, k, evs);
    var scope := ClassifyKey(c, k, hints);
    if existing.None? {
      return Asset(confidence, interest, scope, first, last);
    }
    a := existing.value;
    a := Asset(MaxReal(a.confidence, confidence), MaxLevel(a.interest, interest), scope,
      if evs == [] then a.first else MinReal(a.first, first), if evs == [] then a.last else MaxReal(a.last, last));
  }

  // ------------------------------------------------------------------ collecting

  datatype Collected = Collected(groups: map<Key, seq<Evidence>>, refs: seq<string>, hints: set<Hint>)

  /** What `_collect_evidence` fills. */
  ghost predicate IsCollected(c: Config, evs: seq<Evidence>, q: Collected) {
    && q.groups.Keys == GroupKeys(c, Elems(evs))
    && (forall k :: k in q.groups ==> Elems(q.groups[k]) == Own(c, Elems(evs), k))
    && q.refs == RefsOf(c, evs) && q.hints == HintsOf(c, Elems(evs))
  }

  /** `groups[key].append(ev)` for every key of the row. */
  method JoinGroups(groups: map<Key, seq<Evidence>>, keys: seq<Key>, ev: Evidence)
      returns (more: map<Key, seq<Evidence>>)
    ensures more.Keys == groups.Keys + Elems(keys)
    ensures forall k :: k in more ==>
      Elems(more[k]) == (if k in groups then Elems(groups[k]) else {}) + (if k in keys then {ev} else {})
  {
    more := groups;
    for i := 0 to |keys|
      invariant more.Keys == groups.Keys + Elems(keys[..i])
      invariant forall k :: k in more ==>
        Elems(more[k]) == (if k in groups then Elems(groups[k]) else {}) + (if k in keys[..i] then {ev} else {})
    {
      var key := keys[i];
      assert keys[..i + 1] == keys[..i] + [key];
      var list := (if key in more then more[key] else []) + [ev];
      assert Elems(list) == (if key in more then Elems(more[key]) else {}) + {ev};
      more := more[key := list];
    }
    assert keys[..|keys|] == keys;
  }

  lemma RowMore(c: Config, evs: set<Evidence>, ev: Evidence)
    ensures GroupKeys(c, evs + {ev}) == GroupKeys(c, evs) + Elems(KeysFrom(c.env, ev))
    ensures HintsOf(c, evs + {ev}) == HintsOf(c, evs) + Elems(HintsFrom(c.env, ev))
    ensures forall k :: Own(c, evs + {ev}, k) == Own(c, evs, k) + if k in KeysFrom(c.env, ev) then {ev} else {}
  {
    assert forall k :: k in Elems(KeysFrom(c.env, ev)) <==> k in KeysFrom(c.env, ev);
  }

  /** The keys of a group are what its rows and the row own. */
  lemma GroupsMore(c: Config, evs: set<Evidence>, ev: Evidence, groups: map<Key, seq<Evidence>>,
      more: map<Key, seq<Evidence>>)
    requires groups.Keys == GroupKeys(c, evs) && forall k :: k in groups ==> Elems(groups[k]) == Own(c, evs, k)
    requires more.Keys == groups.Keys + Elems(KeysFrom(c.env, ev))
    requires forall k :: k in more ==>
      Elems(more[k]) == (if k in groups then Elems(groups[k]) else {}) + (if k in KeysFrom(c.env, ev) then {ev} else {})
    ensures more.Keys == GroupKeys(c, evs + {ev}) && forall k :: k in more ==> Elems(more[k]) == Own(c, evs + {ev}, k)
  {
    RowMore(c, evs, ev);
    forall k | k in more ensures Elems(more[k]) == Own(c, evs + {ev}, k) {
      OwnIsGrouped(c, evs, k);
    }
  }

  function RefsWith(refs: seq<string>, ref: Option<string>): seq<string> {
    if ref.Some? && ref.value !in refs then refs + [ref.value] else refs
  }

  lemma RefsMore(c: Config, done: seq<Evidence>, ev: Evidence)
    ensures RefsOf(c, done + [ev]) == RefsWith(RefsOf(c, done), RefFrom(c.env, ev))
  {
    assert (done + [ev])[..|done|] == done;
  }

  lemma CollectedMore(c: Config, done: seq<Evidence>, q: Collected, ev: Evidence, r: Collected)
    requires IsCollected(c, done, q)
    requires r.groups.Keys == q.groups.Keys + Elems(KeysFrom(c.env, ev))
    requires forall k :: k in r.groups ==>
      Elems(r.groups[k]) == (if k in q.groups then Elems(q.groups[k]) else {}) +
      (if k in KeysFrom(c.env, ev) then {ev} else {})
    requires r.refs == RefsWith(q.refs, RefFrom(c.env, ev)) && r.hints == q.hints + Elems(HintsFrom(c.env, ev))
    ensures IsCollected(c, done + [ev], r)
  {
    assert Elems(done + [ev]) == Elems(done) + {ev};
    GroupsMore(c, Elems(done), ev, q.groups, r.groups);
    RefsMore(c, done, ev);
    RowMore(c, Elems(done), ev);
  }

  method AsSet(hints: seq<Hint>) returns (s: set<Hint>)
    ensures s == Elems(hints)
  {
    s := set h | h in hints;
  }

  /** `_route_evidence`. */
  method Route(c: Config, ghost done: seq<Evidence>, q: Collected, ev: Evidence) returns (r: Collected)
    requires IsCollected(c, done, q)
    ensures IsCollected(c, done + [ev], r)
  {
    var groups := JoinGroups(q.groups, KeysFrom(c.env, ev), ev);
    var refs := RefsWith(q.refs, RefFrom(c.env, ev));
    var hints := AsSet(HintsFrom(c.env, ev));
    r := Collected(groups, refs, q.hints + hints);
    CollectedMore(c, done, q, ev, r);
  }

  /** `_collect_evidence`. */
  method Collect(c: Config, evs: seq<Evidence>) returns (q: Collected)
    ensures IsCollected(c, evs, q)
  {
    q := Collected(map[], [], {});
    for i := 0 to |evs|
      invariant IsCollected(c, evs[..i], q)
    {
      assert evs[..i + 1] == evs[..i] + [evs[i]];
      q := Route(c, evs[..i], q, evs[i]);
    }
    assert evs[..|evs|] == evs;
  }

  // --------------------------------------------------------------------- writing

  /** The assets once these keys are written, from the database `db`. */
  ghost function AssetsWith(c: Config, evs: set<Evidence>, now: real, db: Db, ids: set<Key>): map<Key, Asset> {
    map k | k in db.assets.Keys + ids :: if k in ids then WrittenAsset(c, evs, now, db, k) else db.assets[k]
  }

  ghost function In(assets: map<Key, Asset>, k: Key): Option<Asset> {
    if k in assets then Some(assets[k]) else None
  }

  /** The assets as a function of the keys written so far. */
  type View = set<Key> -> map<Key, Asset>

  ghost function Put(c: Config, evs: set<Evidence>, now: real, m: map<Key, Asset>, k: Key): map<Key, Asset> {
    m[k := Upsert(c, k, Own(c, evs, k), ScopeFor(c, k, HintsOf(c, evs)), now, In(m, k))]
  }

  ghost predicate IsView(c: Config, evs: set<Evidence>, now: real, view: View) {
    forall ids, k {:trigger Put(c, evs, now, view(ids), k)} :: k !in ids ==>
      Put(c, evs, now, view(ids), k) == view(ids + {k})
  }

  ghost function ViewOf(c: Config, evs: set<Evidence>, now: real, db: Db): View {
    ids => AssetsWith(c, evs, now, db, ids)
  }

  lemma ViewWritesOne(c: Config, evs: set<Evidence>, now: real, db: Db)
    ensures IsView(c, evs, now, ViewOf(c, evs, now, db))
    ensures ViewOf(c, evs, now, db)({}) == db.assets
  {
    SameMaps(AssetsWith(c, evs, now, db, {}), db.assets);
    forall ids, k | k !in ids
      ensures Put(c, evs, now, ViewOf(c, evs, now, db)(ids), k) == ViewOf(c, evs, now, db)(ids + {k}) {
      WriteOne(c, evs, now, db, ids, k);
    }
  }

  lemma WriteOne(c: Config, evs: set<Evidence>, now: real, db: Db, ids: set<Key>, k: Key)
    requires k !in ids
    ensures Put(c, evs, now, AssetsWith(c, evs, now, db, ids), k) == AssetsWith(c, evs, now, db, ids + {k})
  {
    var m := AssetsWith(c, evs, now, db, ids);
    assert In(m, k) == Existing(db, k);
    SameMaps(m[k := WrittenAsset(c, evs, now, db, k)], AssetsWith(c, evs, now, db, ids + {k}));
  }

  method IsClean(pending: seq<Triple>, rels: set<Triple>) returns (ok: bool)
    ensures ok <==> NoDup(pending) && Elems(pending) !! rels
  {
    ok := true;
    for i := 0 to |pending|
      invariant ok <==> NoDup(pending[..i]) && Elems(pending[..i]) !! rels
    {
      assert pending[..i + 1] == pending[..i] + [pending[i]];
      FlushMore(pending[..i], pending[i], rels);
      if pending[i] in rels || pending[i] in pending[..i] {
        ok := false;
      }
    }
    assert pending[..|pending|] == pending;
  }

  lemma FlushMore(pending: seq<Triple>, t: Triple, rels: set<Triple>)
    ensures NoDup(pending + [t]) && Elems(pending + [t]) !! rels <==>
      NoDup(pending) && Elems(pending) !! rels && t !in rels && t !in pending
  {
    var more := pending + [t];
    assert Elems(more) == Elems(pending) + {t};
    assert forall i :: 0 <= i < |pending| ==> more[i] == pending[i];
    assert more[|pending|] == t;
  }

  class Session {
    const c: Config
    var assets: map<Key, Asset>
    var rels: set<Triple>
    var pending: seq<Triple>

    constructor (c: Config)
      ensures this.c == c && assets == map[] && rels == {} && pending == []
    {
      this.c := c;
      assets, rels, pending := map[], {}, [];
    }

    ghost function At(ids: set<Key>, failed: bool): Link
      reads this
    {
      Link(ids, assets.Keys, rels, pending, failed)
    }

    /** `session.flush()`: the unique constraint on relationships holds or it fails. */
    method Flush(ghost ids: set<Key>) returns (ok: bool)
      modifies this`rels, this`pending
      ensures At(ids, !ok) == Flushed(old(At(ids, false)))
    {
      ok := IsClean(pending, rels);
      if ok {
        rels, pending := rels + (set t | t in pending), [];
        assert rels == old(rels) + Elems(old(pending));
      }
    }

    /** `_upsert_asset`: a new asset flushes the session. A value that cannot be classified
        raises before anything is written. */
    method UpsertAsset(k: Key, own: seq<Evidence>, hints: set<Hint>, now: real, ghost evs: set<Evidence>,
        ghost ids: set<Key>)
        returns (ok: bool)
      requires (!Raises(c, k) ==> Elems(own) == Own(c, evs, k)) && hints == HintsOf(c, evs) && k !in ids
      modifies this
      ensures Raises(c, k) ==> !ok && assets == old(assets) && rels == old(rels) && pending == old(pending)
      ensures !Raises(c, k) ==> assets == Put(c, evs, now, old(assets), k)
      ensures !Raises(c, k) ==> At(ids + {k}, !ok) == Links.Resolved(old(At(ids, false)), k)
    {
      ghost var before := assets;
      var existing := if k in assets then Some(assets[k]) else None;
      if Raises(c, k) {
        return false;
      }
      var a := Record(c, k, own, hints, now, existing);
      assets := assets[k := a];
      assert assets.Keys == before.Keys + {k};
      ok := true;
      if existing.None? {
        ok := Flush(ids + {k});
      } else {
        assert assets.Keys == before.Keys;
      }
    }

    /** One more key of the view is written. */
    method Write(k: Key, own: seq<Evidence>, hints: set<Hint>, now: real, ghost evs: set<Evidence>,
        ghost ids: set<Key>, ghost view: View)
        returns (ok: bool)
      requires (!Raises(c, k) ==> Elems(own) == Own(c, evs, k)) && hints == HintsOf(c, evs) && k !in ids
      requires IsView(c, evs, now, view) && assets == view(ids)
      modifies this
      ensures Raises(c, k) ==> !ok && assets == view(ids) && rels == old(rels) && pending == old(pending)
      ensures !Raises(c, k) ==> assets == view(ids + {k})
      ensures !Raises(c, k) ==> At(ids + {k}, !ok) == Links.Resolved(old(At(ids, false)), k)
    {
      ok := UpsertAsset(k, own, hints, now, evs, ids);
      assert Put(c, evs, now, view(ids), k) == view(ids + {k});
    }

    /** One group; an upsert that raises is skipped. */
    method WriteGroup(k: Key, q: Collected, now: real, ghost evs: seq<Evidence>, ghost ids: set<Key>, ghost view: View)
      requires IsCollected(c, evs, q) && k in q.groups && k !in ids
      requires IsView(c, Elems(evs), now, view) && assets == view(ids) && pending == []
      modifies this
      ensures assets == view(if Raises(c, k) then ids else ids + {k}) && rels == old(rels) && pending == []
    {
      ResolvedAtRest(At(ids, false), k);
      var ok := Write(k, q.groups[k], q.hints, now, Elems(evs), ids, view);
    }

    /** The loop over the groups. */
    method GroupLoop(q: Collected, now: real, ghost evs: seq<Evidence>, ghost view: View)
      requires IsCollected(c, evs, q) && IsView(c, Elems(evs), now, view)
      requires assets == view({}) && pending == []
      modifies this
      ensures assets == view(Grouped(c, Elems(evs))) && rels == old(rels) && pending == []
    {
      var left, keys := q.groups.Keys, q.groups.Keys;
      assert Classifiable(c, keys - left) == {};
      while left != {}
        invariant left <= keys && assets == view(Classifiable(c, keys - left)) && rels == old(rels) && pending == []
        decreases |left|
      {
        var k :| k in left;
        WriteGroup(k, q, now, evs, Classifiable(c, keys - left), view);
        OneMoreClassifiable(c, keys, left, k);
        left := left - {k};
      }
      assert Classifiable(c, keys - {}) == Grouped(c, Elems(evs));
    }

    /** A key without evidence of its own is written. */
    method WriteBare(k: Key, q: Collected, now: real, ghost evs: seq<Evidence>, ghost ids: set<Key>, ghost view: View)
        returns (ok: bool)
      requires IsCollected(c, evs, q) && Grouped(c, Elems(evs)) <= ids && k !in ids
      requires IsView(c, Elems(evs), now, view) && assets == view(ids)
      modifies this
      ensures Raises(c, k) ==> !ok && assets == view(ids) && rels == old(rels) && pending == old(pending)
      ensures !Raises(c, k) ==> assets == view(ids + {k})
      ensures !Raises(c, k) ==> At(ids + {k}, !ok) == Links.Resolved(old(At(ids, false)), k)
    {
      OwnsNothing(c, evs, ids, k);
      ok := Write(k, [], q.hints, now, Elems(evs), ids, view);
    }

    /** A parent that no asset matches is materialised. */
    method MakeParent(ref: string, q: Collected, now: real, ghost evs: seq<Evidence>, ids: set<Key>, ghost view: View)
        returns (more: set<Key>, ok: bool)
      requires IsCollected(c, evs, q) && Grouped(c, Elems(evs)) <= ids && AllClassifiable(c, ids)
      requires IsView(c, Elems(evs), now, view) && assets == view(ids) && pending == []
      modifies this
      ensures ok <==> !RefRaises(c, ref, ids)
      ensures ok ==> more == if HasParent(c, ref, ids) then ids else ids + {InferParent(c, ref)}
      ensures ok ==> assets == view(more) && AllClassifiable(c, more) && rels == old(rels) && pending == []
    {
      more, ok := ids, true;
      if HasScheme(ref) && Key(Url, c.env.canonUrl(ref)) !in ids && c.malformed(ref) {
        return more, false;
      }
      if !HasParent(c, ref, ids) {
        var k := InferParent(c, ref);
        more := ids + {k};
        if k !in ids {
          ResolvedAtRest(At(ids, false), k);
          ok := WriteBare(k, q, now, evs, ids, view);
        } else {
          assert more == ids;
        }
      }
    }

    /** The loop over the attribute rows' references. */
    method AttributeLoop(q: Collected, now: real, ghost evs: seq<Evidence>, ghost view: View)
        returns (ids: set<Key>, ok: bool)
      requires IsCollected(c, evs, q) && IsView(c, Elems(evs), now, view)
      requires assets == view(Grouped(c, Elems(evs))) && pending == []
      modifies this
      ensures ok <==> !ParentsRaise(c, q.refs, Grouped(c, Elems(evs)))
      ensures ok ==> ids == WithParents(c, q.refs, Grouped(c, Elems(evs))) && AllClassifiable(c, ids)
      ensures ok ==> assets == view(ids) && rels == old(rels) && pending == []
    {
      ids, ok := GroupsOf(c, q), true;
      GroupsAreGrouped(c, evs, q);
      for i := 0 to |q.refs|
        invariant ok && !ParentsRaise(c, q.refs[..i], Grouped(c, Elems(evs)))
        invariant ids == WithParents(c, q.refs[..i], Grouped(c, Elems(evs))) && AllClassifiable(c, ids)
        invariant assets == view(ids) && rels == old(rels) && pending == []
      {
        assert q.refs[..i + 1][..i] == q.refs[..i];
        ids, ok := MakeParent(q.refs[i], q, now, evs, ids, view);
        if !ok {
          RaisingStays(c, q.refs, i + 1, Grouped(c, Elems(evs)));
          return;
        }
      }
      assert q.refs[..|q.refs|] == q.refs;
    }

    /** `_resolve_asset_id`. */
    method ResolveId(k: Key, q: Collected, now: real, ghost evs: seq<Evidence>, ids: set<Key>, ghost view: View)
        returns (more: set<Key>, ok: bool)
      requires IsCollected(c, evs, q) && Grouped(c, Elems(evs)) <= ids && AllClassifiable(c, ids)
      requires IsView(c, Elems(evs), now, view) && assets == view(ids)
      modifies this
      ensures more == ids + {k}
      ensures Raises(c, k) ==> !ok
      ensures !Raises(c, k) ==> assets == view(more) && AllClassifiable(c, more)
      ensures !Raises(c, k) ==> At(more, !ok) == Links.Resolved(old(At(ids, false)), k)
    {
      more, ok := ids + {k}, true;
      if k in ids {
        assert more == ids;
      } else {
        ok := WriteBare(k, q, now, evs, ids, view);
      }
    }

    /** One hint of `_materialise_relationships`. */
    method LinkHint(h: Hint, q: Collected, now: real, ghost evs: seq<Evidence>, ids: set<Key>, ghost view: View)
        returns (more: set<Key>, ok: bool)
      requires IsCollected(c, evs, q) && Grouped(c, Elems(evs)) <= ids && AllClassifiable(c, ids)
      requires IsView(c, Elems(evs), now, view) && assets == view(ids)
      modifies this
      ensures ok ==> ids <= more && assets == view(more) && AllClassifiable(c, more)
      ensures ok ==> more == ids + EndsOf(c, h)
      ensures ok <==> !HintRaises(c, h) && !Linked(c, old(At(ids, false)), h).failed
      ensures ok ==> At(more, false) == Linked(c, old(At(ids, false)), h)
    {
      more, ok := ids, true;
      if !RelKnown(h.rel) {
        return;
      }
      more, ok := ResolveId(SourceKey(c, h), q, now, evs, more, view);
      if !ok {
        return;
      }
      more, ok := ResolveId(TargetKey(c, h), q, now, evs, more, view);
      if !ok {
        return;
      }
      if Relates(c, h) && TripleOf(c, h) !in rels {
        pending := pending + [TripleOf(c, h)];
      }
    }

    /** The next hint, after those in `order`. */
    method RelateNext(h: Hint, q: Collected, now: real, ghost evs: seq<Evidence>, ids: set<Key>, ghost view: View,
                      ghost order: seq<Hint>, ghost left: set<Hint>, ghost start: set<Key>, ghost l: Link)
        returns (more: set<Key>, ok: bool)
      requires IsCollected(c, evs, q) && Grouped(c, Elems(evs)) <= ids && AllClassifiable(c, ids)
      requires IsView(c, Elems(evs), now, view) && assets == view(ids)
      requires Visited(c, q.hints, order, left, start, ids) && h in left && NoneRaises(c, order)
      requires At(ids, false) == LinkAll(c, l, order)
      modifies this
      ensures NoDup(order + [h]) && Elems(order + [h]) <= q.hints
      ensures ok ==> Visited(c, q.hints, order + [h], left - {h}, start, more)
      ensures ok ==> assets == view(more) && AllClassifiable(c, more) && At(more, false) == LinkAll(c, l, order + [h])
      ensures ok <==> NoneRaises(c, order + [h]) && !LinkAll(c, l, order + [h]).failed
    {
      LinkMore(c, l, order, h);
      VisitedMore(c, q.hints, order, left, start, ids, h);
      NoneRaisesMore(c, order, h);
      more, ok := LinkHint(h, q, now, evs, ids, view);
    }

    /** `_materialise_relationships`; the hints come in any order. */
    method RelateAll(q: Collected, now: real, ghost evs: seq<Evidence>, start: set<Key>, ghost view: View)
        returns (ok: bool, ghost order: seq<Hint>)
      requires IsCollected(c, evs, q) && Grouped(c, Elems(evs)) <= start && AllClassifiable(c, start)
      requires IsView(c, Elems(evs), now, view) && assets == view(start) && pending == []
      modifies this
      ensures NoDup(order) && Elems(order) <= q.hints
      ensures ok ==> Elems(order) == q.hints && assets == view(start + HintKeys(c, q.hints))
      ensures ok ==> AllClassifiable(c, start + HintKeys(c, q.hints))
      ensures ok <==> NoneRaises(c, order) && !LinkAll(c, old(At(start, false)), order).failed
      ensures ok ==> rels == LinkAll(c, old(At(start, false)), order).rels
      ensures ok ==> pending == LinkAll(c, old(At(start, false)), order).pending
    {
      ghost var l := At(start, false);
      ok, order := true, [];
      var left, ids := q.hints, start;
      NoneVisited(c, q.hints, start);
      while left != {}
        invariant Visited(c, q.hints, order, left, start, ids) && NoneRaises(c, order)
        invariant assets == view(ids) && AllClassifiable(c, ids) && At(ids, false) == LinkAll(c, l, order)
        decreases |left|
      {
        var h :| h in left;
        ids, ok := RelateNext(h, q, now, evs, ids, view, order, left, start, l);
        order := order + [h];
        left := left - {h};
        if !ok {
          return;
        }
      }
    }

    /** `correlate`, in one transaction: it either leaves the database as `Pass` says, or
        fails and leaves it as it was. It fails if a reference or a hint makes a parser
        raise; otherwise only if two hints collide. */
    method Correlate(evs: seq<Evidence>, now: real) returns (ok: bool)
      requires pending == []
      modifies this
      ensures pending == []
      ensures ok ==> Db(assets, rels) == old(Pass(c, evs, now, Db(assets, rels)))
      ensures !ok ==> assets == old(assets) && rels == old(rels)
      ensures ok ==> !PassRaises(c, evs)
      ensures !PassRaises(c, evs) && NoCollision(c, HintsOf(c, Elems(evs)), old(rels)) ==> ok
    {
      var assetsBefore, relsBefore := assets, rels;
      ghost var db := Db(assets, rels);
      ghost var view := ViewOf(c, Elems(evs), now, db);
      ViewWritesOne(c, Elems(evs), now, db);
      var q := Collect(c, evs);
      GroupLoop(q, now, evs, view);
      var ids;
      ids, ok := AttributeLoop(q, now, evs, view);
      if ok {
        ok := Conclude(q, now, evs, ids, view, db);
      }
      if !ok {
        assets, rels, pending := assetsBefore, relsBefore, [];
      }
    }

    /** The end of `correlate`: the relationships, and the last flush. */
    method Conclude(q: Collected, now: real, ghost evs: seq<Evidence>, ids: set<Key>, ghost view: View, ghost db: Db)
        returns (ok: bool)
      requires IsCollected(c, evs, q) && ids == WithParents(c, q.refs, Grouped(c, Elems(evs))) &&
        AllClassifiable(c, ids)
      requires !ParentsRaise(c, q.refs, Grouped(c, Elems(evs)))
      requires IsView(c, Elems(evs), now, view) && view == ViewOf(c, Elems(evs), now, db)
      requires assets == view(ids) && rels == db.rels && pending == []
      modifies this
      ensures ok ==> pending == [] && Db(assets, rels) == Pass(c, evs, now, db) && !PassRaises(c, evs)
      ensures !PassRaises(c, evs) && NoCollision(c, q.hints, db.rels) ==> ok
    {
      ghost var l := At(ids, false);
      ghost var order;
      ok, order := RelateAll(q, now, evs, ids, view);
      LinkedRels(c, db.rels, l, order);
      if NoCollision(c, q.hints, db.rels) {
        AllLinked(c, q.hints, db.rels, l, order);
      }
      if ok {
        AllWritten(c, evs, ids + HintKeys(c, q.hints));
        ok := Flush(ids);
      }
    }
  }

  ghost predicate AllClassifiable(c: Config, ids: set<Key>) {
    forall k :: k in ids ==> !Raises(c, k)
  }

  ghost predicate NoneRaises(c: Config, order: seq<Hint>) {
    forall h :: h in order ==> !HintRaises(c, h)
  }

  lemma NoneRaisesMore(c: Config, order: seq<Hint>, h: Hint)
    ensures NoneRaises(c, order + [h]) <==> NoneRaises(c, order) && !HintRaises(c, h)
  {
    assert forall g :: g in order + [h] <==> g in order || g == h;
  }

  function Classifiable(c: Config, keys: set<Key>): set<Key> {
    set k | k in keys && !Raises(c, k)
  }

  lemma OneMoreClassifiable(c: Config, keys: set<Key>, left: set<Key>, k: Key)
    requires k in left && left <= keys
    ensures Classifiable(c, keys - (left - {k})) == Classifiable(c, keys - left) + (if Raises(c, k) then {} else {k})
  {
  }

  function GroupsOf(c: Config, q: Collected): set<Key> {
    Classifiable(c, q.groups.Keys)
  }

  lemma GroupsAreGrouped(c: Config, evs: seq<Evidence>, q: Collected)
    requires IsCollected(c, evs, q)
    ensures GroupsOf(c, q) == Grouped(c, Elems(evs)) && AllClassifiable(c, GroupsOf(c, q))
  {
  }

  lemma {:induction false} RaisingStays(c: Config, refs: seq<string>, i: nat, ids: set<Key>)
    requires i <= |refs| && ParentsRaise(c, refs[..i], ids)
    ensures ParentsRaise(c, refs, ids)
    decreases |refs|
  {
    if i < |refs| {
      var most := refs[..|refs| - 1];
      assert most[..i] == refs[..i];
      RaisingStays(c, most, i, ids);
    } else {
      assert refs[..i] == refs;
    }
  }

  /** When nothing raised, all keys known at the end are written. */
  lemma AllWritten(c: Config, evs: seq<Evidence>, ids: set<Key>)
    requires AllClassifiable(c, ids)
    requires ids == WithParents(c, RefsOf(c, evs), Grouped(c, Elems(evs))) + HintKeys(c, HintsOf(c, Elems(evs)))
    ensures ids == Written(c, evs)
  {
  }

  /** The hints visited so far, in order, those left, and the keys known from them. */
  ghost predicate Visited(c: Config, hints: set<Hint>, order: seq<Hint>, left: set<Hint>, start: set<Key>,
      ids: set<Key>) {
    NoDup(order) && Elems(order) == hints - left && left <= hints && start <= ids &&
      ids == start + HintKeys(c, Elems(order))
  }

  lemma NoneVisited(c: Config, hints: set<Hint>, start: set<Key>)
    ensures Visited(c, hints, [], hints, start, start)
  {
    assert Elems<Hint>([]) == hints - hints;
  }

  lemma VisitedMore(c: Config, hints: set<Hint>, order: seq<Hint>, left: set<Hint>, start: set<Key>, ids: set<Key>,
      h: Hint)
    requires Visited(c, hints, order, left, start, ids) && h in left
    ensures Visited(c, hints, order + [h], left - {h}, start, ids + EndsOf(c, h))
  {
    OrderMore(order, h);
    HintKeysMore(c, Elems(order), h);
    assert hints - (left - {h}) == (hints - left) + {h};
  }

  lemma LinkMore(c: Config, l: Link, order: seq<Hint>, h: Hint)
    ensures LinkAll(c, l, order + [h]) == Linked(c, LinkAll(c, l, order), h)
  {
    assert (order + [h])[..|order|] == order;
  }

  lemma OrderMore(order: seq<Hint>, h: Hint)
    requires NoDup(order) && h !in Elems(order)
    ensures NoDup(order + [h]) && Elems(order + [h]) == Elems(order) + {h}
  {
    assert forall i :: 0 <= i < |order| ==> order[i] in Elems(order);
  }

  ghost function EndsOf(c: Config, h: Hint): set<Key> {
    if RelKnown(h.rel) then {SourceKey(c, h), TargetKey(c, h)} else {}
  }

  lemma HintKeysMore(c: Config, hints: set<Hint>, h: Hint)
    ensures HintKeys(c, hints + {h}) == HintKeys(c, hints) + EndsOf(c, h)
  {
    var a, b := HintKeys(c, hints + {h}), HintKeys(c, hints) + EndsOf(c, h);
    forall k | k in b ensures k in a {
      assert h in hints + {h};
    }
  }

  /** A key that was not written as a group has no evidence of its own. */
  lemma OwnsNothing(c: Config, evs: seq<Evidence>, ids: set<Key>, k: Key)
    requires Grouped(c, Elems(evs)) <= ids && k !in ids
    ensures !Raises(c, k) ==> Elems<Evidence>([]) == Own(c, Elems(evs), k)
  {
    OwnIsGrouped(c, Elems(evs), k);
  }
}
