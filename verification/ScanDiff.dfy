/** The delta between two scans (recon/modules/active/scan_diff.py) and the snapshots it
    is based on (recon/modules/base.py:372-420). */
module ScanDiff {
  import opened Prelude
  import opened Text
  import opened Ordering

  // ----------------------------------------------------------------- signatures

  /** `service:<host>:<port>[:<what>]`. */
  function ServiceSignature(host: string, port: string, what: Option<string>): string {
    "service" + [':'] + (host + [':'] + (match what case None => port case Some(w) => port + [':'] + w))
  }

  /** `_service_key`. */
  function ServiceKey(sig: string): Option<string> {
    var parts := Split(sig, ':');
    if |parts| >= 3 && parts[0] == "service" then Some(Join(parts[..3], ':')) else None
  }

  function KeyFor(host: string, port: string): string {
    "service" + [':'] + (host + [':'] + port)
  }

  predicate NoColon(s: string) {
    forall i :: 0 <= i < |s| ==> s[i] != ':'
  }

  lemma {:induction false} SplitPlain(s: string)
    ensures NoColon(s) <==> |Split(s, ':')| == 1
    ensures NoColon(s) ==> Split(s, ':') == [s]
  {
    if s != "" {
      SplitPlain(s[1..]);
      assert forall i :: 0 <= i < |s| - 1 ==> s[1..][i] == s[i + 1];
      assert s == [s[0]] + s[1..];
    }
  }

  lemma SplitService(host: string, port: string, what: Option<string>)
    requires NoColon(port)
    ensures Split(ServiceSignature(host, port, what), ':') ==
      ["service"] + (Split(host, ':') + ([port] + (match what case None => [] case Some(w) => Split(w, ':'))))
  {
    var tail := match what case None => port case Some(w) => port + [':'] + w;
    SplitPlain(port);
    SplitPlain("service");
    SplitAppend("service", host + [':'] + tail, ':');
    SplitAppend(host, tail, ':');
    match what {
      case None =>
        assert [port] + [] == [port];
      case Some(w) =>
        SplitAppend(port, w, ':');
    }
  }

  /** The key names host and port exactly if the host has no colon: every IPv6 host gets a
      key that leaves out its port. */
  lemma ServiceKeyExactly(host: string, port: string, what: Option<string>)
    requires NoColon(port)
    ensures ServiceKey(ServiceSignature(host, port, what)) == Some(KeyFor(host, port)) <==> NoColon(host)
    ensures ServiceKey(ServiceSignature(host, port, what)).Some?
  {
    SplitService(host, port, what);
    SplitService(host, port, None);
    SplitPlain(host);
    var parts := Split(ServiceSignature(host, port, what), ':');
    var first := parts[..3];
    JoinSplit(KeyFor(host, port), ':');
    assert Split(KeyFor(host, port), ':') == ["service"] + (Split(host, ':') + [port]) by {
      assert Split(host, ':') + ([port] + []) == Split(host, ':') + [port];
    }
    if NoColon(host) {
      assert first == ["service"] + ([host] + [port]);
    } else {
      PartsHaveNoColon(ServiceSignature(host, port, what));
      SplitJoin(first);
    }
  }

  lemma {:induction false} PartsHaveNoColon(s: string)
    ensures forall p :: p in Split(s, ':') ==> NoColon(p)
  {
    if s != "" {
      PartsHaveNoColon(s[1..]);
      var rest := Split(s[1..], ':');
      assert NoColon(rest[0]);
    }
  }

  lemma {:induction false} SplitJoin(parts: seq<string>)
    requires parts != [] && forall p :: p in parts ==> NoColon(p)
    ensures Split(Join(parts, ':'), ':') == parts
  {
    SplitPlain(parts[0]);
    if |parts| > 1 {
      SplitJoin(parts[1..]);
      SplitAppend(parts[0], Join(parts[1..], ':'), ':');
      assert [parts[0]] + parts[1..] == parts;
    }
  }

  // -------------------------------------------------------------- paired changes

  datatype Change = Change(signature: string, was: string, now: string)

  /** The signatures of a list with this key, in order. */
  ghost function WithKey(sigs: seq<string>, key: string): seq<string> {
    if sigs == [] then []
    else
      WithKey(sigs[..|sigs| - 1], key) +
      (if ServiceKey(sigs[|sigs| - 1]) == Some(key) then [sigs[|sigs| - 1]] else [])
  }

  /** An unambiguous change: one signature gained and one lost under the same key. */
  ghost predicate IsChange(added: seq<string>, removed: seq<string>, c: Change) {
    WithKey(added, c.signature) == [c.now] && WithKey(removed, c.signature) == [c.was]
  }

  /** `added_by_key` and `removed_by_key`. */
  method GroupByKey(sigs: seq<string>) returns (groups: map<string, seq<string>>)
    ensures forall k :: k in groups <==> WithKey(sigs, k) != []
    ensures forall k :: k in groups ==> groups[k] == WithKey(sigs, k)
  {
    groups := map[];
    for i := 0 to |sigs|
      invariant forall k :: k in groups <==> WithKey(sigs[..i], k) != []
      invariant forall k :: k in groups ==> groups[k] == WithKey(sigs[..i], k)
    {
      assert sigs[..i + 1][..i] == sigs[..i];
      var key := ServiceKey(sigs[i]);
      if key.Some? {
        var k := key.value;
        groups := groups[k := (if k in groups then groups[k] else []) + [sigs[i]]];
      }
    }
    assert sigs[..|sigs|] == sigs;
  }

  ghost function Nows(changed: seq<Change>): set<string> {
    set c | c in changed :: c.now
  }

  ghost function Wases(changed: seq<Change>): set<string> {
    set c | c in changed :: c.was
  }

  ghost predicate OnePerKey(changed: seq<Change>) {
    forall i, j :: 0 <= i < j < |changed| ==> changed[i].signature != changed[j].signature
  }

  /** The changes found when all keys but these have been visited. */
  ghost predicate FoundWithout(added: seq<string>, removed: seq<string>, keys: set<string>, changed: seq<Change>) {
    OnePerKey(changed) && forall c :: c in changed <==> IsChange(added, removed, c) && c.signature !in keys
  }

  lemma VisitChange(added: seq<string>, removed: seq<string>, keys: set<string>, changed: seq<Change>, c: Change)
    requires FoundWithout(added, removed, keys, changed) && c.signature in keys && IsChange(added, removed, c)
    ensures FoundWithout(added, removed, keys - {c.signature}, changed + [c])
    ensures Nows(changed + [c]) == Nows(changed) + {c.now} && Wases(changed + [c]) == Wases(changed) + {c.was}
  {
    forall i | 0 <= i < |changed| ensures changed[i].signature != c.signature {
      assert changed[i] in changed;
    }
  }

  lemma VisitNoChange(added: seq<string>, removed: seq<string>, keys: set<string>, changed: seq<Change>, key: string)
    requires FoundWithout(added, removed, keys, changed) && key in keys
    requires |WithKey(added, key)| != 1 || |WithKey(removed, key)| != 1
    ensures FoundWithout(added, removed, keys - {key}, changed)
  {
  }

  /** `_pair_changes`. The keys are visited in any order. */
  method PairChanges(added: seq<string>, removed: seq<string>)
    returns (changed: seq<Change>, consumedAdded: set<string>, consumedRemoved: set<string>)
    ensures forall c :: c in changed <==> IsChange(added, removed, c)
    ensures OnePerKey(changed)
    ensures consumedAdded == Nows(changed) && consumedRemoved == Wases(changed)
  {
    var addedByKey := GroupByKey(added);
    var removedByKey := GroupByKey(removed);
    changed, consumedAdded, consumedRemoved := [], {}, {};
    var keys := addedByKey.Keys * removedByKey.Keys;
    while keys != {}
      invariant keys <= addedByKey.Keys * removedByKey.Keys
      invariant FoundWithout(added, removed, keys, changed)
      invariant consumedAdded == Nows(changed) && consumedRemoved == Wases(changed)
      decreases |keys|
    {
      var key :| key in keys;
      if |addedByKey[key]| == 1 && |removedByKey[key]| == 1 {
        var now, was := addedByKey[key][0], removedByKey[key][0];
        VisitChange(added, removed, keys, changed, Change(key, was, now));
        changed := changed + [Change(key, was, now)];
        consumedAdded := consumedAdded + {now};
        consumedRemoved := consumedRemoved + {was};
      } else {
        VisitNoChange(added, removed, keys, changed, key);
      }
      keys := keys - {key};
    }
  }

  // -------------------------------------------------------------------- the delta

  datatype Delta = Delta(base: nat, added: seq<string>, removed: seq<string>, changed: seq<Change>)

  /** `x` is the only signature of the set under this key. */
  ghost predicate OnlyOne(s: set<string>, key: string, x: string) {
    x in s && ServiceKey(x) == Some(key) && forall y :: y in s && ServiceKey(y) == Some(key) ==> y == x
  }

  /** The difference between two signature sets: changes are exactly the unambiguous ones,
      and what they do not explain is added or removed. */
  ghost predicate IsDelta(prior: set<string>, cur: set<string>, d: Delta) {
    && (forall c :: c in d.changed <==>
      OnlyOne(cur - prior, c.signature, c.now) && OnlyOne(prior - cur, c.signature, c.was))
    && OnePerKey(d.changed)
    && Elems(d.added) == cur - prior - Nows(d.changed) && NoDup(d.added)
    && Elems(d.removed) == prior - cur - Wases(d.changed) && NoDup(d.removed)
  }

  ghost function Apply(s: set<string>, d: Delta): set<string> {
    s - Elems(d.removed) - Wases(d.changed) + Elems(d.added) + Nows(d.changed)
  }

  /** The same delta read backwards. */
  ghost function Reversed(d: Delta): Delta {
    Delta(d.base, d.removed, d.added, seq(|d.changed|, i requires 0 <= i < |d.changed| =>
      Change(d.changed[i].signature, d.changed[i].now, d.changed[i].was)))
  }

  lemma NowsAndWases(prior: set<string>, cur: set<string>, d: Delta)
    requires IsDelta(prior, cur, d)
    ensures Nows(d.changed) <= cur - prior && Wases(d.changed) <= prior - cur
  {
    forall c | c in d.changed ensures c.now in cur - prior && c.was in prior - cur {
      assert OnlyOne(cur - prior, c.signature, c.now) && OnlyOne(prior - cur, c.signature, c.was);
    }
  }

  /** Applying a delta gives the new set; its four pieces are disjoint and are all there is
      to the difference. */
  lemma DeltaApplies(prior: set<string>, cur: set<string>, d: Delta)
    requires IsDelta(prior, cur, d)
    ensures Apply(prior, d) == cur
    ensures Elems(d.added) !! Nows(d.changed) && Elems(d.removed) !! Wases(d.changed)
    ensures Elems(d.added) + Nows(d.changed) == cur - prior && Elems(d.removed) + Wases(d.changed) == prior - cur
  {
    NowsAndWases(prior, cur, d);
  }

  lemma ReversedChanges(d: Delta)
    ensures forall c :: c in Reversed(d).changed <==> Change(c.signature, c.now, c.was) in d.changed
    ensures Nows(Reversed(d).changed) == Wases(d.changed) && Wases(Reversed(d).changed) == Nows(d.changed)
  {
    var back := Reversed(d).changed;
    forall c ensures c in back <==> Change(c.signature, c.now, c.was) in d.changed {
      if Change(c.signature, c.now, c.was) in d.changed {
        var i :| 0 <= i < |d.changed| && d.changed[i] == Change(c.signature, c.now, c.was);
        assert back[i] == c;
      }
    }
    forall x ensures x in Nows(back) <==> x in Wases(d.changed) {
      if x in Wases(d.changed) {
        var c :| c in d.changed && c.was == x;
        assert Change(c.signature, c.now, c.was) in back;
      }
    }
    forall x ensures x in Wases(back) <==> x in Nows(d.changed) {
      if x in Nows(d.changed) {
        var c :| c in d.changed && c.now == x;
        assert Change(c.signature, c.now, c.was) in back;
      }
    }
  }

  /** Read backwards, a delta is the delta from the new set to the old one. */
  lemma DeltaUndoes(prior: set<string>, cur: set<string>, d: Delta)
    requires IsDelta(prior, cur, d)
    ensures IsDelta(cur, prior, Reversed(d)) && Apply(cur, Reversed(d)) == prior
  {
    ReversedChanges(d);
    var back := Reversed(d);
    forall c ensures c in back.changed <==>
      OnlyOne(prior - cur, c.signature, c.now) && OnlyOne(cur - prior, c.signature, c.was)
    {
      var there := Change(c.signature, c.now, c.was);
      assert c in back.changed <==> there in d.changed;
    }
    DeltaApplies(cur, prior, back);
  }

  /** The delta does not depend on the order in which the keys were visited. */
  lemma DeltaIsUnique(prior: set<string>, cur: set<string>, d: Delta, e: Delta)
    requires IsDelta(prior, cur, d) && IsDelta(prior, cur, e)
    ensures Elems(d.added) == Elems(e.added) && Elems(d.removed) == Elems(e.removed)
    ensures Elems(d.changed) == Elems(e.changed) && |d.changed| == |e.changed|
  {
    forall c ensures c in d.changed <==> c in e.changed {
      assert c in d.changed <==> OnlyOne(cur - prior, c.signature, c.now) && OnlyOne(prior - cur, c.signature, c.was);
    }
    SizeOfDistinct(d.changed);
    SizeOfDistinct(e.changed);
    assert Elems(d.changed) == Elems(e.changed);
    assert Nows(d.changed) == Nows(e.changed) && Wases(d.changed) == Wases(e.changed);
  }

  lemma {:induction false} SizeOfDistinct(changed: seq<Change>)
    requires OnePerKey(changed)
    ensures |Elems(changed)| == |changed|
  {
    if changed != [] {
      var n := |changed| - 1;
      SizeOfDistinct(changed[..n]);
      assert Elems(changed) == Elems(changed[..n]) + {changed[n]};
    }
  }

  /** On a list without repeats, grouping finds exactly the lone signatures. */
  lemma {:induction false} WithKeyIs(sigs: seq<string>, key: string)
    ensures forall x :: x in WithKey(sigs, key) <==> x in sigs && ServiceKey(x) == Some(key)
    ensures NoDup(sigs) ==> NoDup(WithKey(sigs, key))
  {
    if sigs != [] {
      var n := |sigs| - 1;
      WithKeyIs(sigs[..n], key);
      assert sigs == sigs[..n] + [sigs[n]];
    }
  }

  lemma AllTheSame(s: seq<string>, x: string)
    requires x in s && NoDup(s) && forall i :: 0 <= i < |s| ==> s[i] == x
    ensures s == [x]
  {
    assert s[0] == s[|s| - 1];
  }

  lemma LoneIsOnlyOne(sigs: seq<string>, key: string, x: string)
    requires NoDup(sigs)
    ensures WithKey(sigs, key) == [x] <==> OnlyOne(Elems(sigs), key, x)
  {
    WithKeyIs(sigs, key);
    var group := WithKey(sigs, key);
    if group == [x] {
      assert x in group;
    }
    if OnlyOne(Elems(sigs), key, x) {
      assert x in group;
      forall i | 0 <= i < |group| ensures group[i] == x {
        assert group[i] in group;
        assert group[i] in Elems(sigs);
      }
      AllTheSame(group, x);
    }
  }

  // ---------------------------------------------------------------- the snapshots

  datatype Snapshot = Snapshot(takenAt: real, signatures: seq<string>)

  lemma ElemsAppend(list: seq<string>, n: string)
    ensures Elems(list + [n]) == Elems(list) + {n}
  {
  }

  /** The order of `taken_at`, newest first: on a tie the database may return any. */
  ghost predicate IsLatest(snapshots: seq<Snapshot>, k: nat) {
    k < |snapshots| && forall j :: 0 <= j < |snapshots| ==> snapshots[j].takenAt <= snapshots[k].takenAt
  }

  /** What the runs left behind: the first wrote a baseline, and every later one a delta
      against a latest snapshot and its own snapshot. */
  ghost predicate Kept(snapshots: seq<Snapshot>, deltas: seq<Delta>)
    decreases |snapshots|
  {
    if |snapshots| <= 1 then deltas == []
    else
      && |deltas| == |snapshots| - 1
      && var (n, d) := (|deltas| - 1, deltas[|deltas| - 1]);
      Kept(snapshots[..n + 1], deltas[..n]) && IsLatest(snapshots[..n + 1], d.base)
      && IsDelta(Elems(snapshots[d.base].signatures), Elems(snapshots[n + 1].signatures), d)
  }

  lemma KeptExtends(snapshots: seq<Snapshot>, deltas: seq<Delta>, s: Snapshot, d: Delta)
    requires Kept(snapshots, deltas) && IsLatest(snapshots, d.base)
    requires IsDelta(Elems(snapshots[d.base].signatures), Elems(s.signatures), d)
    ensures Kept(snapshots + [s], deltas + [d])
  {
    assert (snapshots + [s])[..|snapshots|] == snapshots && (deltas + [d])[..|deltas|] == deltas;
  }

  ghost predicate Increasing(snapshots: seq<Snapshot>) {
    forall i, j :: 0 <= i < j < |snapshots| ==> snapshots[i].takenAt < snapshots[j].takenAt
  }

  ghost function Replay(s: set<string>, deltas: seq<Delta>): set<string>
    decreases |deltas|
  {
    if deltas == [] then s
    else Apply(Replay(s, deltas[..|deltas| - 1]), deltas[|deltas| - 1])
  }

  /** With increasing snapshot times the deltas telescope: from the first baseline they
      lead to the latest snapshot. */
  lemma {:induction false} DeltasTelescope(snapshots: seq<Snapshot>, deltas: seq<Delta>)
    requires Kept(snapshots, deltas) && Increasing(snapshots) && snapshots != []
    ensures Replay(Elems(snapshots[0].signatures), deltas) == Elems(snapshots[|snapshots| - 1].signatures)
    decreases |snapshots|
  {
    if |snapshots| > 1 {
      var n := |deltas| - 1;
      var d := deltas[n];
      DeltasTelescope(snapshots[..n + 1], deltas[..n]);
      assert d.base == n by {
        assert snapshots[..n + 1][n].takenAt <= snapshots[..n + 1][d.base].takenAt;
      }
      DeltaApplies(Elems(snapshots[n].signatures), Elems(snapshots[n + 1].signatures), d);
    }
  }

  /** And read backwards they lead from the latest snapshot to the baseline. */
  lemma {:induction false} DeltasRewind(snapshots: seq<Snapshot>, deltas: seq<Delta>)
    requires Kept(snapshots, deltas) && Increasing(snapshots) && snapshots != []
    ensures Rewind(Elems(snapshots[|snapshots| - 1].signatures), deltas) == Elems(snapshots[0].signatures)
    decreases |snapshots|
  {
    if |snapshots| > 1 {
      var n := |deltas| - 1;
      var d := deltas[n];
      DeltasRewind(snapshots[..n + 1], deltas[..n]);
      assert d.base == n by {
        assert snapshots[..n + 1][n].takenAt <= snapshots[..n + 1][d.base].takenAt;
      }
      DeltaUndoes(Elems(snapshots[n].signatures), Elems(snapshots[n + 1].signatures), d);
    }
  }

  ghost function Rewind(s: set<string>, deltas: seq<Delta>): set<string>
    decreases |deltas|
  {
    if deltas == [] then s
    else Rewind(Apply(s, Reversed(deltas[|deltas| - 1])), deltas[..|deltas| - 1])
  }

  // --------------------------------------------------------------------- the run

  datatype Emitted = Added(signature: string) | Removed(signature: string) | Changed(change: Change)

  /** The evidence of a delta, in the order it is written. */
  function EvidenceOf(d: Delta): seq<Emitted> {
    seq(|d.added|, i requires 0 <= i < |d.added| => Added(d.added[i]))
    + seq(|d.removed|, i requires 0 <= i < |d.removed| => Removed(d.removed[i]))
    + seq(|d.changed|, i requires 0 <= i < |d.changed| => Changed(d.changed[i]))
  }

  /** Every part of the delta is reported, and nothing else, once each. */
  lemma EvidenceTellsDelta(d: Delta)
    ensures forall x :: Added(x) in EvidenceOf(d) <==> x in d.added
    ensures forall x :: Removed(x) in EvidenceOf(d) <==> x in d.removed
    ensures forall c :: Changed(c) in EvidenceOf(d) <==> c in d.changed
    ensures |EvidenceOf(d)| == |d.added| + |d.removed| + |d.changed|
  {
    var a := seq(|d.added|, i requires 0 <= i < |d.added| => Added(d.added[i]));
    var r := seq(|d.removed|, i requires 0 <= i < |d.removed| => Removed(d.removed[i]));
    var c := seq(|d.changed|, i requires 0 <= i < |d.changed| => Changed(d.changed[i]));
    assert EvidenceOf(d) == a + r + c;
    forall x ensures Added(x) in a <==> x in d.added {
      if i :| 0 <= i < |d.added| && d.added[i] == x { assert a[i] == Added(x); }
    }
    forall x ensures Removed(x) in r <==> x in d.removed {
      if i :| 0 <= i < |d.removed| && d.removed[i] == x { assert r[i] == Removed(x); }
    }
    forall x ensures Changed(x) in c <==> x in d.changed {
      if i :| 0 <= i < |d.changed| && d.changed[i] == x { assert c[i] == Changed(x); }
    }
  }

  /** The list without what a change has consumed. */
  method Without(sigs: seq<string>, consumed: set<string>) returns (kept: seq<string>)
    requires Sorted(sigs)
    ensures Sorted(kept) && Elems(kept) == Elems(sigs) - consumed
  {
    kept := [];
    for i := 0 to |sigs|
      invariant Sorted(kept) && Elems(kept) == Elems(sigs[..i]) - consumed
    {
      assert sigs[..i + 1] == sigs[..i] + [sigs[i]];
      ElemsAppend(sigs[..i], sigs[i]);
      if sigs[i] !in consumed {
        forall x | x in kept ensures Le(x, sigs[i]) && x != sigs[i] {
          assert x in Elems(kept);
          assert x in sigs[..i];
        }
        SortedAppend(kept, sigs[i]);
        ElemsAppend(kept, sigs[i]);
        kept := kept + [sigs[i]];
      }
    }
    assert sigs[..|sigs|] == sigs;
  }

  /** The diff part of `ScanDiffModule.run`. */
  method DiffAgainst(base: nat, prior: set<string>, cur: set<string>) returns (d: Delta)
    ensures d.base == base && IsDelta(prior, cur, d) && Sorted(d.added) && Sorted(d.removed)
  {
    var added := SortedList(cur - prior);
    var removed := SortedList(prior - cur);
    SortedOfIs(cur - prior);
    SortedOfIs(prior - cur);
    var changed, consumedAdded, consumedRemoved := PairChanges(added, removed);
    forall c ensures c in changed <==>
      OnlyOne(cur - prior, c.signature, c.now) && OnlyOne(prior - cur, c.signature, c.was) {
      LoneIsOnlyOne(added, c.signature, c.now);
      LoneIsOnlyOne(removed, c.signature, c.was);
    }
    var onlyAdded := Without(added, consumedAdded);
    var onlyRemoved := Without(removed, consumedRemoved);
    d := Delta(base, onlyAdded, onlyRemoved, changed);
  }

  class SnapshotStore {
    var snapshots: seq<Snapshot>
    var deltas: seq<Delta>

    constructor ()
      ensures snapshots == [] && deltas == []
      ensures Kept(snapshots, deltas)
    {
      snapshots, deltas := [], [];
    }

    /** `latest_asset_snapshot`. */
    method Latest() returns (r: Option<nat>)
      ensures r.None? <==> snapshots == []
      ensures r.Some? ==> IsLatest(snapshots, r.value)
    {
      if snapshots == [] {
        return None;
      }
      var best := 0;
      for i := 1 to |snapshots|
        invariant best < |snapshots|
        invariant forall j :: 0 <= j < i ==> snapshots[j].takenAt <= snapshots[best].takenAt
      {
        if snapshots[i].takenAt >= snapshots[best].takenAt {
          best := i;
        }
      }
      return Some(best);
    }

    /** `write_scan_delta` and `write_asset_snapshot`. */
    method Write(d: Delta, s: Snapshot)
      requires Kept(snapshots, deltas) && IsLatest(snapshots, d.base)
      requires IsDelta(Elems(snapshots[d.base].signatures), Elems(s.signatures), d)
      modifies this
      ensures Kept(snapshots, deltas)
      ensures snapshots == old(snapshots) + [s] && deltas == old(deltas) + [d]
    {
      KeptExtends(snapshots, deltas, s, d);
      deltas := deltas + [d];
      snapshots := snapshots + [s];
    }

    /** `ScanDiffModule.run` on the current signatures. The first run writes the baseline
        alone; the evidence of a later one is exactly its delta. */
    method Run(signatures: set<string>, now: real) returns (emitted: seq<Emitted>, ghost mine: Snapshot)
      requires Kept(snapshots, deltas)
      modifies this
      ensures Kept(snapshots, deltas)
      ensures snapshots == old(snapshots) + [mine]
      ensures mine.takenAt == now && Sorted(mine.signatures) && Elems(mine.signatures) == signatures
      ensures old(snapshots) == [] ==> deltas == [] && emitted == []
      ensures old(snapshots) != [] ==>
        deltas != [] && deltas[..|deltas| - 1] == old(deltas) && emitted == EvidenceOf(deltas[|deltas| - 1])
    {
      var s := Picture(signatures, now);
      mine := s;
      var latest := Latest();
      if latest.None? {
        snapshots := snapshots + [s];
        return [], s;
      }
      var base := latest.value;
      var prior := ElementsOf(snapshots[base].signatures);
      var d := DiffAgainst(base, prior, signatures);
      Write(d, s);
      emitted := EvidenceOf(d);
    }
  }

  method ElementsOf(list: seq<string>) returns (s: set<string>)
    ensures s == Elems(list)
  {
    s := set x | x in list;
  }

  method Picture(signatures: set<string>, now: real) returns (s: Snapshot)
    ensures s.takenAt == now && Sorted(s.signatures) && Elems(s.signatures) == signatures
  {
    var list := SortedList(signatures);
    SortedOfIs(signatures);
    s := Snapshot(now, list);
  }
}
