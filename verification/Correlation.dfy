/** What one pass of the Correlation Engine makes of the evidence
    (recon/correlation/engine.py), and what passes over growing evidence keep. */
module Correlation {
  import opened Prelude
  import opened Text
  import opened Routing
  import Scope

  /** The engagement: the canonical forms, the scope, the pattern for values that stand out,
      and the values that `extract_host` raises on. */
  datatype Config = Config(env: Env, roe: Scope.Roe, standsOut: string -> bool, malformed: string -> bool)

  // ------------------------------------------------------------ parts of a record

  datatype Level = Informational | Notable | HighValue

  function Rank(a: Level): nat {
    match a case Informational => 0 case Notable => 1 case HighValue => 2
  }

  function MaxLevel(a: Level, b: Level): Level {
    if Rank(a) >= Rank(b) then a else b
  }

  function LevelNamed(s: string): Option<Level> {
    if s == "informational" then Some(Informational) else if s == "notable" then Some(Notable)
    else if s == "high_value" then Some(HighValue) else None
  }

  datatype Origin = Origin(module_: string, source: Option<string>)

  ghost function Origins(evs: set<Evidence>): set<Origin> {
    set ev | ev in evs :: Origin(ev.module_, ev.source)
  }

  /** `_confidence`. */
  function Confidence(distinct: nat): real {
    if distinct == 0 then 0.0
    else if 0.5 + 0.25 * (distinct - 1) as real < 1.0 then 0.5 + 0.25 * (distinct - 1) as real else 1.0
  }

  /** The confidence a pass computes for a key with this evidence of its own. */
  ghost function ConfidenceOf(evs: set<Evidence>): real {
    if evs == {} then 0.3 else Confidence(|Origins(evs)|)
  }

  predicate Hinted(ev: Evidence, a: Level) {
    ev.interest.Some? && LevelNamed(ev.interest.value) == Some(a)
  }

  ghost function HintedLevel(evs: set<Evidence>): Level {
    if exists ev :: ev in evs && Hinted(ev, HighValue) then HighValue
    else if exists ev :: ev in evs && Hinted(ev, Notable) then Notable
    else Informational
  }

  /** `_NEGATIVE_INTEREST`, by the first part of a finding's value. */
  function FindingLevel(value: string): Level {
    var s := Split(value, ':')[0];
    if s == "caa" || s == "mta_sts" || s == "tls_rpt" then Informational else Notable
  }

  predicate StartsWith(s: string, t: string) {
    |t| <= |s| && s[..|t|] == t
  }

  /** The interest of the key itself. */
  function BaseLevel(c: Config, k: Key): Level {
    if k.kind == Finding && StartsWith(k.value, "secret:") then HighValue
    else
      MaxLevel(
        match k.kind
        case Finding => FindingLevel(k.value)
        case Service | Email | Document | Netblock => Notable
        case _ => Informational,
        if c.standsOut(Lower(k.value)) then Notable else Informational)
  }

  /** `_interest`. */
  ghost function InterestOf(c: Config, k: Key, evs: set<Evidence>): Level {
    MaxLevel(HintedLevel(evs), BaseLevel(c, k))
  }

  predicate IsIntel(t: AssetType) {
    t == Finding || t == Organization || t == Person || t == Email || t == Repository || t == Netblock ||
      t == Document || t == Social
  }

  /** `resolved`: the addresses the hints give a name. */
  ghost function Resolved(hints: set<Hint>, host: string): set<string> {
    set h | h in hints && h.rel == "resolves_to" && h.tgtType == "ip" && h.srcValue == host :: h.tgtValue
  }

  /** `_classify`. */
  ghost function ScopeFor(c: Config, k: Key, hints: set<Hint>): Scope.ScopeStatus {
    if IsIntel(k.kind) then Scope.NotApplicable
    else if k.kind == Ip then Scope.StatusOf(c.roe, k.value, {})
    else if k.kind == Url then Scope.StatusOf(c.roe, c.roe.hostOf(k.value), Resolved(hints, c.roe.hostOf(k.value)))
    else Scope.StatusOf(c.roe, k.value, Resolved(hints, CanonHostName(k.value)))
  }

  /** `_classify` raises on this key: it takes the host of the value, and for a URL the host
      of that host again. */
  predicate Raises(c: Config, k: Key) {
    !IsIntel(k.kind) && (c.malformed(k.value) || (k.kind == Url && c.malformed(c.roe.hostOf(k.value))))
  }

  ghost predicate IsEarliest(evs: set<Evidence>, t: real) {
    (exists ev :: ev in evs && ev.at == t) && forall ev :: ev in evs ==> t <= ev.at
  }

  ghost predicate IsLatest(evs: set<Evidence>, t: real) {
    (exists ev :: ev in evs && ev.at == t) && forall ev :: ev in evs ==> ev.at <= t
  }

  lemma {:induction false} TimesExist(evs: set<Evidence>)
    requires evs != {}
    ensures (exists t :: IsEarliest(evs, t)) && (exists t :: IsLatest(evs, t))
    decreases |evs|
  {
    var x :| x in evs;
    var rest := evs - {x};
    if rest == {} {
      assert evs == {x};
      assert IsEarliest(evs, x.at) && IsLatest(evs, x.at);
    } else {
      TimesExist(rest);
      var a :| IsEarliest(rest, a);
      var b :| IsLatest(rest, b);
      assert IsEarliest(evs, if a <= x.at then a else x.at);
      assert IsLatest(evs, if b >= x.at then b else x.at);
    }
  }

  ghost function Earliest(evs: set<Evidence>): (t: real)
    requires evs != {}
    ensures IsEarliest(evs, t)
  {
    TimesExist(evs);
    var t :| IsEarliest(evs, t);
    t
  }

  ghost function Latest(evs: set<Evidence>): (t: real)
    requires evs != {}
    ensures IsLatest(evs, t)
  {
    TimesExist(evs);
    var t :| IsLatest(evs, t);
    t
  }

  function MinReal(a: real, b: real): real {
    if a <= b then a else b
  }

  function MaxReal(a: real, b: real): real {
    if a >= b then a else b
  }

  // ------------------------------------------------------------------- one upsert

  datatype Asset = Asset(confidence: real, interest: Level, scope: Scope.ScopeStatus, first: real, last: real)

  /** `_upsert_asset`; a new record without evidence is stamped `now`. */
  ghost function Upsert(c: Config, k: Key, evs: set<Evidence>, scope: Scope.ScopeStatus, now: real,
      existing: Option<Asset>): Asset {
    var confidence, interest := ConfidenceOf(evs), InterestOf(c, k, evs);
    match existing
    case None =>
      Asset(confidence, interest, scope, if evs == {} then now else Earliest(evs),
        if evs == {} then now else Latest(evs))
    case Some(a) =>
      Asset(MaxReal(a.confidence, confidence), MaxLevel(a.interest, interest), scope,
        if evs == {} then a.first else MinReal(a.first, Earliest(evs)),
        if evs == {} then a.last else MaxReal(a.last, Latest(evs)))
  }

  // --------------------------------------------------------------------- one pass

  datatype Triple = Triple(src: Key, tgt: Key, rel: string)

  datatype Db = Db(assets: map<Key, Asset>, rels: set<Triple>)

  predicate RelKnown(rel: string) {
    || rel == "resolves_to" || rel == "hosts" || rel == "discovered_via" || rel == "subdomain_of" || rel == "serves"
    || rel == "alias_of" || rel == "takeover_candidate" || rel == "affects" || rel == "owns" ||
      rel == "employed_by" || rel == "authored"
  }

  /** The rows of a group. */
  ghost function Own(c: Config, evs: set<Evidence>, k: Key): set<Evidence> {
    set ev | ev in evs && k in KeysFrom(c.env, ev)
  }

  ghost function GroupKeys(c: Config, evs: set<Evidence>): set<Key> {
    set ev, k | ev in evs && k in KeysFrom(c.env, ev) :: k
  }

  /** The groups that are upserted; one whose upsert raises is skipped. */
  ghost function Grouped(c: Config, evs: set<Evidence>): set<Key> {
    set k | k in GroupKeys(c, evs) && !Raises(c, k)
  }

  ghost function HintsOf(c: Config, evs: set<Evidence>): set<Hint> {
    set ev, h | ev in evs && h in HintsFrom(c.env, ev) :: h
  }

  function End(c: Config, typeName: string, value: string): Key {
    Key(TypeFromName(typeName), Canon(c.env, TypeFromName(typeName), value))
  }

  function SourceKey(c: Config, h: Hint): Key {
    End(c, h.srcType, h.srcValue)
  }

  function TargetKey(c: Config, h: Hint): Key {
    End(c, h.tgtType, h.tgtValue)
  }

  function TripleOf(c: Config, h: Hint): Triple {
    Triple(SourceKey(c, h), TargetKey(c, h), h.rel)
  }

  /** The hint becomes a relationship: its relation is known and its ends differ. */
  predicate Relates(c: Config, h: Hint) {
    RelKnown(h.rel) && SourceKey(c, h) != TargetKey(c, h)
  }

  ghost function Triples(c: Config, hints: set<Hint>): set<Triple> {
    set h | h in hints && Relates(c, h) :: TripleOf(c, h)
  }

  ghost function HintKeys(c: Config, hints: set<Hint>): set<Key> {
    (set h | h in hints && RelKnown(h.rel) :: SourceKey(c, h)) +
      (set h | h in hints && RelKnown(h.rel) :: TargetKey(c, h))
  }

  /** The references of the attribute rows, each once, in order. */
  ghost function RefsOf(c: Config, evs: seq<Evidence>): seq<string> {
    if evs == [] then []
    else
      var most := RefsOf(c, evs[..|evs| - 1]);
      match RefFrom(c.env, evs[|evs| - 1])
      case None => most
      case Some(ref) => if ref in most then most else most + [ref]
  }

  /** `_match_attribute_parent` finds a known asset. */
  predicate HasParent(c: Config, ref: string, ids: set<Key>) {
    var host := if HasScheme(ref) then c.roe.hostOf(ref) else ref;
    || (HasScheme(ref) && Key(Url, c.env.canonUrl(ref)) in ids)
    || Key(Subdomain, CanonHostName(host)) in ids || Key(Domain, CanonHostName(host)) in ids ||
      Key(Ip, c.env.canonIp(host)) in ids
  }

  /** `_infer_parent_type`. */
  function InferParent(c: Config, ref: string): Key {
    if HasScheme(ref) then Key(Url, c.env.canonUrl(ref))
    else
      var host := CanonHostName(ref);
      if c.roe.parseIp(host).Some? then Key(Ip, host) else Key(HostType(host), host)
  }

  /** The known assets after the attribute loop; it depends on the order of the rows. */
  ghost function WithParents(c: Config, refs: seq<string>, ids: set<Key>): (more: set<Key>)
    ensures ids <= more
  {
    if refs == [] then ids
    else
      var before := WithParents(c, refs[..|refs| - 1], ids);
      var ref := refs[|refs| - 1];
      if HasParent(c, ref, before) then before else before + {InferParent(c, ref)}
  }

  /** Looking for the parent, or materialising it, raises, and nothing catches that. */
  predicate RefRaises(c: Config, ref: string, ids: set<Key>) {
    || (HasScheme(ref) && Key(Url, c.env.canonUrl(ref)) !in ids && c.malformed(ref))
    || (!HasParent(c, ref, ids) && Raises(c, InferParent(c, ref)))
  }

  ghost predicate ParentsRaise(c: Config, refs: seq<string>, ids: set<Key>) {
    refs != [] &&
      var most := refs[..|refs| - 1];
      ParentsRaise(c, most, ids) || RefRaises(c, refs[|refs| - 1], WithParents(c, most, ids))
  }

  /** Nor when an end of a hint has to be materialised. */
  predicate HintRaises(c: Config, h: Hint) {
    RelKnown(h.rel) && (Raises(c, SourceKey(c, h)) || Raises(c, TargetKey(c, h)))
  }

  /** A parser sinks the whole pass. */
  ghost predicate PassRaises(c: Config, evs: seq<Evidence>) {
    || ParentsRaise(c, RefsOf(c, evs), Grouped(c, Elems(evs)))
    || exists h :: h in HintsOf(c, Elems(evs)) && HintRaises(c, h)
  }

  /** All keys a pass writes. */
  ghost function Written(c: Config, evs: seq<Evidence>): set<Key> {
    set k | k in WithParents(c, RefsOf(c, evs), Grouped(c, Elems(evs))) + HintKeys(c, HintsOf(c, Elems(evs))) &&
      !Raises(c, k)
  }

  ghost function Existing(db: Db, k: Key): Option<Asset> {
    if k in db.assets then Some(db.assets[k]) else None
  }

  /** The record of a written key: keys that only appear as a parent or in a hint are
      written without evidence. */
  ghost function WrittenAsset(c: Config, evs: set<Evidence>, now: real, db: Db, k: Key): Asset {
    Upsert(c, k, Own(c, evs, k), ScopeFor(c, k, HintsOf(c, evs)), now, Existing(db, k))
  }

  /** What a pass of `correlate` makes of the database when it goes through. */
  ghost function Pass(c: Config, evs: seq<Evidence>, now: real, db: Db): Db {
    var written := Written(c, evs);
    Db(map k | k in db.assets.Keys + written :: if k in written then WrittenAsset(c, Elems(evs), now, db, k)
      else db.assets[k],
       db.rels + Triples(c, HintsOf(c, Elems(evs))))
  }

  // ------------------------------------------------------------------- monotonicity

  lemma SubsetSize<T>(a: set<T>, b: set<T>)
    requires a <= b
    ensures |a| <= |b|
  {
    assert b == a + (b - a);
  }

  lemma ConfidenceMonotone(m: nat, n: nat)
    requires m <= n
    ensures Confidence(m) <= Confidence(n)
  {
  }

  /** Confidence is the number of independent origins: half for one, a quarter more for
      each further one, capped at three; a key without own evidence has 0.3. */
  lemma ConfidenceCounts(evs: set<Evidence>)
    ensures ConfidenceOf(evs) == 0.3 <==> evs == {}
    ensures ConfidenceOf(evs) == 0.5 <==> |Origins(evs)| == 1
    ensures ConfidenceOf(evs) == 0.75 <==> |Origins(evs)| == 2
    ensures ConfidenceOf(evs) == 1.0 <==> |Origins(evs)| >= 3
    ensures 0.3 <= ConfidenceOf(evs) <= 1.0
  {
    if ev :| ev in evs {
      assert Origin(ev.module_, ev.source) in Origins(evs);
      assert |Origins(evs)| >= 1;
    } else {
      assert Origins(evs) == {};
    }
  }

  lemma ConfidenceGrows(a: set<Evidence>, b: set<Evidence>)
    requires a <= b
    ensures ConfidenceOf(a) <= ConfidenceOf(b)
  {
    ConfidenceCounts(a);
    ConfidenceCounts(b);
    SubsetSize(Origins(a), Origins(b));
    if a != {} { ConfidenceMonotone(|Origins(a)|, |Origins(b)|); }
  }

  lemma InterestGrows(c: Config, k: Key, a: set<Evidence>, b: set<Evidence>)
    requires a <= b
    ensures Rank(InterestOf(c, k, a)) <= Rank(InterestOf(c, k, b))
  {
  }

  lemma OwnGrows(c: Config, a: set<Evidence>, b: set<Evidence>, k: Key)
    requires a <= b
    ensures Own(c, a, k) <= Own(c, b, k)
  {
  }

  lemma OwnIsGrouped(c: Config, evs: set<Evidence>, k: Key)
    ensures k in GroupKeys(c, evs) <==> Own(c, evs, k) != {}
    ensures k in Grouped(c, evs) <==> Own(c, evs, k) != {} && !Raises(c, k)
  {
    if k in GroupKeys(c, evs) {
      var ev :| ev in evs && k in KeysFrom(c.env, ev);
      assert ev in Own(c, evs, k);
    }
    if Own(c, evs, k) != {} {
      var ev :| ev in Own(c, evs, k);
    }
  }

  // --------------------------------------------------------------- what passes keep

  /** No record claims more than this evidence supports, and none less than the 0.3 of a
      key without evidence; every relationship has its hint. */
  ghost predicate Supported(c: Config, evs: set<Evidence>, db: Db) {
    && (forall k :: k in db.assets ==> SupportedAsset(c, evs, k, db.assets[k]))
    && db.rels <= Triples(c, HintsOf(c, evs))
  }

  ghost predicate SupportedAsset(c: Config, evs: set<Evidence>, k: Key, a: Asset) {
    0.3 <= a.confidence <= ConfidenceOf(Own(c, evs, k)) && Rank(a.interest) <= Rank(InterestOf(c, k, Own(c, evs, k)))
  }

  /** A record as the evidence alone determines it. */
  ghost predicate Exact(c: Config, evs: set<Evidence>, k: Key, a: Asset) {
    && a.confidence == ConfidenceOf(Own(c, evs, k))
    && a.interest == InterestOf(c, k, Own(c, evs, k))
    && a.scope == ScopeFor(c, k, HintsOf(c, evs))
  }

  lemma HintsGrow(c: Config, a: set<Evidence>, b: set<Evidence>)
    requires a <= b
    ensures HintsOf(c, a) <= HintsOf(c, b) && Triples(c, HintsOf(c, a)) <= Triples(c, HintsOf(c, b))
  {
  }

  lemma SupportGrows(c: Config, a: set<Evidence>, b: set<Evidence>, db: Db)
    requires a <= b && Supported(c, a, db)
    ensures Supported(c, b, db)
  {
    HintsGrow(c, a, b);
    forall k | k in db.assets ensures SupportedAsset(c, b, k, db.assets[k]) {
      OwnGrows(c, a, b, k);
      ConfidenceGrows(Own(c, a, k), Own(c, b, k));
      InterestGrows(c, k, Own(c, a, k), Own(c, b, k));
    }
  }

  lemma RankDecides(a: Level, b: Level)
    requires Rank(a) == Rank(b)
    ensures a == b
  {
  }

  lemma UpsertIsExact(c: Config, evs: set<Evidence>, now: real, db: Db, k: Key)
    requires k in db.assets ==> SupportedAsset(c, evs, k, db.assets[k])
    ensures Exact(c, evs, k, WrittenAsset(c, evs, now, db, k)) &&
      SupportedAsset(c, evs, k, WrittenAsset(c, evs, now, db, k))
  {
    ConfidenceCounts(Own(c, evs, k));
    if k in db.assets && Rank(db.assets[k].interest) == Rank(InterestOf(c, k, Own(c, evs, k))) {
      RankDecides(db.assets[k].interest, InterestOf(c, k, Own(c, evs, k)));
    }
  }

  /** On a database that the evidence supports, a pass writes exactly what the evidence
      determines, whatever earlier passes had written. */
  lemma PassIsExact(c: Config, evs: seq<Evidence>, now: real, db: Db)
    requires Supported(c, Elems(evs), db)
    ensures var after := Pass(c, evs, now, db);
      && Supported(c, Elems(evs), after)
      && after.rels == Triples(c, HintsOf(c, Elems(evs)))
      && Written(c, evs) <= after.assets.Keys
      && forall k :: k in Written(c, evs) ==> Exact(c, Elems(evs), k, after.assets[k])
  {
    var after := Pass(c, evs, now, db);
    forall k | k in Written(c, evs)
      ensures Exact(c, Elems(evs), k, after.assets[k]) && SupportedAsset(c, Elems(evs), k, after.assets[k]) {
      UpsertIsExact(c, Elems(evs), now, db, k);
    }
  }

  lemma GroupedIsWritten(c: Config, evs: seq<Evidence>)
    ensures Grouped(c, Elems(evs)) <= Written(c, evs)
    ensures forall k :: k in HintKeys(c, HintsOf(c, Elems(evs))) && !Raises(c, k) ==> k in Written(c, evs)
  {
  }

  /** Correlating at the checkpoint and again at the end equals correlating once: the same
      confidence, interest and scope for every key with evidence or in a hint, also for
      keys that the first pass had materialised at 0.3, and the same relationships. */
  lemma TwoPassesAreOne(c: Config, early: seq<Evidence>, all: seq<Evidence>, t: real, u: real, db: Db)
    requires Supported(c, Elems(early), db) && Elems(early) <= Elems(all)
    ensures var twice, once := Pass(c, all, u, Pass(c, early, t, db)), Pass(c, all, u, db);
      && twice.rels == once.rels
      && forall k :: k in Grouped(c, Elems(all)) + HintKeys(c, HintsOf(c, Elems(all))) && !Raises(c, k) ==>
        && k in twice.assets && k in once.assets
        && twice.assets[k].confidence == once.assets[k].confidence
        && twice.assets[k].interest == once.assets[k].interest
        && twice.assets[k].scope == once.assets[k].scope
  {
    var first := Pass(c, early, t, db);
    PassIsExact(c, early, t, db);
    SupportGrows(c, Elems(early), Elems(all), first);
    SupportGrows(c, Elems(early), Elems(all), db);
    PassIsExact(c, all, u, first);
    PassIsExact(c, all, u, db);
    GroupedIsWritten(c, all);
  }

  datatype Call = Call(evs: seq<Evidence>, now: real)

  const EMPTY := Db(map[], {})

  /** Any number of passes, from an empty database. */
  ghost function Passes(c: Config, calls: seq<Call>): Db {
    if calls == [] then EMPTY
    else Pass(c, calls[|calls| - 1].evs, calls[|calls| - 1].now, Passes(c, calls[..|calls| - 1]))
  }

  /** Evidence is only added. */
  ghost predicate Growing(calls: seq<Call>)
    decreases |calls|
  {
    |calls| <= 1 ||
      (Growing(calls[..|calls| - 1]) && Elems(calls[|calls| - 2].evs) <= Elems(calls[|calls| - 1].evs))
  }

  lemma EmptyIsSupported(c: Config, evs: set<Evidence>)
    ensures Supported(c, evs, EMPTY)
  {
  }

  /** After every run of passes over growing evidence, the last evidence alone determines
      the graph: a grouped key has the confidence of its origins, a key without evidence
      has 0.3, and the relationships are those of the hints. */
  lemma {:induction false} PassesAreExact(c: Config, calls: seq<Call>)
    requires calls != [] && Growing(calls)
    ensures var evs := Elems(calls[|calls| - 1].evs);
      var db := Passes(c, calls);
      && Supported(c, evs, db)
      && db.rels == Triples(c, HintsOf(c, evs))
      && (forall k :: k in Grouped(c, evs) ==> k in db.assets && Exact(c, evs, k, db.assets[k]))
      && (forall k :: k in db.assets ==> !Raises(c, k) && (db.assets[k].confidence == 0.3 <==> k !in Grouped(c, evs)))
    decreases |calls|
  {
    var last := calls[|calls| - 1];
    var most := calls[..|calls| - 1];
    if most != [] {
      PassesAreExact(c, most);
      SupportGrows(c, Elems(most[|most| - 1].evs), Elems(last.evs), Passes(c, most));
    } else {
      EmptyIsSupported(c, Elems(last.evs));
    }
    PassIsExact(c, last.evs, last.now, Passes(c, most));
    GroupedIsWritten(c, last.evs);
    var db := Passes(c, calls);
    forall k | k in db.assets
      ensures !Raises(c, k) && (db.assets[k].confidence == 0.3 <==> k !in Grouped(c, Elems(last.evs))) {
      OwnIsGrouped(c, Elems(last.evs), k);
      ConfidenceCounts(Own(c, Elems(last.evs), k));
    }
  }

  // -------------------------------------------------------------------- idempotence

  lemma UpsertTwice(c: Config, k: Key, evs: set<Evidence>, scope: Scope.ScopeStatus, t: real, u: real,
      existing: Option<Asset>)
    ensures var a := Upsert(c, k, evs, scope, t, existing); Upsert(c, k, evs, scope, u, Some(a)) == a
  {
    var a := Upsert(c, k, evs, scope, t, existing);
    RankDecides(MaxLevel(a.interest, InterestOf(c, k, evs)), a.interest);
  }

  lemma WrittenTwice(c: Config, evs: set<Evidence>, t: real, u: real, db: Db, once: Db, k: Key)
    requires k in once.assets && once.assets[k] == WrittenAsset(c, evs, t, db, k)
    ensures WrittenAsset(c, evs, u, once, k) == once.assets[k]
  {
    UpsertTwice(c, k, Own(c, evs, k), ScopeFor(c, k, HintsOf(c, evs)), t, u, Existing(db, k));
  }

  lemma AssetAfter(c: Config, evs: seq<Evidence>, now: real, db: Db, k: Key)
    requires k in Pass(c, evs, now, db).assets
    ensures Pass(c, evs, now, db).assets[k] == if k in Written(c, evs) then WrittenAsset(c, Elems(evs), now, db, k)
      else db.assets[k]
  {
  }

  /** A second pass over the same evidence creates no asset and no relationship, and
      changes no field. */
  lemma PassIsIdempotent(c: Config, evs: seq<Evidence>, t: real, u: real, db: Db)
    ensures Pass(c, evs, u, Pass(c, evs, t, db)) == Pass(c, evs, t, db)
  {
    var once := Pass(c, evs, t, db);
    var twice := Pass(c, evs, u, once);
    assert twice.assets.Keys == once.assets.Keys;
    forall k | k in once.assets ensures twice.assets[k] == once.assets[k] {
      AssetAfter(c, evs, t, db, k);
      AssetAfter(c, evs, u, once, k);
      if k in Written(c, evs) { WrittenTwice(c, Elems(evs), t, u, db, once, k); }
    }
    SameMaps(twice.assets, once.assets);
  }

  lemma SameMaps<K, V>(a: map<K, V>, b: map<K, V>)
    requires a.Keys == b.Keys && forall k :: k in a ==> a[k] == b[k]
    ensures a == b
  {
  }

  /** The order of the evidence, and its repetition, do not matter for any key with
      evidence of its own, nor for the relationships, at any clock readings. */
  lemma OrderDoesNotMatter(c: Config, p: seq<Evidence>, q: seq<Evidence>, t: real, u: real, db: Db)
    requires Elems(p) == Elems(q)
    ensures var a, b := Pass(c, p, t, db), Pass(c, q, u, db);
      && a.rels == b.rels
      && forall k :: k in Grouped(c, Elems(p)) ==> k in a.assets && k in b.assets && a.assets[k] == b.assets[k]
  {
    GroupedIsWritten(c, p);
    GroupedIsWritten(c, q);
    var a, b := Pass(c, p, t, db), Pass(c, q, u, db);
    forall k | k in Grouped(c, Elems(p)) ensures a.assets[k] == b.assets[k] {
      OwnIsGrouped(c, Elems(p), k);
    }
  }

  /** No record a pass writes takes a number down, and times only widen. */
  lemma PassNeverLowers(c: Config, evs: seq<Evidence>, now: real, db: Db, k: Key)
    requires k in db.assets
    ensures var after := Pass(c, evs, now, db);
      && k in after.assets && after.assets[k].confidence >= db.assets[k].confidence
      && Rank(after.assets[k].interest) >= Rank(db.assets[k].interest)
      && after.assets[k].first <= db.assets[k].first && db.assets[k].last <= after.assets[k].last
      && db.rels <= after.rels
  {
  }

  /** The times of a grouped key span its evidence and what an earlier pass had seen, and
      no more. */
  lemma TimesSpanEvidence(c: Config, evs: seq<Evidence>, now: real, db: Db, k: Key)
    requires k in Grouped(c, Elems(evs))
    ensures k in Pass(c, evs, now, db).assets
    ensures var own, a, before := Own(c, Elems(evs), k), Pass(c, evs, now, db).assets[k], Existing(db, k);
      && (forall ev :: ev in own ==> a.first <= ev.at <= a.last)
      && ((exists ev :: ev in own && a.first == ev.at) || (before.Some? && a.first == before.value.first))
      && ((exists ev :: ev in own && a.last == ev.at) || (before.Some? && a.last == before.value.last))
  {
    GroupedIsWritten(c, evs);
    AssetAfter(c, evs, now, db, k);
    OwnIsGrouped(c, Elems(evs), k);
    SpanOf(Own(c, Elems(evs), k));
  }

  lemma SpanOf(evs: set<Evidence>)
    requires evs != {}
    ensures IsEarliest(evs, Earliest(evs)) && IsLatest(evs, Latest(evs))
  {
  }

  /** The order does matter for parents that are only referred to: a page first and its host
      second materialises both, the other way round only the host. */
  lemma ParentsDependOnOrder(c: Config, url: string, host: string)
    requires HasScheme(url) && c.env.canonUrl(url) == url && c.roe.hostOf(url) == host
    requires !HasScheme(host) && CanonHostName(host) == host && c.roe.parseIp(host).None?
    ensures WithParents(c, [url, host], {}) == {Key(Url, url), Key(HostType(host), host)}
    ensures WithParents(c, [host, url], {}) == {Key(HostType(host), host)}
  {
    assert [url, host][..1] == [url] && [host, url][..1] == [host];
    assert WithParents(c, [url], {}) == {Key(Url, url)} by { assert [url][..0] == []; }
    assert WithParents(c, [host], {}) == {Key(HostType(host), host)} by { assert [host][..0] == []; }
  }

  /** One attribute row that refers to a malformed URL sinks a pass over it, whatever its
      other rows are: the row's parent is only known if a group is keyed by that URL, and
      such a group is skipped. */
  lemma {:induction false} MalformedRefSinksPass(c: Config, evs: seq<Evidence>, ev: Evidence, ref: string)
    requires ev in evs && RefFrom(c.env, ev) == Some(ref) && HasScheme(ref) && c.malformed(ref) &&
      c.env.canonUrl(ref) == ref
    ensures PassRaises(c, evs)
  {
    RefIsListed(c, evs, ev);
    MalformedRefRaises(c, RefsOf(c, evs), Grouped(c, Elems(evs)), ref);
  }

  lemma {:induction false} RefIsListed(c: Config, evs: seq<Evidence>, ev: Evidence)
    requires ev in evs && RefFrom(c.env, ev).Some?
    ensures RefFrom(c.env, ev).value in RefsOf(c, evs)
  {
    var most, last := evs[..|evs| - 1], evs[|evs| - 1];
    assert evs == most + [last];
    if ev in most {
      RefIsListed(c, most, ev);
    }
  }

  lemma {:induction false} MalformedRefRaises(c: Config, refs: seq<string>, ids: set<Key>, ref: string)
    requires ref in refs && HasScheme(ref) && c.malformed(ref) && c.env.canonUrl(ref) == ref && Key(Url, ref) !in ids
    ensures ParentsRaise(c, refs, ids)
  {
    var n := |refs| - 1;
    if ref in refs[..n] {
      MalformedRefRaises(c, refs[..n], ids, ref);
    } else {
      assert refs == refs[..n] + [refs[n]];
      NotMadeBefore(c, refs[..n], ids, ref);
    }
  }

  /** No earlier reference makes that URL's asset without raising. */
  lemma {:induction false} NotMadeBefore(c: Config, refs: seq<string>, ids: set<Key>, ref: string)
    requires c.malformed(ref) && Key(Url, ref) !in ids
    ensures ParentsRaise(c, refs, ids) || Key(Url, ref) !in WithParents(c, refs, ids)
  {
    if refs != [] {
      NotMadeBefore(c, refs[..|refs| - 1], ids, ref);
    }
  }
}
