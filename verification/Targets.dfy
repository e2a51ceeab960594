/** Target resolution for active modules (recon/modules/_targets.py): raw candidates from
    the rules of engagement, this run's evidence and prior assets, folded into one
    eligible and one excluded record a key. */
module Targets {
  import opened Prelude
  import opened Text
  import opened Scope

  datatype TargetType = Ip | Hostname | Url | Cidr

  datatype Source = RoeHost | RoeDomain | RoeCidr | CurrentDns | CurrentDiscovery | CurrentWeb | PriorAsset

  datatype Reason = ExplicitlyExcluded | OutOfScope | UnsafeForm | UnaccountedCidr

  datatype Raw = Raw(value: string, kind: TargetType, source: Source, evidence: Option<string>, resolved: seq<string>)

  datatype Candidate = Candidate(raw: Raw, scope: ScopeStatus, exclusion: Option<Reason>)

  datatype Key = Key(kind: TargetType, value: string)

  function KeyOf(c: Candidate): Key {
    Key(c.raw.kind, c.raw.value)
  }

  /** Current-run sources outrank the rules of engagement, and those prior assets. */
  function Rank(c: Candidate): nat {
    match c.raw.source
    case CurrentDns | CurrentDiscovery | CurrentWeb => 0
    case RoeHost | RoeDomain | RoeCidr => 1
    case PriorAsset => 2
  }

  /** The run: its rules of engagement and the parsers of Python's libraries that are used:
      `ipaddress.ip_network(...)` as version and prefix length, `str(ip_address(...))`,
      `safe_url_root` and `normalize_url_root`. */
  datatype Env = Env(roe: Roe, allowOos: bool, run: string,
                     prefixOf: string -> Option<(bool, nat)>, showIp: Addr -> string,
                     safeUrl: string -> bool, urlRoot: string -> string,
                     cidrText: Net -> string)

  // ------------------------------------------------------------------- safe form

  predicate NameChar(c: char) {
    'A' <= c <= 'Z' || 'a' <= c <= 'z' || '0' <= c <= '9' || c == '_' || c == '.' || c == '-'
  }

  predicate HostnameForm(s: string) {
    && 1 <= |s| <= 253 && (forall i :: 0 <= i < |s| ==> NameChar(s[i]))
    && s[0] != '-' && s[0] != '.' && s[|s| - 1] != '-' && s[|s| - 1] != '.'
  }

  /** `is_safe_target`. */
  predicate SafeTarget(e: Env, raw: string) {
    var value := Strip(raw);
    && value != "" && value[0] != '-'
    && match e.prefixOf(value)
       case Some(net) => net.1 >= (if net.0 then 120 else 24)
       case None => HostnameForm(value)
  }

  predicate SafeForm(e: Env, r: Raw) {
    if r.kind == Url then e.safeUrl(r.value) else SafeTarget(e, r.value)
  }

  // --------------------------------------------------------------- raw candidates

  datatype Subject = DnsRecord | Domain | Subdomain | LiveHost | IpSubject | UrlSubject | Endpoint | HttpEndpoint
    | OtherSubject

  /** One row of evidence; `name`, `rtype` and `answer` are the fields of a DNS record. */
  datatype Evidence = Evidence(id: string, run: string, module_: string, subject: Subject, value: string,
                               present: bool, isError: bool, name: string, rtype: string, answer: string,
                                 resolved: seq<string>)

  datatype Asset = AssetIp(value: string) | AssetName(value: string) | AssetUrl(value: string)
    | AssetOther(value: string)

  predicate IsWeb(s: Subject) {
    s == UrlSubject || s == Endpoint || s == HttpEndpoint
  }

  function SourceOf(ev: Evidence): Source {
    if ev.module_ == "host_discovery" then CurrentDiscovery
    else if IsWeb(ev.subject) then CurrentWeb
    else CurrentDns
  }

  function CanonName(value: string): string {
    CanonHost(Strip(value))
  }

  function CanonIp(e: Env, value: string): Option<string> {
    match e.roe.parseIp(Strip(value)) case None => None case Some(a) => Some(e.showIp(a))
  }

  /** `_base_domain`. */
  function BaseDomain(pattern: string): string {
    var p := RStripDots(Lower(Strip(pattern)));
    if |p| >= 2 && p[..2] == "*." then p[2..] else p
  }

  function FromDns(e: Env, ev: Evidence): seq<Raw> {
    var name := CanonName(if ev.name != "" then ev.name else ev.value);
    var ip := if ev.rtype == "A" || ev.rtype == "AAAA" then CanonIp(e, ev.answer) else None;
    (if name != "" then [Raw(name, Hostname, SourceOf(ev), Some(ev.id), if ip.Some? then [ip.value] else [])] else [])
    + (if ip.Some? then [Raw(ip.value, Ip, SourceOf(ev), Some(ev.id), [])] else [])
  }

  /** `_raw_from_evidence`. */
  function FromEvidence(e: Env, ev: Evidence): seq<Raw> {
    match ev.subject
    case DnsRecord => FromDns(e, ev)
    case Domain | Subdomain | LiveHost =>
      var host := CanonName(ev.value);
      if host != "" then [Raw(host, Hostname, SourceOf(ev), Some(ev.id), ev.resolved)] else []
    case IpSubject =>
      var ip := CanonIp(e, ev.value);
      if ip.Some? then [Raw(ip.value, Ip, SourceOf(ev), Some(ev.id), [])] else []
    case UrlSubject | Endpoint | HttpEndpoint =>
      if e.safeUrl(ev.value) then [Raw(e.urlRoot(ev.value), Url, SourceOf(ev), Some(ev.id), [])] else []
    case OtherSubject => []
  }

  function FromAsset(e: Env, a: Asset): seq<Raw> {
    match a
    case AssetIp(value) =>
      var ip := CanonIp(e, value);
      if ip.Some? then [Raw(ip.value, Ip, PriorAsset, None, [])] else []
    case AssetName(value) => [Raw(CanonName(value), Hostname, PriorAsset, None, [])]
    case AssetUrl(value) => if e.safeUrl(value) then [Raw(e.urlRoot(value), Url, PriorAsset, None, [])] else []
    case AssetOther(_) => []
  }

  /** The rows the query selects: this run's, no errors, findings that are present. */
  predicate Selected(e: Env, ev: Evidence) {
    ev.run == e.run && !ev.isError && ev.present && ev.subject != OtherSubject
  }

  // ------------------------------------------------------------------- judgement

  /** The verdict on one raw candidate, from its own value and its own addresses. */
  ghost function Judged(e: Env, r: Raw): Candidate {
    if !SafeForm(e, r) then Candidate(r, Flagged, Some(UnsafeForm))
    else
      var status := StatusOf(e.roe, r.value, Elems(r.resolved));
      Candidate(r, status,
        if status == Excluded then Some(ExplicitlyExcluded)
        else if status == Flagged && !e.allowOos then Some(OutOfScope)
        else None)
  }

  predicate Accepted(accept: set<TargetType>, r: Raw) {
    r.kind in accept && r.value != ""
  }

  ghost function Candidates(e: Env, accept: set<TargetType>, raws: seq<Raw>): seq<Candidate> {
    if raws == [] then []
    else
      var r := raws[|raws| - 1];
      Candidates(e, accept, raws[..|raws| - 1]) + (if Accepted(accept, r) then [Judged(e, r)] else [])
  }

  type Store = map<Key, Candidate>

  /** `c` has this key and goes into the eligible or the excluded store. */
  predicate Fits(c: Candidate, eligible: bool, k: Key) {
    KeyOf(c) == k && c.exclusion.None? == eligible
  }

  ghost predicate HasKey(cands: seq<Candidate>, eligible: bool, k: Key) {
    exists c :: c in cands && Fits(c, eligible, k)
  }

  /** The record kept for a key: the first of the best-ranked candidates. */
  ghost predicate IsPick(cands: seq<Candidate>, eligible: bool, k: Key, c: Candidate) {
    exists i :: 0 <= i < |cands| && IsPickAt(cands, eligible, k, c, i)
  }

  ghost predicate IsPickAt(cands: seq<Candidate>, eligible: bool, k: Key, c: Candidate, i: nat) {
    && i < |cands| && cands[i] == c && Fits(c, eligible, k)
    && (forall j :: 0 <= j < i && Fits(cands[j], eligible, k) ==> Rank(c) < Rank(cands[j]))
    && (forall j :: i <= j < |cands| && Fits(cands[j], eligible, k) ==> Rank(c) <= Rank(cands[j]))
  }

  ghost predicate StoreIs(cands: seq<Candidate>, eligible: bool, store: Store) {
    && (forall k :: k in store <==> HasKey(cands, eligible, k))
    && (forall k :: k in store ==> IsPick(cands, eligible, k, store[k]))
  }

  /** `_stash`. */
  function Stash(store: Store, c: Candidate): Store {
    if KeyOf(c) !in store || Rank(c) < Rank(store[KeyOf(c)]) then store[KeyOf(c) := c] else store
  }

  lemma PickStays(cands: seq<Candidate>, eligible: bool, k: Key, c: Candidate, d: Candidate)
    requires IsPick(cands, eligible, k, c)
    requires Fits(d, eligible, k) ==> Rank(c) <= Rank(d)
    ensures IsPick(cands + [d], eligible, k, c)
  {
    var i :| 0 <= i < |cands| && IsPickAt(cands, eligible, k, c, i);
    assert IsPickAt(cands + [d], eligible, k, c, i);
  }

  lemma PickNew(cands: seq<Candidate>, eligible: bool, k: Key, d: Candidate)
    requires Fits(d, eligible, k)
    requires forall j :: 0 <= j < |cands| && Fits(cands[j], eligible, k) ==> Rank(d) < Rank(cands[j])
    ensures IsPick(cands + [d], eligible, k, d)
  {
    assert IsPickAt(cands + [d], eligible, k, d, |cands|);
  }

  lemma PickIsBest(cands: seq<Candidate>, eligible: bool, k: Key, c: Candidate)
    requires IsPick(cands, eligible, k, c)
    ensures c in cands && Fits(c, eligible, k)
    ensures forall d :: d in cands && Fits(d, eligible, k) ==> Rank(c) <= Rank(d)
  {
    var i :| 0 <= i < |cands| && IsPickAt(cands, eligible, k, c, i);
    forall d | d in cands && Fits(d, eligible, k) ensures Rank(c) <= Rank(d) {
      var j :| 0 <= j < |cands| && cands[j] == d;
    }
  }

  lemma StashKeeps(cands: seq<Candidate>, eligible: bool, store: Store, c: Candidate)
    requires StoreIs(cands, eligible, store) && c.exclusion.None? == eligible
    ensures StoreIs(cands + [c], eligible, Stash(store, c))
  {
    var after := Stash(store, c);
    forall k ensures k in after <==> HasKey(cands + [c], eligible, k) {
      HasKeyAppend(cands, eligible, k, c);
    }
    forall k | k in after ensures IsPick(cands + [c], eligible, k, after[k]) {
      if k == KeyOf(c) && after[k] == c && (k !in store || Rank(c) < Rank(store[k])) {
        forall j | 0 <= j < |cands| && Fits(cands[j], eligible, k) ensures Rank(c) < Rank(cands[j]) {
          assert cands[j] in cands && HasKey(cands, eligible, k);
          PickIsBest(cands, eligible, k, store[k]);
        }
        PickNew(cands, eligible, k, c);
      } else {
        PickStays(cands, eligible, k, store[k], c);
      }
    }
  }

  lemma HasKeyAppend(cands: seq<Candidate>, eligible: bool, k: Key, c: Candidate)
    ensures HasKey(cands + [c], eligible, k) <==> HasKey(cands, eligible, k) || Fits(c, eligible, k)
  {
    if HasKey(cands, eligible, k) {
      var d :| d in cands && Fits(d, eligible, k);
      assert d in cands + [c];
    }
    if Fits(c, eligible, k) {
      assert c in cands + [c];
    }
  }

  lemma OtherStoreStays(cands: seq<Candidate>, eligible: bool, store: Store, c: Candidate)
    requires StoreIs(cands, eligible, store) && c.exclusion.None? != eligible
    ensures StoreIs(cands + [c], eligible, store)
  {
    forall k ensures k in store <==> HasKey(cands + [c], eligible, k) {
      HasKeyAppend(cands, eligible, k, c);
    }
    forall k | k in store ensures IsPick(cands + [c], eligible, k, store[k]) {
      PickStays(cands, eligible, k, store[k], c);
    }
  }

  // ------------------------------------------------------------------ the method

  datatype Resolution = Resolution(eligible: Store, excluded: Store)

  /** What an active module asks with: the RoE's names, all evidence, prior assets. */
  datatype Inputs = Inputs(hosts: seq<string>, domains: seq<string>, evidence: seq<Evidence>, assets: seq<Asset>)

  ghost function HostRaws(hosts: seq<string>): seq<Raw> {
    if hosts == [] then []
    else HostRaws(hosts[..|hosts| - 1]) + [Raw(CanonName(hosts[|hosts| - 1]), Hostname, RoeHost, None, [])]
  }

  ghost function DomainRaws(domains: seq<string>): seq<Raw> {
    if domains == [] then []
    else DomainRaws(domains[..|domains| - 1]) + [Raw(BaseDomain(domains[|domains| - 1]), Hostname, RoeDomain, None, [])]
  }

  ghost function EvidenceRaws(e: Env, rows: seq<Evidence>): seq<Raw> {
    if rows == [] then []
    else
      var ev := rows[|rows| - 1];
      EvidenceRaws(e, rows[..|rows| - 1]) + (if Selected(e, ev) then FromEvidence(e, ev) else [])
  }

  ghost function AssetRaws(e: Env, assets: seq<Asset>): seq<Raw> {
    if assets == [] then [] else AssetRaws(e, assets[..|assets| - 1]) + FromAsset(e, assets[|assets| - 1])
  }

  /** All raw candidates, in the order they are collected. */
  ghost function RawsOf(e: Env, q: Inputs): seq<Raw> {
    (HostRaws(q.hosts) + DomainRaws(q.domains)) + EvidenceRaws(e, q.evidence) + AssetRaws(e, q.assets)
  }

  method CollectHosts(hosts: seq<string>) returns (raws: seq<Raw>)
    ensures raws == HostRaws(hosts)
  {
    raws := [];
    for i := 0 to |hosts|
      invariant raws == HostRaws(hosts[..i])
    {
      assert hosts[..i + 1][..i] == hosts[..i];
      raws := raws + [Raw(CanonName(hosts[i]), Hostname, RoeHost, None, [])];
    }
    assert hosts[..|hosts|] == hosts;
  }

  method CollectDomains(domains: seq<string>) returns (raws: seq<Raw>)
    ensures raws == DomainRaws(domains)
  {
    raws := [];
    for i := 0 to |domains|
      invariant raws == DomainRaws(domains[..i])
    {
      assert domains[..i + 1][..i] == domains[..i];
      raws := raws + [Raw(BaseDomain(domains[i]), Hostname, RoeDomain, None, [])];
    }
    assert domains[..|domains|] == domains;
  }

  method CollectEvidence(e: Env, rows: seq<Evidence>) returns (raws: seq<Raw>)
    ensures raws == EvidenceRaws(e, rows)
  {
    raws := [];
    for i := 0 to |rows|
      invariant raws == EvidenceRaws(e, rows[..i])
    {
      assert rows[..i + 1][..i] == rows[..i];
      if Selected(e, rows[i]) {
        raws := raws + FromEvidence(e, rows[i]);
      }
    }
    assert rows[..|rows|] == rows;
  }

  method CollectAssets(e: Env, assets: seq<Asset>) returns (raws: seq<Raw>)
    ensures raws == AssetRaws(e, assets)
  {
    raws := [];
    for i := 0 to |assets|
      invariant raws == AssetRaws(e, assets[..i])
    {
      assert assets[..i + 1][..i] == assets[..i];
      raws := raws + FromAsset(e, assets[i]);
    }
    assert assets[..|assets|] == assets;
  }

  /** The safe-form check and the scope decision on one candidate. */
  method Judge(e: Env, r: Raw) returns (c: Candidate)
    ensures c == Judged(e, r)
  {
    if !SafeForm(e, r) {
      return Candidate(r, Flagged, Some(UnsafeForm));
    }
    var status := Classify(e.roe, r.value, r.resolved);
    var reason := None;
    if status == Excluded {
      reason := Some(ExplicitlyExcluded);
    } else if status == Flagged && !e.allowOos {
      reason := Some(OutOfScope);
    }
    c := Candidate(r, status, reason);
  }

  method Sort(e: Env, accept: set<TargetType>, raws: seq<Raw>) returns (best: Store, excluded: Store)
    ensures StoreIs(Candidates(e, accept, raws), true, best)
    ensures StoreIs(Candidates(e, accept, raws), false, excluded)
  {
    best, excluded := map[], map[];
    for i := 0 to |raws|
      invariant StoreIs(Candidates(e, accept, raws[..i]), true, best)
      invariant StoreIs(Candidates(e, accept, raws[..i]), false, excluded)
    {
      ghost var cands := Candidates(e, accept, raws[..i]);
      assert raws[..i + 1][..i] == raws[..i];
      if raws[i].kind !in accept || raws[i].value == "" {
        assert Candidates(e, accept, raws[..i + 1]) == cands;
        continue;
      }
      var c := Judge(e, raws[i]);
      assert Candidates(e, accept, raws[..i + 1]) == cands + [c];
      if c.exclusion.None? {
        StashKeeps(cands, true, best, c);
        OtherStoreStays(cands, false, excluded, c);
        best := Stash(best, c);
      } else {
        StashKeeps(cands, false, excluded, c);
        OtherStoreStays(cands, true, best, c);
        excluded := Stash(excluded, c);
      }
    }
    assert raws[..|raws|] == raws;
  }

  /** An eligible address lies in the network. */
  ghost predicate Accounted(e: Env, eligible: Store, net: Net) {
    exists k, a :: k in eligible && k.kind == Ip && e.roe.parseIp(k.value) == Some(a) && InNet(a, net)
  }

  method CoversAny(e: Env, eligible: Store, net: Net) returns (covered: bool)
    ensures covered <==> Accounted(e, eligible, net)
  {
    covered := false;
    var keys := eligible.Keys;
    while keys != {}
      invariant keys <= eligible.Keys
      invariant covered <==>
        exists k, a :: k in eligible && k !in keys && k.kind == Ip && e.roe.parseIp(k.value) == Some(a) && InNet(a, net)
      decreases |keys|
    {
      var key :| key in keys;
      keys := keys - {key};
      if key.kind == Ip {
        var a := e.roe.parseIp(key.value);
        if a.Some? && InNet(a.value, net) {
          covered := true;
        }
      }
    }
  }

  function CidrRecord(e: Env, net: Net): Candidate {
    Candidate(Raw(e.cidrText(net), Cidr, RoeCidr, None, []), InScope, Some(UnaccountedCidr))
  }

  /** The key of an in-scope network that no eligible address accounts for. */
  ghost predicate Unaccounted(e: Env, eligible: Store, nets: seq<Net>, k: Key) {
    exists net :: net in nets && k == Key(Cidr, e.cidrText(net)) && !Accounted(e, eligible, net)
  }

  method MissingCidrs(e: Env, eligible: Store, nets: seq<Net>) returns (missing: Store)
    ensures forall k :: k in missing <==> Unaccounted(e, eligible, nets, k)
    ensures forall k :: k in missing ==> KeyOf(missing[k]) == k && missing[k].exclusion == Some(UnaccountedCidr)
  {
    missing := map[];
    for i := 0 to |nets|
      invariant forall k :: k in missing <==> Unaccounted(e, eligible, nets[..i], k)
      invariant forall k :: k in missing ==> KeyOf(missing[k]) == k && missing[k].exclusion == Some(UnaccountedCidr)
    {
      assert nets[..i + 1] == nets[..i] + [nets[i]];
      var covered := CoversAny(e, eligible, nets[i]);
      if !covered {
        missing := missing[Key(Cidr, e.cidrText(nets[i])) := CidrRecord(e, nets[i])];
      }
    }
    assert nets[..|nets|] == nets;
  }

  /** The answer to the accepted types and the raw candidates. */
  ghost predicate IsResolution(e: Env, accept: set<TargetType>, raws: seq<Raw>, r: Resolution) {
    var cands := Candidates(e, accept, raws);
    && StoreIs(cands, true, r.eligible)
    && (forall k :: k in r.excluded <==>
      (HasKey(cands, false, k) && k !in r.eligible) ||
        (Ip in accept && Unaccounted(e, r.eligible, e.roe.inScope.nets, k)))
    && (forall k :: k in r.excluded && k.kind != Cidr ==> IsPick(cands, false, k, r.excluded[k]))
    && (forall k :: k in r.excluded && k.kind == Cidr ==>
      KeyOf(r.excluded[k]) == k && r.excluded[k].exclusion == Some(UnaccountedCidr))
  }

  lemma {:induction false} CandidatesAccepted(e: Env, accept: set<TargetType>, raws: seq<Raw>)
    ensures forall c :: c in Candidates(e, accept, raws) <==>
      exists r :: r in raws && Accepted(accept, r) && c == Judged(e, r)
  {
    if raws != [] {
      var n := |raws| - 1;
      CandidatesAccepted(e, accept, raws[..n]);
      assert raws == raws[..n] + [raws[n]];
    }
  }

  /** The excluded records without the eligible keys, and the unaccounted networks. */
  ghost predicate IsJoined(best: Store, excluded: Store, missing: Store, joined: Store) {
    && (forall k :: k in joined <==> (k in excluded && k !in best) || k in missing)
    && (forall k :: k in joined ==> joined[k] == if k in missing then missing[k] else excluded[k])
  }

  method Join(best: Store, excluded: Store, missing: Store) returns (joined: Store)
    ensures IsJoined(best, excluded, missing, joined)
  {
    joined := (map k | k in excluded && k !in best :: excluded[k]) + missing;
  }

  /** The networks are keyed apart from the candidates. */
  ghost predicate MissingIs(e: Env, accept: set<TargetType>, best: Store, missing: Store) {
    && (forall k :: k in missing <==> Ip in accept && Unaccounted(e, best, e.roe.inScope.nets, k))
    && (forall k :: k in missing ==>
      k.kind == Cidr && KeyOf(missing[k]) == k && missing[k].exclusion == Some(UnaccountedCidr))
  }

  lemma StoresResolve(e: Env, accept: set<TargetType>, raws: seq<Raw>, best: Store, excluded: Store, missing: Store,
      joined: Store)
    requires Cidr !in accept && IsJoined(best, excluded, missing, joined) && MissingIs(e, accept, best, missing)
    requires StoreIs(Candidates(e, accept, raws), true, best) && StoreIs(Candidates(e, accept, raws), false, excluded)
    ensures IsResolution(e, accept, raws, Resolution(best, joined))
  {
    NoCidrCandidates(e, accept, raws);
    forall k | k in joined && k.kind == Cidr ensures k in missing {
      assert k in excluded ==> HasKey(Candidates(e, accept, raws), false, k);
    }
  }

  /** `resolve_targets`. No accepted type means every type; an unknown one is an error. */
  method ResolveTargets(e: Env, accept: set<TargetType>, q: Inputs) returns (r: Result<Resolution, string>)
    ensures r.Err? <==> Cidr in accept
    ensures r.Ok? ==> IsResolution(e, Wanted(accept), RawsOf(e, q), r.value)
  {
    var wanted := if accept == {} then {Ip, Hostname, Url} else accept;
    if Cidr in wanted {
      return Err("unknown accept type");
    }
    var raws := CollectRaws(e, q);
    var best, excluded := Sort(e, wanted, raws);
    var missing := MissingIf(e, wanted, best);
    var joined := Join(best, excluded, missing);
    StoresResolve(e, wanted, raws, best, excluded, missing, joined);
    r := Ok(Resolution(best, joined));
  }

  method CollectRaws(e: Env, q: Inputs) returns (raws: seq<Raw>)
    ensures raws == RawsOf(e, q)
  {
    var hosts := CollectHosts(q.hosts);
    var domains := CollectDomains(q.domains);
    var found := CollectEvidence(e, q.evidence);
    var prior := CollectAssets(e, q.assets);
    raws := (hosts + domains) + found + prior;
  }

  method MissingIf(e: Env, accept: set<TargetType>, best: Store) returns (missing: Store)
    ensures MissingIs(e, accept, best, missing)
  {
    missing := map[];
    if Ip in accept {
      missing := MissingCidrs(e, best, e.roe.inScope.nets);
    }
  }

  function Wanted(accept: set<TargetType>): set<TargetType> {
    if accept == {} then {Ip, Hostname, Url} else accept
  }

  lemma NoCidrCandidates(e: Env, accept: set<TargetType>, raws: seq<Raw>)
    requires Cidr !in accept
    ensures forall k, eligible :: HasKey(Candidates(e, accept, raws), eligible, k) ==> k.kind != Cidr
  {
    CandidatesAccepted(e, accept, raws);
  }

  // ------------------------------------------------------------------- results

  /** `x` is one of the candidates of this key. */
  predicate IsOf(accept: set<TargetType>, k: Key, x: Raw) {
    Accepted(accept, x) && Key(x.kind, x.value) == k
  }

  ghost predicate HasRaw(accept: set<TargetType>, raws: seq<Raw>, k: Key) {
    exists r :: r in raws && IsOf(accept, k, r)
  }

  /** By its own verdict this candidate may be used: its form is safe, and it is in scope,
      or merely flagged under an override. */
  ghost predicate Usable(e: Env, r: Raw) {
    var status := StatusOf(e.roe, r.value, Elems(r.resolved));
    SafeForm(e, r) && status != Excluded && (status == Flagged ==> e.allowOos)
  }

  lemma UsableIsEligible(e: Env, r: Raw)
    ensures Judged(e, r).exclusion.None? <==> Usable(e, r)
    ensures Judged(e, r).raw == r
  {
  }

  /** Which keys are eligible: those with a usable candidate of their own; the others are
      excluded. Every accepted key is in exactly one of the two. */
  lemma ResolutionPartitions(e: Env, accept: set<TargetType>, raws: seq<Raw>, r: Resolution)
    requires IsResolution(e, accept, raws, r) && Cidr !in accept
    ensures r.eligible.Keys !! r.excluded.Keys
    ensures forall k :: k in r.eligible <==> exists x :: x in raws && IsOf(accept, k, x) && Usable(e, x)
    ensures forall k: Key :: k.kind != Cidr ==> (k in r.eligible || k in r.excluded <==> HasRaw(accept, raws, k))
  {
    var cands := Candidates(e, accept, raws);
    CandidatesAccepted(e, accept, raws);
    NoCidrCandidates(e, accept, raws);
    forall k ensures k in r.eligible <==> exists x :: x in raws && IsOf(accept, k, x) && Usable(e, x) {
      KeysOf(e, accept, raws, true, k);
    }
    forall k: Key | k.kind != Cidr ensures k in r.eligible || k in r.excluded <==> HasRaw(accept, raws, k) {
      KeysOf(e, accept, raws, true, k);
      KeysOf(e, accept, raws, false, k);
    }
  }

  lemma KeysOf(e: Env, accept: set<TargetType>, raws: seq<Raw>, eligible: bool, k: Key)
    ensures HasKey(Candidates(e, accept, raws), eligible, k) <==>
      exists x :: x in raws && IsOf(accept, k, x) && Usable(e, x) == eligible
  {
    CandidatesAccepted(e, accept, raws);
    var cands := Candidates(e, accept, raws);
    if c :| c in cands && Fits(c, eligible, k) {
      var x :| x in raws && Accepted(accept, x) && c == Judged(e, x);
      UsableIsEligible(e, x);
    }
    if x :| x in raws && IsOf(accept, k, x) && Usable(e, x) == eligible {
      UsableIsEligible(e, x);
      assert Judged(e, x) in cands && Fits(Judged(e, x), eligible, k);
    }
  }

  /** All addresses that the candidates of the key resolve to, together. */
  ghost function AddressesOf(accept: set<TargetType>, raws: seq<Raw>, k: Key): set<string> {
    set x, ip | x in raws && IsOf(accept, k, x) && ip in x.resolved :: ip
  }

  ghost predicate ExcludedAlone(e: Env, x: Raw) {
    StatusOf(e.roe, x.value, Elems(x.resolved)) == Excluded
  }

  ghost predicate ExcludedTogether(e: Env, accept: set<TargetType>, raws: seq<Raw>, k: Key) {
    StatusOf(e.roe, k.value, AddressesOf(accept, raws, k)) == Excluded
  }

  lemma CoveredByOne(e: Env, accept: set<TargetType>, raws: seq<Raw>, k: Key) returns (x: Raw)
    requires HasRaw(accept, raws, k) && ExcludedTogether(e, accept, raws, k)
    ensures x in raws && IsOf(accept, k, x) && ExcludedAlone(e, x)
  {
    var roe, host := e.roe, e.roe.hostOf(k.value);
    x :| x in raws && IsOf(accept, k, x);
    if !(roe.parseIp(host).None? && Named(host, roe.excluded)) {
      var a :| IsCandidate(roe, host, AddressesOf(accept, raws, k), a) && InAnyNet(a, roe.excluded.nets);
      if roe.parseIp(host) != Some(a) {
        var ip :| ip in AddressesOf(accept, raws, k) && roe.parseIp(ip) == Some(a);
        x :| x in raws && IsOf(accept, k, x) && ip in x.resolved;
      }
      assert IsCandidate(roe, host, Elems(x.resolved), a);
    }
  }

  /** All addresses of a key together are excluded exactly if one of its candidates is
      excluded by its own. */
  lemma ExcludedTogetherExactly(e: Env, accept: set<TargetType>, raws: seq<Raw>, k: Key)
    requires HasRaw(accept, raws, k)
    ensures ExcludedTogether(e, accept, raws, k) <==> exists x :: x in raws && IsOf(accept, k, x) && ExcludedAlone(e, x)
  {
    if ExcludedTogether(e, accept, raws, k) {
      var x := CoveredByOne(e, accept, raws, k);
    }
    if x :| x in raws && IsOf(accept, k, x) && ExcludedAlone(e, x) {
      var all := AddressesOf(accept, raws, k);
      assert Elems(x.resolved) <= all;
      MoreAddressesStayExcluded(e.roe, k.value, Elems(x.resolved), all);
    }
  }

  /** The verdict is one candidate's, not the key's: a key is eligible although its
      addresses together are excluded exactly if one of its candidates is usable and another
      one is excluded. */
  lemma EligibleThoughExcludedExactly(e: Env, accept: set<TargetType>, raws: seq<Raw>, r: Resolution, k: Key)
    requires IsResolution(e, accept, raws, r) && Cidr !in accept
    ensures k in r.eligible && ExcludedTogether(e, accept, raws, k) <==>
      && (exists x :: x in raws && IsOf(accept, k, x) && Usable(e, x))
      && (exists x :: x in raws && IsOf(accept, k, x) && ExcludedAlone(e, x))
  {
    KeysOf(e, accept, raws, true, k);
    if x :| x in raws && IsOf(accept, k, x) {
      ExcludedTogetherExactly(e, accept, raws, k);
    }
  }

  /** Two addresses, "1" and "2", the first of them excluded, and a host in scope. */
  function TwoAddresses(): Env {
    var parse := (s: string) =>
      if s == "1" then Some(Addr(false, 1)) else if s == "2" then Some(Addr(false, 2)) else None;
    var roe := Roe(ScopeList([], [], ["h"]), ScopeList([], [Net(false, 1, 32)], []), s => s, parse);
    Env(roe, false, "run", s => None, (a: Addr) => if a.value == 1 then "1" else "2", s => false, s => s, net => "")
  }

  function DnsRow(ip: string): Evidence {
    Evidence(ip, "run", "dns", DnsRecord, "h", true, false, "h", "A", ip, [])
  }

  function TwoRows(): Inputs {
    Inputs([], [], [DnsRow("1"), DnsRow("2")], [])
  }

  function HostRaw(ip: string): Raw {
    Raw("h", Hostname, CurrentDns, Some(ip), [ip])
  }

  lemma Letter(s: string)
    requires s == "h" || s == "1" || s == "2"
    ensures Strip(s) == s && CanonHost(s) == s
  {
    assert s[..0] == "" && s[1..] == "";
  }

  lemma DnsRowRaws(ip: string)
    requires ip == "1" || ip == "2"
    ensures FromEvidence(TwoAddresses(), DnsRow(ip)) == [HostRaw(ip), Raw(ip, Ip, CurrentDns, Some(ip), [])]
  {
    Letter("h");
    Letter(ip);
    assert DnsRow(ip).module_ != "host_discovery";
    assert CanonIp(TwoAddresses(), ip) == Some(ip);
  }

  lemma TwoRaws(e: Env, a: Evidence, b: Evidence)
    requires Selected(e, a) && Selected(e, b)
    ensures RawsOf(e, Inputs([], [], [a, b], [])) == FromEvidence(e, a) + FromEvidence(e, b)
  {
    assert [a, b][..1] == [a] && [a][..0] == [];
    assert EvidenceRaws(e, [a]) == FromEvidence(e, a);
    assert EvidenceRaws(e, [a, b]) == FromEvidence(e, a) + FromEvidence(e, b);
  }

  lemma HeadsAreIn(p: seq<Raw>, q: seq<Raw>)
    requires p != [] && q != []
    ensures p[0] in p + q && q[0] in p + q
  {
  }

  lemma TwoRowsRaws()
    ensures HostRaw("1") in RawsOf(TwoAddresses(), TwoRows()) && HostRaw("2") in RawsOf(TwoAddresses(), TwoRows())
  {
    var e := TwoAddresses();
    TwoRaws(e, DnsRow("1"), DnsRow("2"));
    DnsRowRaws("1");
    DnsRowRaws("2");
    HeadsAreIn(FromEvidence(e, DnsRow("1")), FromEvidence(e, DnsRow("2")));
  }

  lemma FirstIsExcluded()
    ensures ExcludedAlone(TwoAddresses(), HostRaw("1"))
  {
    var roe := TwoAddresses().roe;
    assert "1" in Elems(["1"]) && roe.parseIp("1") == Some(Addr(false, 1));
    assert IsCandidate(roe, "h", Elems(["1"]), Addr(false, 1));
    assert InNet(Addr(false, 1), roe.excluded.nets[0]);
  }

  lemma SecondIsUsable()
    ensures Usable(TwoAddresses(), HostRaw("2"))
  {
    var e := TwoAddresses();
    Letter("h");
    assert SafeForm(e, HostRaw("2"));
    forall a | IsCandidate(e.roe, "h", Elems(["2"]), a) ensures !InAnyNet(a, e.roe.excluded.nets) {
      assert a == Addr(false, 2);
    }
    assert "h" in e.roe.inScope.hosts;
  }

  lemma OtherIsExcluded(e: Env, accept: set<TargetType>, raws: seq<Raw>, r: Resolution, k: Key, a: Raw, b: Raw)
    requires IsResolution(e, accept, raws, r) && Cidr !in accept
    requires a in raws && b in raws && IsOf(accept, k, a) && IsOf(accept, k, b)
    requires ExcludedAlone(e, a) && Usable(e, b)
    ensures k in r.eligible && ExcludedTogether(e, accept, raws, k)
  {
    EligibleThoughExcludedExactly(e, accept, raws, r, k);
  }

  /** That happens: of a host's two DNS rows one gives an excluded address, and the host is
      eligible by the other. */
  lemma ExcludedHostIsEligible(r: Resolution)
    requires IsResolution(TwoAddresses(), {Hostname}, RawsOf(TwoAddresses(), TwoRows()), r)
    ensures Key(Hostname, "h") in r.eligible
    ensures ExcludedTogether(TwoAddresses(), {Hostname}, RawsOf(TwoAddresses(), TwoRows()), Key(Hostname, "h"))
  {
    TwoRowsRaws();
    FirstIsExcluded();
    SecondIsUsable();
    OtherIsExcluded(TwoAddresses(), {Hostname}, RawsOf(TwoAddresses(), TwoRows()), r, Key(Hostname, "h"),
      HostRaw("1"), HostRaw("2"));
  }

  /** Every eligible record is the verdict on a usable candidate of its key, of the best
      rank among those. */
  lemma EligibleIsBest(e: Env, accept: set<TargetType>, raws: seq<Raw>, r: Resolution, k: Key)
    requires IsResolution(e, accept, raws, r) && k in r.eligible
    ensures var c := r.eligible[k];
      && c.raw in raws && Accepted(accept, c.raw) && KeyOf(c) == k && Usable(e, c.raw) && c == Judged(e, c.raw)
      && forall x :: x in raws && IsOf(accept, k, x) && Usable(e, x) ==> Rank(c) <= Rank(Judged(e, x))
  {
    var cands := Candidates(e, accept, raws);
    var c := r.eligible[k];
    PickIsBest(cands, true, k, c);
    CandidatesAccepted(e, accept, raws);
    var y :| y in raws && Accepted(accept, y) && c == Judged(e, y);
    UsableIsEligible(e, y);
    forall x | x in raws && IsOf(accept, k, x) && Usable(e, x) ensures Rank(c) <= Rank(Judged(e, x)) {
      UsableIsEligible(e, x);
      assert Judged(e, x) in cands && Fits(Judged(e, x), true, k);
    }
  }

  lemma SameEligible(e: Env, accept: set<TargetType>, p: seq<Raw>, q: seq<Raw>, r: Resolution, s: Resolution)
    requires forall x :: x in p <==> x in q
    requires IsResolution(e, accept, p, r) && IsResolution(e, accept, q, s)
    ensures forall k :: k in r.eligible <==> k in s.eligible
    ensures forall k :: HasKey(Candidates(e, accept, p), false, k) <==> HasKey(Candidates(e, accept, q), false, k)
  {
    forall k, eligible ensures HasKey(Candidates(e, accept, p), eligible, k) <==>
      HasKey(Candidates(e, accept, q), eligible, k) {
      KeysOf(e, accept, p, eligible, k);
      KeysOf(e, accept, q, eligible, k);
    }
  }

  /** The order of the candidates, and their repetition, change neither the keys on either
      side nor the rank that a key is eligible with. */
  lemma OrderDoesNotMatter(e: Env, accept: set<TargetType>, p: seq<Raw>, q: seq<Raw>, r: Resolution, s: Resolution)
    requires forall x :: x in p <==> x in q
    requires IsResolution(e, accept, p, r) && IsResolution(e, accept, q, s)
    ensures r.eligible.Keys == s.eligible.Keys && r.excluded.Keys == s.excluded.Keys
    ensures forall k :: k in r.eligible ==> Rank(r.eligible[k]) == Rank(s.eligible[k])
  {
    SameEligible(e, accept, p, q, r, s);
    SameUnaccounted(e, r.eligible, s.eligible, e.roe.inScope.nets);
    forall k | k in r.eligible ensures Rank(r.eligible[k]) == Rank(s.eligible[k]) {
      SameRank(e, accept, p, q, r, s, k);
    }
  }

  lemma SameRank(e: Env, accept: set<TargetType>, p: seq<Raw>, q: seq<Raw>, r: Resolution, s: Resolution, k: Key)
    requires forall x :: x in p <==> x in q
    requires IsResolution(e, accept, p, r) && IsResolution(e, accept, q, s) && k in r.eligible
    ensures k in s.eligible && Rank(r.eligible[k]) == Rank(s.eligible[k])
  {
    MoreCandidatesKeepEligible(e, accept, p, q, r, s, k);
    MoreCandidatesKeepEligible(e, accept, q, p, s, r, k);
  }

  lemma SameUnaccounted(e: Env, a: Store, b: Store, nets: seq<Net>)
    requires forall k :: k in a <==> k in b
    ensures forall k :: Unaccounted(e, a, nets, k) <==> Unaccounted(e, b, nets, k)
  {
    forall net ensures Accounted(e, a, net) <==> Accounted(e, b, net) {
    }
  }

  /** A network of the rules of engagement is reported exactly if addresses are asked for
      and no usable candidate lies in it. */
  lemma UnaccountedExactly(e: Env, accept: set<TargetType>, raws: seq<Raw>, r: Resolution, net: Net)
    requires IsResolution(e, accept, raws, r) && Cidr !in accept && net in e.roe.inScope.nets
    requires forall other :: other in e.roe.inScope.nets && e.cidrText(other) == e.cidrText(net) ==> other == net
    ensures Key(Cidr, e.cidrText(net)) in r.excluded <==>
      Ip in accept && forall x, a ::
        x in raws && x.kind == Ip && x.value != "" && Usable(e, x) && e.roe.parseIp(x.value) == Some(a) ==>
        !InNet(a, net)
  {
    NoCidrCandidates(e, accept, raws);
    if Ip in accept {
      AccountedExactly(e, accept, raws, r, net);
    }
  }

  lemma AccountedExactly(e: Env, accept: set<TargetType>, raws: seq<Raw>, r: Resolution, net: Net)
    requires IsResolution(e, accept, raws, r) && Ip in accept
    ensures Accounted(e, r.eligible, net) <==>
      exists x, a :: x in raws && x.kind == Ip && x.value != "" && Usable(e, x) &&
        e.roe.parseIp(x.value) == Some(a) && InNet(a, net)
  {
    if k, a :| k in r.eligible && k.kind == Ip && e.roe.parseIp(k.value) == Some(a) && InNet(a, net) {
      KeysOf(e, accept, raws, true, k);
    }
    if x, a :|
      x in raws && x.kind == Ip && x.value != "" && Usable(e, x) && e.roe.parseIp(x.value) == Some(a) && InNet(a, net)
    {
      KeysOf(e, accept, raws, true, Key(Ip, x.value));
    }
  }

  /** More candidates never take an eligible key away, and never worsen its rank. */
  lemma MoreCandidatesKeepEligible(e: Env, accept: set<TargetType>, p: seq<Raw>, q: seq<Raw>, r: Resolution,
      s: Resolution, k: Key)
    requires IsResolution(e, accept, p, r) && IsResolution(e, accept, q, s) && forall x :: x in p ==> x in q
    requires k in r.eligible
    ensures k in s.eligible && Rank(s.eligible[k]) <= Rank(r.eligible[k])
  {
    KeysOf(e, accept, p, true, k);
    KeysOf(e, accept, q, true, k);
    EligibleIsBest(e, accept, p, r, k);
    EligibleIsBest(e, accept, q, s, k);
  }

  /** What parses is an address of its version, and printing an address and parsing it gives
      it back. */
  ghost predicate PrintsBack(e: Env) {
    && (forall s :: e.roe.parseIp(s).Some? ==> IsAddress(e.roe.parseIp(s).value))
    && (forall a :: IsAddress(a) ==> e.roe.parseIp(e.showIp(a)) == Some(a))
  }

  predicate IsAddress(a: Addr) {
    a.value < Pow2(Bits(a.v6))
  }

  ghost predicate AddressesParse(e: Env, raws: seq<Raw>) {
    forall r :: r in raws && r.kind == Ip ==> e.roe.parseIp(r.value).Some?
  }

  /** Every address candidate parses, so building the networks of the eligible addresses
      cannot fail. */
  lemma EveryAddressParses(e: Env, q: Inputs)
    requires PrintsBack(e)
    ensures AddressesParse(e, RawsOf(e, q))
  {
    HostsAreNames(q.hosts);
    DomainsAreNames(q.domains);
    EvidenceParses(e, q.evidence);
    AssetsParse(e, q.assets);
  }

  lemma {:induction false} HostsAreNames(hosts: seq<string>)
    ensures forall r :: r in HostRaws(hosts) ==> r.kind == Hostname
  {
    if hosts != [] { HostsAreNames(hosts[..|hosts| - 1]); }
  }

  lemma {:induction false} DomainsAreNames(domains: seq<string>)
    ensures forall r :: r in DomainRaws(domains) ==> r.kind == Hostname
  {
    if domains != [] { DomainsAreNames(domains[..|domains| - 1]); }
  }

  lemma {:induction false} EvidenceParses(e: Env, rows: seq<Evidence>)
    requires PrintsBack(e)
    ensures AddressesParse(e, EvidenceRaws(e, rows))
  {
    if rows != [] {
      EvidenceParses(e, rows[..|rows| - 1]);
      RowParses(e, rows[|rows| - 1]);
    }
  }

  lemma CanonIpParses(e: Env, value: string)
    requires PrintsBack(e) && CanonIp(e, value).Some?
    ensures e.roe.parseIp(CanonIp(e, value).value).Some?
  {
    assert IsAddress(e.roe.parseIp(Strip(value)).value);
  }

  lemma RowParses(e: Env, ev: Evidence)
    requires PrintsBack(e)
    ensures AddressesParse(e, FromEvidence(e, ev))
  {
    if ev.subject == DnsRecord {
      if CanonIp(e, ev.answer).Some? { CanonIpParses(e, ev.answer); }
    } else if ev.subject == IpSubject {
      if CanonIp(e, ev.value).Some? { CanonIpParses(e, ev.value); }
    }
  }

  lemma {:induction false} AssetsParse(e: Env, assets: seq<Asset>)
    requires PrintsBack(e)
    ensures AddressesParse(e, AssetRaws(e, assets))
  {
    if assets != [] {
      AssetsParse(e, assets[..|assets| - 1]);
    }
  }

  // ----------------------------------------------------------------- accounting

  /** The keys among these whose record carries this tag. */
  ghost function Tagged<T>(s: Store, keys: set<Key>, tag: Candidate -> T, t: T): set<Key> {
    set k | k in keys && k in s && tag(s[k]) == t
  }

  ghost function Count<T>(s: Store, tag: Candidate -> T, t: T): nat {
    |Tagged(s, s.Keys, tag, t)|
  }

  lemma TaggedStep<T>(s: Store, keys: set<Key>, tag: Candidate -> T, key: Key, t: T)
    requires key in s && key !in keys
    ensures |Tagged(s, keys + {key}, tag, t)| == |Tagged(s, keys, tag, t)| + if tag(s[key]) == t then 1 else 0
  {
    var a, b := Tagged(s, keys, tag, t), Tagged(s, keys + {key}, tag, t);
    assert b == if tag(s[key]) == t then a + {key} else a;
  }

  /** A `Counter` over the records of a store. */
  method CountBy<T(==)>(s: Store, tag: Candidate -> T) returns (m: map<T, nat>)
    ensures forall t :: Of(m, t) == Count(s, tag, t)
  {
    m := map[];
    var keys := s.Keys;
    ghost var done: set<Key> := {};
    while keys != {}
      invariant done !! keys && done + keys == s.Keys
      invariant forall t :: Of(m, t) == |Tagged(s, done, tag, t)|
      decreases |keys|
    {
      var key :| key in keys;
      keys := keys - {key};
      var t := tag(s[key]);
      ghost var before := m;
      forall u ensures |Tagged(s, done + {key}, tag, u)| == Of(before, u) + if u == t then 1 else 0 {
        TaggedStep(s, done, tag, key, u);
      }
      done := done + {key};
      m := m[t := Of(m, t) + 1];
    }
    assert done == s.Keys;
  }

  function SourceTag(c: Candidate): Source {
    c.raw.source
  }

  function ReasonTag(c: Candidate): Option<Reason> {
    c.exclusion
  }

  datatype Accounting = Accounting(eligible: nat, bySource: map<Source, nat>, byReason: map<Option<Reason>, nat>)

  /** `TargetResolution.accounting`, its counts; "scanned" is counted under no reason. */
  method Account(r: Resolution) returns (a: Accounting)
    ensures a.eligible == |r.eligible|
    ensures forall s :: Of(a.bySource, s) == Count(r.eligible, SourceTag, s)
    ensures forall x :: x != None ==> Of(a.byReason, x) == Count(r.excluded, ReasonTag, x)
    ensures Of(a.byReason, None) == |r.eligible|
  {
    var bySource := CountBy(r.eligible, SourceTag);
    var byReason := CountBy(r.excluded, ReasonTag);
    a := Accounting(|r.eligible|, bySource, byReason[None := |r.eligible|]);
  }

  function Of<T(==)>(m: map<T, nat>, t: T): nat {
    if t in m then m[t] else 0
  }

  ghost function Sum<T>(s: Store, tag: Candidate -> T, tags: seq<T>): nat {
    if tags == [] then 0 else Sum(s, tag, tags[..|tags| - 1]) + Count(s, tag, tags[|tags| - 1])
  }

  ghost function WithTagIn<T>(s: Store, tag: Candidate -> T, tags: seq<T>): set<Key> {
    set k | k in s && tag(s[k]) in tags
  }

  /** Counting by distinct tags counts every record with one of them once. */
  lemma {:induction false} CountsAddUp<T>(s: Store, tag: Candidate -> T, tags: seq<T>)
    requires NoDup(tags)
    ensures Sum(s, tag, tags) == |WithTagIn(s, tag, tags)|
    decreases |tags|
  {
    if tags != [] {
      var most, last := tags[..|tags| - 1], tags[|tags| - 1];
      CountsAddUp(s, tag, most);
      assert tags == most + [last];
      DisjointSizes(WithTagIn(s, tag, most), Tagged(s, s.Keys, tag, last));
      assert WithTagIn(s, tag, tags) == WithTagIn(s, tag, most) + Tagged(s, s.Keys, tag, last);
    }
  }

  lemma DisjointSizes(a: set<Key>, b: set<Key>)
    requires a !! b
    ensures |a + b| == |a| + |b|
  {
  }

  const REASONS: seq<Option<Reason>> :=
    [Some(ExplicitlyExcluded), Some(OutOfScope), Some(UnsafeForm), Some(UnaccountedCidr)]
  const SOURCES: seq<Source> := [RoeHost, RoeDomain, RoeCidr, CurrentDns, CurrentDiscovery, CurrentWeb, PriorAsset]

  lemma EveryReason(x: Option<Reason>)
    requires x.Some?
    ensures x in REASONS
  {
    match x.value
    case ExplicitlyExcluded => assert REASONS[0] == x;
    case OutOfScope => assert REASONS[1] == x;
    case UnsafeForm => assert REASONS[2] == x;
    case UnaccountedCidr => assert REASONS[3] == x;
  }

  function Position(s: Source): nat {
    match s
    case RoeHost => 0 case RoeDomain => 1 case RoeCidr => 2 case CurrentDns => 3
    case CurrentDiscovery => 4 case CurrentWeb => 5 case PriorAsset => 6
  }

  lemma EverySource(s: Source)
    ensures Position(s) < |SOURCES| && SOURCES[Position(s)] == s
  {
  }

  lemma SourcesDistinct()
    ensures NoDup(SOURCES)
  {
    forall i | 0 <= i < |SOURCES| ensures Position(SOURCES[i]) == i {
    }
  }

  /** The reasons of the excluded keys add up to their number. */
  lemma ReasonsAddUp(e: Env, accept: set<TargetType>, raws: seq<Raw>, r: Resolution)
    requires IsResolution(e, accept, raws, r)
    ensures Sum(r.excluded, ReasonTag, REASONS) == |r.excluded|
  {
    forall k | k in r.excluded ensures ReasonTag(r.excluded[k]) in REASONS {
      if k.kind != Cidr { PickIsBest(Candidates(e, accept, raws), false, k, r.excluded[k]); }
      EveryReason(r.excluded[k].exclusion);
    }
    AllTagged(r.excluded, ReasonTag, REASONS);
  }

  /** The sources of the eligible keys add up to their number. */
  lemma SourcesAddUp(s: Store)
    ensures Sum(s, SourceTag, SOURCES) == |s|
  {
    SourcesDistinct();
    forall k | k in s ensures SourceTag(s[k]) in SOURCES {
      EverySource(s[k].raw.source);
    }
    AllTagged(s, SourceTag, SOURCES);
  }

  lemma AllTagged<T>(s: Store, tag: Candidate -> T, tags: seq<T>)
    requires NoDup(tags) && forall k :: k in s ==> tag(s[k]) in tags
    ensures Sum(s, tag, tags) == |s|
  {
    CountsAddUp(s, tag, tags);
    assert WithTagIn(s, tag, tags) == s.Keys;
  }

  /** The accounting conserves: all its dispositions together are the accepted keys and the
      unaccounted networks, each once. */
  lemma AccountingConserves(e: Env, accept: set<TargetType>, raws: seq<Raw>, r: Resolution)
    requires IsResolution(e, accept, raws, r) && Cidr !in accept
    ensures |r.eligible| + |r.excluded| == |r.eligible.Keys + r.excluded.Keys|
    ensures forall k: Key :: k in r.eligible.Keys + r.excluded.Keys <==>
      HasRaw(accept, raws, k) || (Ip in accept && Unaccounted(e, r.eligible, e.roe.inScope.nets, k))
  {
    ResolutionPartitions(e, accept, raws, r);
    DisjointSizes(r.eligible.Keys, r.excluded.Keys);
    NoCidrCandidates(e, accept, raws);
    forall k: Key ensures k in r.eligible.Keys + r.excluded.Keys <==>
      HasRaw(accept, raws, k) || (Ip in accept && Unaccounted(e, r.eligible, e.roe.inScope.nets, k))
    {
      if k.kind == Cidr && HasRaw(accept, raws, k) {
        assert false;
      }
    }
  }
}