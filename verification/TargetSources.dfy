/** Where eligible targets come from (recon/modules/_targets.py:182-398): the laws speak of the
    rules of engagement, the rows of evidence and the prior assets. */
module TargetSources {
  import opened Prelude
  import opened Text
  import opened Scope
  import opened Targets

  // --------------------------------------------------------------- who names what

  /** A row that this run produced, about something present, and no error. */
  predicate OfThisRun(e: Env, ev: Evidence) {
    ev.run == e.run && !ev.isError && ev.present
  }

  /** A host name as it is compared: without white space around it, final dots and case. */
  function HostText(value: string): string {
    CanonHost(Strip(value))
  }

  /** The host a domain pattern stands for: of a wildcard, the name below which it covers. */
  function PatternHost(pattern: string): string {
    if IsWildcard(Strip(pattern)) then CanonHost(Strip(pattern))[2..] else CanonHost(Strip(pattern))
  }

  lemma LowerPrefix(s: string, n: nat)
    requires n <= |s|
    ensures Lower(s)[..n] == Lower(s[..n])
  {
  }

  lemma {:induction false} LowerKeepsDots(s: string)
    ensures RStripDots(Lower(s)) == Lower(RStripDots(s))
    decreases |s|
  {
    if s != "" && s[|s| - 1] == '.' {
      LowerPrefix(s, |s| - 1);
      LowerKeepsDots(s[..|s| - 1]);
    }
  }

  lemma PatternHostIs(pattern: string)
    ensures BaseDomain(pattern) == PatternHost(pattern)
  {
    LowerKeepsDots(Strip(pattern));
  }

  /** The name of a DNS record. */
  function RecordName(ev: Evidence): string {
    HostText(if ev.name != "" then ev.name else ev.value)
  }

  /** The usual spelling of an address, if the text is one. */
  function Spelled(e: Env, text: string): Option<string> {
    match e.roe.parseIp(Strip(text))
    case None => None
    case Some(a) => Some(e.showIp(a))
  }

  /** The address a DNS record gives, if it is an address record with a proper address. */
  function RecordAddress(e: Env, ev: Evidence): Option<string> {
    if ev.rtype == "A" || ev.rtype == "AAAA" then Spelled(e, ev.answer) else None
  }

  function RecordAddresses(e: Env, ev: Evidence): set<string> {
    if RecordAddress(e, ev).Some? then {RecordAddress(e, ev).value} else {}
  }

  /** The row names this host, and these are the addresses it knows for it. */
  ghost predicate RowNamesHost(e: Env, ev: Evidence, host: string, ips: set<string>) {
    host != "" && OfThisRun(e, ev) &&
    match ev.subject
    case DnsRecord => host == RecordName(ev) && ips == RecordAddresses(e, ev)
    case Domain | Subdomain | LiveHost => host == HostText(ev.value) && ips == Elems(ev.resolved)
    case _ => false
  }

  /** A source names this host: the rules of engagement, a prior asset, or a row of the run. */
  ghost predicate NamesHost(e: Env, q: Inputs, host: string, ips: set<string>) {
    || (ips == {} && exists h :: h in q.hosts && HostText(h) == host)
    || (ips == {} && exists d :: d in q.domains && PatternHost(d) == host)
    || (ips == {} && exists v :: AssetName(v) in q.assets && HostText(v) == host)
    || exists ev :: ev in q.evidence && RowNamesHost(e, ev, host, ips)
  }

  predicate RowNamesIp(e: Env, ev: Evidence, ip: string) {
    OfThisRun(e, ev) &&
    match ev.subject
    case DnsRecord => RecordAddress(e, ev) == Some(ip)
    case IpSubject => Spelled(e, ev.value) == Some(ip)
    case _ => false
  }

  ghost predicate NamesIp(e: Env, q: Inputs, ip: string) {
    || (exists v :: AssetIp(v) in q.assets && Spelled(e, v) == Some(ip))
    || exists ev :: ev in q.evidence && RowNamesIp(e, ev, ip)
  }

  predicate RowNamesUrl(e: Env, ev: Evidence, url: string) {
    OfThisRun(e, ev) && IsWeb(ev.subject) && e.safeUrl(ev.value) && url == e.urlRoot(ev.value)
  }

  ghost predicate NamesUrl(e: Env, q: Inputs, url: string) {
    || (exists v :: AssetUrl(v) in q.assets && e.safeUrl(v) && url == e.urlRoot(v))
    || exists ev :: ev in q.evidence && RowNamesUrl(e, ev, url)
  }

  /** Something names the target, with these addresses for it. */
  ghost predicate Names(e: Env, q: Inputs, k: Key, ips: set<string>) {
    match k.kind
    case Hostname => NamesHost(e, q, k.value, ips)
    case Ip => ips == {} && NamesIp(e, q, k.value)
    case Url => ips == {} && NamesUrl(e, q, k.value)
    case Cidr => false
  }

  /** The target may be used, going by these addresses: its form is safe, the exclusions do not
      name it, and the in-scope lists do, or the run has an override. */
  ghost predicate Clear(e: Env, k: Key, ips: set<string>) {
    var host := e.roe.hostOf(k.value);
    && (if k.kind == Url then e.safeUrl(k.value) else SafeTarget(e, k.value))
    && !Lists(e.roe, e.roe.excluded, host, ips)
    && (Lists(e.roe, e.roe.inScope, host, ips) || e.allowOos)
  }

  lemma UsableIsClear(e: Env, x: Raw)
    requires ListOk(e.roe.inScope) && ListOk(e.roe.excluded)
    ensures Usable(e, x) <==> Clear(e, Key(x.kind, x.value), Elems(x.resolved))
  {
    DecisionExactly(e.roe, x.value, Elems(x.resolved));
  }

  // --------------------------------------------------------------- the candidates

  lemma {:induction false} HostRawsAre(hosts: seq<string>)
    ensures forall x :: x in HostRaws(hosts) <==>
      exists h :: h in hosts && x == Raw(CanonName(h), Hostname, RoeHost, None, [])
  {
    if hosts != [] {
      HostRawsAre(hosts[..|hosts| - 1]);
      assert hosts == hosts[..|hosts| - 1] + [hosts[|hosts| - 1]];
    }
  }

  lemma {:induction false} DomainRawsAre(domains: seq<string>)
    ensures forall x :: x in DomainRaws(domains) <==>
      exists d :: d in domains && x == Raw(BaseDomain(d), Hostname, RoeDomain, None, [])
  {
    if domains != [] {
      DomainRawsAre(domains[..|domains| - 1]);
      assert domains == domains[..|domains| - 1] + [domains[|domains| - 1]];
    }
  }

  lemma {:induction false} EvidenceRawsAre(e: Env, rows: seq<Evidence>)
    ensures forall x :: x in EvidenceRaws(e, rows) <==>
      exists ev :: ev in rows && Selected(e, ev) && x in FromEvidence(e, ev)
  {
    if rows != [] {
      EvidenceRawsAre(e, rows[..|rows| - 1]);
      assert rows == rows[..|rows| - 1] + [rows[|rows| - 1]];
    }
  }

  lemma {:induction false} AssetRawsAre(e: Env, assets: seq<Asset>)
    ensures forall x :: x in AssetRaws(e, assets) <==> exists a :: a in assets && x in FromAsset(e, a)
  {
    if assets != [] {
      AssetRawsAre(e, assets[..|assets| - 1]);
      assert assets == assets[..|assets| - 1] + [assets[|assets| - 1]];
    }
  }

  /** One of these candidates is for the target, with these addresses. */
  ghost predicate Has(raws: seq<Raw>, k: Key, ips: set<string>) {
    exists x :: x in raws && Key(x.kind, x.value) == k && Elems(x.resolved) == ips
  }

  lemma RowHosts(e: Env, ev: Evidence, host: string, ips: set<string>)
    requires Selected(e, ev) && host != ""
    ensures Has(FromEvidence(e, ev), Key(Hostname, host), ips) <==> RowNamesHost(e, ev, host, ips)
  {
    assert forall x: string :: Elems([x]) == {x};
    assert Elems<string>([]) == {};
    var raws := FromEvidence(e, ev);
    if RowNamesHost(e, ev, host, ips) {
      assert raws[0] in raws;
    }
  }

  lemma RowIps(e: Env, ev: Evidence, ip: string, ips: set<string>)
    requires Selected(e, ev)
    ensures Has(FromEvidence(e, ev), Key(Ip, ip), ips) <==> ips == {} && RowNamesIp(e, ev, ip)
  {
    assert Elems<string>([]) == {};
    var raws := FromEvidence(e, ev);
    if RowNamesIp(e, ev, ip) {
      assert raws[|raws| - 1] in raws;
    }
  }

  lemma RowUrls(e: Env, ev: Evidence, url: string, ips: set<string>)
    requires Selected(e, ev)
    ensures Has(FromEvidence(e, ev), Key(Url, url), ips) <==> ips == {} && RowNamesUrl(e, ev, url)
  {
    assert Elems<string>([]) == {};
    var raws := FromEvidence(e, ev);
    if RowNamesUrl(e, ev, url) {
      assert raws[0] in raws;
    }
  }

  lemma HasEither(a: seq<Raw>, b: seq<Raw>, k: Key, ips: set<string>)
    ensures Has(a + b, k, ips) <==> Has(a, k, ips) || Has(b, k, ips)
  {
    assert forall x :: x in a + b <==> x in a || x in b;
  }

  /** The candidates of a list of names, in some canonical form. */
  lemma FromListed(texts: seq<string>, canon: string -> string, source: Source, raws: seq<Raw>, k: Key,
      ips: set<string>)
    requires forall x :: x in raws <==> exists d :: d in texts && x == Raw(canon(d), Hostname, source, None, [])
    ensures Has(raws, k, ips) <==>
      k.kind == Hostname && ips == {} && exists d :: d in texts && canon(d) == k.value
  {
    assert Elems<string>([]) == {};
    if d :| d in texts && canon(d) == k.value && k.kind == Hostname && ips == {} {
      assert Raw(canon(d), Hostname, source, None, []) in raws;
    }
  }

  lemma FromHosts(hosts: seq<string>, k: Key, ips: set<string>)
    ensures Has(HostRaws(hosts), k, ips) <==>
      k.kind == Hostname && ips == {} && exists h :: h in hosts && CanonName(h) == k.value
  {
    HostRawsAre(hosts);
    FromListed(hosts, h => CanonName(h), RoeHost, HostRaws(hosts), k, ips);
  }

  lemma FromDomains(domains: seq<string>, k: Key, ips: set<string>)
    ensures Has(DomainRaws(domains), k, ips) <==>
      k.kind == Hostname && ips == {} && exists d :: d in domains && BaseDomain(d) == k.value
  {
    DomainRawsAre(domains);
    FromListed(domains, d => BaseDomain(d), RoeDomain, DomainRaws(domains), k, ips);
  }

  lemma SamePatterns(domains: seq<string>, host: string)
    ensures (exists d :: d in domains && BaseDomain(d) == host) <==> exists d :: d in domains && PatternHost(d) == host
  {
    if d :| d in domains && BaseDomain(d) == host {
      PatternHostIs(d);
    }
    if d :| d in domains && PatternHost(d) == host {
      PatternHostIs(d);
    }
  }

  lemma FromRules(q: Inputs, k: Key, ips: set<string>)
    ensures Has(HostRaws(q.hosts) + DomainRaws(q.domains), k, ips) <==>
      && k.kind == Hostname && ips == {}
      && ((exists h :: h in q.hosts && HostText(h) == k.value) ||
          (exists d :: d in q.domains && PatternHost(d) == k.value))
  {
    FromHosts(q.hosts, k, ips);
    FromDomains(q.domains, k, ips);
    SamePatterns(q.domains, k.value);
    HasEither(HostRaws(q.hosts), DomainRaws(q.domains), k, ips);
  }

  /** The row names the target. */
  ghost predicate RowNames(e: Env, ev: Evidence, k: Key, ips: set<string>) {
    match k.kind
    case Hostname => RowNamesHost(e, ev, k.value, ips)
    case Ip => ips == {} && RowNamesIp(e, ev, k.value)
    case Url => ips == {} && RowNamesUrl(e, ev, k.value)
    case Cidr => false
  }

  lemma RowIsSelected(e: Env, ev: Evidence, k: Key, ips: set<string>)
    requires RowNames(e, ev, k, ips)
    ensures Selected(e, ev)
  {
  }

  lemma NoNetworks(e: Env, ev: Evidence)
    ensures forall x :: x in FromEvidence(e, ev) ==> x.kind != Cidr
  {
  }

  lemma FromRow(e: Env, ev: Evidence, k: Key, ips: set<string>)
    requires Selected(e, ev) && k.value != ""
    ensures Has(FromEvidence(e, ev), k, ips) <==> RowNames(e, ev, k, ips)
  {
    match k.kind
    case Hostname => RowHosts(e, ev, k.value, ips);
    case Ip => RowIps(e, ev, k.value, ips);
    case Url => RowUrls(e, ev, k.value, ips);
    case Cidr => NoNetworks(e, ev);
  }

  lemma FromRows(e: Env, rows: seq<Evidence>, k: Key, ips: set<string>)
    requires k.value != ""
    ensures Has(EvidenceRaws(e, rows), k, ips) <==> exists ev :: ev in rows && RowNames(e, ev, k, ips)
  {
    EvidenceRawsAre(e, rows);
    if x :| x in EvidenceRaws(e, rows) && Key(x.kind, x.value) == k && Elems(x.resolved) == ips {
      var ev :| ev in rows && Selected(e, ev) && x in FromEvidence(e, ev);
      FromRow(e, ev, k, ips);
    }
    if ev :| ev in rows && RowNames(e, ev, k, ips) {
      RowIsSelected(e, ev, k, ips);
      FromRow(e, ev, k, ips);
      var x :| x in FromEvidence(e, ev) && Key(x.kind, x.value) == k && Elems(x.resolved) == ips;
      assert x in EvidenceRaws(e, rows);
    }
  }

  /** The prior asset names the target. */
  predicate AssetNames(e: Env, a: Asset, k: Key) {
    match a
    case AssetName(v) => k.kind == Hostname && HostText(v) == k.value
    case AssetIp(v) => k.kind == Ip && Spelled(e, v) == Some(k.value)
    case AssetUrl(v) => k.kind == Url && e.safeUrl(v) && k.value == e.urlRoot(v)
    case AssetOther(_) => false
  }

  lemma FromOneAsset(e: Env, a: Asset, k: Key, ips: set<string>)
    ensures Has(FromAsset(e, a), k, ips) <==> ips == {} && AssetNames(e, a, k)
  {
    assert Elems<string>([]) == {};
    var raws := FromAsset(e, a);
    if AssetNames(e, a, k) {
      assert raws[0] in raws;
    }
  }

  lemma FromAssets(e: Env, assets: seq<Asset>, k: Key, ips: set<string>)
    ensures Has(AssetRaws(e, assets), k, ips) <==> ips == {} && exists a :: a in assets && AssetNames(e, a, k)
  {
    AssetRawsAre(e, assets);
    if x :| x in AssetRaws(e, assets) && Key(x.kind, x.value) == k && Elems(x.resolved) == ips {
      var a :| a in assets && x in FromAsset(e, a);
      FromOneAsset(e, a, k, ips);
    }
    if a :| a in assets && AssetNames(e, a, k) && ips == {} {
      FromOneAsset(e, a, k, ips);
      var x :| x in FromAsset(e, a) && Key(x.kind, x.value) == k && Elems(x.resolved) == ips;
      assert x in AssetRaws(e, assets);
    }
  }

  /** All candidates are what something names. */
  lemma RawsExactly(e: Env, q: Inputs, k: Key, ips: set<string>)
    requires k.value != ""
    ensures Has(RawsOf(e, q), k, ips) <==> Names(e, q, k, ips)
  {
    var rules, rows, assets := HostRaws(q.hosts) +
      DomainRaws(q.domains), EvidenceRaws(e, q.evidence), AssetRaws(e, q.assets);
    HasEither(rules + rows, assets, k, ips);
    HasEither(rules, rows, k, ips);
    FromRules(q, k, ips);
    FromRows(e, q.evidence, k, ips);
    FromAssets(e, q.assets, k, ips);
    AssetsByKind(e, q, k);
  }

  lemma AssetsByKind(e: Env, q: Inputs, k: Key)
    ensures (exists a :: a in q.assets && AssetNames(e, a, k)) <==>
      match k.kind
      case Hostname => exists v :: AssetName(v) in q.assets && HostText(v) == k.value
      case Ip => exists v :: AssetIp(v) in q.assets && Spelled(e, v) == Some(k.value)
      case Url => exists v :: AssetUrl(v) in q.assets && e.safeUrl(v) && k.value == e.urlRoot(v)
      case Cidr => false
  {
  }

  // --------------------------------------------------------------------- results

  /** What a resolution of these inputs holds. A target is in it exactly if its type was asked
      for and something names it; and it is eligible exactly if something names it whose own
      addresses, not those that others know, leave it clear. */
  lemma EligibleExactly(e: Env, accept: set<TargetType>, q: Inputs, r: Resolution, k: Key)
    requires IsResolution(e, accept, RawsOf(e, q), r) && Cidr !in accept
    requires ListOk(e.roe.inScope) && ListOk(e.roe.excluded)
    ensures k in r.eligible <==>
      k.kind in accept && k.value != "" && exists ips :: Names(e, q, k, ips) && Clear(e, k, ips)
    ensures k.kind != Cidr ==>
      (k in r.eligible || k in r.excluded <==> k.kind in accept && k.value != "" && exists ips :: Names(e, q, k, ips))
  {
    var raws := RawsOf(e, q);
    ResolutionPartitions(e, accept, raws, r);
    if x :| x in raws && IsOf(accept, k, x) {
      assert Has(raws, k, Elems(x.resolved));
      RawsExactly(e, q, k, Elems(x.resolved));
    }
    if x :| x in raws && IsOf(accept, k, x) && Usable(e, x) {
      assert Has(raws, k, Elems(x.resolved));
      RawsExactly(e, q, k, Elems(x.resolved));
      UsableIsClear(e, x);
    }
    if ips :| k.kind in accept && k.value != "" && Names(e, q, k, ips) {
      RawsExactly(e, q, k, ips);
      var x :| x in raws && Key(x.kind, x.value) == k && Elems(x.resolved) == ips;
      assert IsOf(accept, k, x);
    }
    if ips :| k.kind in accept && k.value != "" && Names(e, q, k, ips) && Clear(e, k, ips) {
      RawsExactly(e, q, k, ips);
      var x :| x in raws && Key(x.kind, x.value) == k && Elems(x.resolved) == ips;
      UsableIsClear(e, x);
      assert IsOf(accept, k, x);
    }
  }

  /** A DNS record of this run for the host, clear with the record's own address. */
  ghost predicate RecordClears(e: Env, ev: Evidence, host: string) {
    && OfThisRun(e, ev) && ev.subject == DnsRecord && RecordName(ev) == host
    && Clear(e, Key(Hostname, host), RecordAddresses(e, ev))
  }

  /** A domain, subdomain or live host of this run, clear with the addresses of its row. */
  ghost predicate SightingClears(e: Env, ev: Evidence, host: string) {
    && OfThisRun(e, ev) && (ev.subject == Domain || ev.subject == Subdomain || ev.subject == LiveHost)
    && HostText(ev.value) == host && Clear(e, Key(Hostname, host), Elems(ev.resolved))
  }

  /** An entry of the rules of engagement or a prior asset for the host. */
  ghost predicate Listed(q: Inputs, host: string) {
    || (exists h :: h in q.hosts && HostText(h) == host)
    || (exists d :: d in q.domains && PatternHost(d) == host)
    || (exists v :: AssetName(v) in q.assets && HostText(v) == host)
  }

  lemma RowClearsExactly(e: Env, ev: Evidence, host: string)
    requires host != ""
    ensures (exists ips :: RowNamesHost(e, ev, host, ips) && Clear(e, Key(Hostname, host), ips)) <==>
      RecordClears(e, ev, host) || SightingClears(e, ev, host)
  {
    if RecordClears(e, ev, host) { assert RowNamesHost(e, ev, host, RecordAddresses(e, ev)); }
    if SightingClears(e, ev, host) { assert RowNamesHost(e, ev, host, Elems(ev.resolved)); }
  }

  /** A host becomes eligible by an entry of the rules or a prior asset, if it is clear by its
      name alone, or by a row of this run that names it, if it is clear with the addresses of
      that row; and in no other way. */
  lemma HostEligibleExactly(e: Env, accept: set<TargetType>, q: Inputs, r: Resolution, host: string)
    requires IsResolution(e, accept, RawsOf(e, q), r) && Cidr !in accept && Hostname in accept && host != ""
    requires ListOk(e.roe.inScope) && ListOk(e.roe.excluded)
    ensures Key(Hostname, host) in r.eligible <==>
      || (Listed(q, host) && Clear(e, Key(Hostname, host), {}))
      || (exists ev :: ev in q.evidence && RecordClears(e, ev, host))
      || (exists ev :: ev in q.evidence && SightingClears(e, ev, host))
  {
    var k := Key(Hostname, host);
    EligibleExactly(e, accept, q, r, k);
    if Listed(q, host) && Clear(e, k, {}) {
      assert Names(e, q, k, {});
    }
    if ev :| ev in q.evidence && (RecordClears(e, ev, host) || SightingClears(e, ev, host)) {
      RowClearsExactly(e, ev, host);
      var ips :| RowNamesHost(e, ev, host, ips) && Clear(e, k, ips);
      assert Names(e, q, k, ips);
    }
    if ips :| Names(e, q, k, ips) && Clear(e, k, ips) {
      NamedHow(e, q, host, ips);
    }
  }

  lemma NamedHow(e: Env, q: Inputs, host: string, ips: set<string>)
    requires host != "" && NamesHost(e, q, host, ips) && Clear(e, Key(Hostname, host), ips)
    ensures (ips == {} && Listed(q, host))
      || (exists ev :: ev in q.evidence && RecordClears(e, ev, host))
      || (exists ev :: ev in q.evidence && SightingClears(e, ev, host))
  {
    if ev :| ev in q.evidence && RowNamesHost(e, ev, host, ips) {
      RowClearsExactly(e, ev, host);
    }
  }

  function RawsOfRow(e: Env, ev: Evidence): seq<Raw> {
    if Selected(e, ev) then FromEvidence(e, ev) else []
  }

  lemma OneMoreRow(e: Env, rows: seq<Evidence>, ev: Evidence)
    ensures EvidenceRaws(e, rows + [ev]) == EvidenceRaws(e, rows) + RawsOfRow(e, ev)
  {
    assert (rows + [ev])[..|rows|] == rows;
  }

  lemma Regroup(x: seq<Raw>, y: seq<Raw>, z: seq<Raw>)
    ensures (x + y) + z == x + (y + z)
  {
  }

  lemma {:induction false} RowsAppend(e: Env, a: seq<Evidence>, b: seq<Evidence>)
    ensures EvidenceRaws(e, a + b) == EvidenceRaws(e, a) + EvidenceRaws(e, b)
    decreases |b|
  {
    if b == [] {
      assert a + b == a;
      assert EvidenceRaws(e, a) + [] == EvidenceRaws(e, a);
    } else {
      var most, last := b[..|b| - 1], b[|b| - 1];
      RowsAppend(e, a, most);
      OneMoreRow(e, a + most, last);
      OneMoreRow(e, most, last);
      assert b == most + [last] && a + b == (a + most) + [last];
      Regroup(EvidenceRaws(e, a), EvidenceRaws(e, most), RawsOfRow(e, last));
    }
  }

  /** A row of another run, of something absent, or of an error changes no resolution. */
  lemma OtherRowsAreSilent(e: Env, accept: set<TargetType>, q: Inputs, a: seq<Evidence>, ev: Evidence, b: seq<Evidence>,
      r: Resolution)
    requires !OfThisRun(e, ev)
    ensures IsResolution(e, accept, RawsOf(e, q.(evidence := a + [ev] + b)), r) <==>
      IsResolution(e, accept, RawsOf(e, q.(evidence := a + b)), r)
  {
    RowsAppend(e, a + [ev], b);
    RowsAppend(e, a, [ev]);
    RowsAppend(e, a, b);
    assert EvidenceRaws(e, [ev]) == [] by { assert [ev][..0] == []; }
    assert EvidenceRaws(e, a) + [] == EvidenceRaws(e, a);
  }

  predicate IsCurrent(s: Source) {
    s == CurrentDns || s == CurrentDiscovery || s == CurrentWeb
  }

  /** The record of an eligible target comes from this run if a row of this run makes it
      eligible, and from a prior asset only if nothing else does. */
  lemma RecordSource(e: Env, accept: set<TargetType>, raws: seq<Raw>, r: Resolution, k: Key)
    requires IsResolution(e, accept, raws, r) && k in r.eligible
    ensures IsCurrent(r.eligible[k].raw.source) <==>
      exists x :: x in raws && IsOf(accept, k, x) && Usable(e, x) && IsCurrent(x.source)
    ensures r.eligible[k].raw.source == PriorAsset <==>
      forall x :: x in raws && IsOf(accept, k, x) && Usable(e, x) ==> x.source == PriorAsset
  {
    EligibleIsBest(e, accept, raws, r, k);
    var c := r.eligible[k];
    forall x | x in raws && IsOf(accept, k, x) && Usable(e, x) ensures Targets.Rank(c) <= Targets.Rank(Judged(e, x)) {
    }
    forall x ensures Judged(e, x).raw == x {
      UsableIsEligible(e, x);
    }
  }

  /** Where a candidate of a row says it comes from. */
  predicate SaysSource(ev: Evidence, s: Source) {
    match s
    case CurrentDiscovery => ev.module_ == "host_discovery"
    case CurrentWeb => ev.module_ != "host_discovery" &&
      (ev.subject == UrlSubject || ev.subject == Endpoint || ev.subject == HttpEndpoint)
    case CurrentDns => ev.module_ != "host_discovery" &&
      !(ev.subject == UrlSubject || ev.subject == Endpoint || ev.subject == HttpEndpoint)
    case _ => false
  }

  /** The record is the row's: it names the row, its source and its addresses. */
  ghost predicate GivesRecord(e: Env, ev: Evidence, k: Key, c: Candidate) {
    && c.raw.evidence == Some(ev.id) && SaysSource(ev, c.raw.source)
    && RowNames(e, ev, k, Elems(c.raw.resolved))
  }

  /** Where an eligible record comes from: it names a row of this run that names the target, or
      it is by the rules of engagement or a prior asset. */
  lemma RecordHasProvenance(e: Env, accept: set<TargetType>, q: Inputs, r: Resolution, k: Key)
    requires IsResolution(e, accept, RawsOf(e, q), r) && k in r.eligible
    ensures var c := r.eligible[k];
      || (exists ev :: ev in q.evidence && GivesRecord(e, ev, k, c))
      || (c.raw.evidence.None? && c.raw.resolved == []
        && (c.raw.source == RoeHost || c.raw.source == RoeDomain || c.raw.source == PriorAsset))
  {
    var x := r.eligible[k].raw;
    EligibleIsBest(e, accept, RawsOf(e, q), r, k);
    HostRawsAre(q.hosts);
    DomainRawsAre(q.domains);
    EvidenceRawsAre(e, q.evidence);
    AssetRawsAre(e, q.assets);
    if x in EvidenceRaws(e, q.evidence) {
      var ev :| ev in q.evidence && Selected(e, ev) && x in FromEvidence(e, ev);
      RowIsNamed(e, ev, x);
    } else if x in AssetRaws(e, q.assets) {
      var a :| a in q.assets && x in FromAsset(e, a);
      AssetIsPrior(e, a, x);
    }
  }

  lemma RowIsNamed(e: Env, ev: Evidence, x: Raw)
    requires Selected(e, ev) && x in FromEvidence(e, ev) && x.value != ""
    ensures x.evidence == Some(ev.id) && SaysSource(ev, x.source)
    ensures RowNames(e, ev, Key(x.kind, x.value), Elems(x.resolved))
  {
    var k := Key(x.kind, x.value);
    assert Has(FromEvidence(e, ev), k, Elems(x.resolved));
    FromRow(e, ev, k, Elems(x.resolved));
    RowIsMarked(e, ev, x);
  }

  lemma RowIsMarked(e: Env, ev: Evidence, x: Raw)
    requires Selected(e, ev) && x in FromEvidence(e, ev)
    ensures x.evidence == Some(ev.id) && SaysSource(ev, x.source)
  {
  }

  lemma AssetIsPrior(e: Env, a: Asset, x: Raw)
    requires x in FromAsset(e, a)
    ensures x.evidence.None? && x.resolved == [] && x.source == PriorAsset
  {
  }

  /** An eligible address or host is no command-line option, and it is a network of at most 256
      addresses, or a plain host name. */
  lemma EligibleIsSafe(e: Env, accept: set<TargetType>, raws: seq<Raw>, r: Resolution, k: Key)
    requires IsResolution(e, accept, raws, r) && k in r.eligible && k.kind != Url
    ensures var value := Strip(k.value);
      && value != "" && value[0] != '-'
      && match e.prefixOf(value)
         case Some((false, prefix)) => prefix >= 24
         case Some((true, prefix)) => prefix >= 120
         case None => |value| <= 253 && forall c :: c in value ==> NameChar(c)
  {
    EligibleIsBest(e, accept, raws, r, k);
  }
}
