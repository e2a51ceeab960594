/** What a pass of the Correlation Engine makes of single rows of evidence
    (recon/correlation/engine.py): each law speaks of the rows and of the database. */
module EvidenceLaws {
  import opened Prelude
  import opened Text
  import opened Routing
  import opened Correlation
  import Scope

  // --------------------------------------------------- what rows say about a name

  /** A present DNS record of this name that has a target. */
  predicate DnsRecordOf(ev: Evidence, name: string) {
    && ev.subject == "dns_record" && !ev.absent && Strip(ev.target) != ""
    && name != "" && name == CanonHostName(if ev.name.Some? then ev.name.value else ev.value)
  }

  /** The row is an address record of the name. */
  predicate AddressRow(e: Env, ev: Evidence, name: string, ip: string) {
    DnsRecordOf(ev, name) && (ev.rtype == "A" || ev.rtype == "AAAA") && ip == e.canonIp(Strip(ev.target))
  }

  /** The value under which a row's explicit hints start. */
  function HintSource(e: Env, ev: Evidence): string {
    match SubjectAsset(ev.subject)
    case None => Strip(ev.value)
    case Some(t) => Canon(e, t, ev.value)
  }

  /** The row says explicitly that the name resolves to the address. */
  ghost predicate AddressHint(e: Env, ev: Evidence, name: string, ip: string) {
    && ev.subject != EVIDENCE_ONLY && name == HintSource(e, ev)
    && exists h :: h in ev.hints && h.rel == "resolves_to" && h.targetType == "ip" && ip == e.canonIp(h.targetValue)
  }

  ghost predicate GivesAddress(e: Env, ev: Evidence, name: string, ip: string) {
    AddressRow(e, ev, name, ip) || AddressHint(e, ev, name, ip)
  }

  /** A hint that the name resolves to the address. */
  predicate ResolvesTo(h: Hint, name: string, ip: string) {
    h.rel == "resolves_to" && h.tgtType == "ip" && h.srcValue == name && h.tgtValue == ip
  }

  lemma ExplicitResolves(e: Env, ev: Evidence, r: RawHint, name: string, ip: string)
    ensures ResolvesTo(ExplicitHint(e, ev, r), name, ip) <==>
      r.rel == "resolves_to" && r.targetType == "ip" && name == HintSource(e, ev) && ip == e.canonIp(r.targetValue)
  {
    assert TypeFromName("ip") == Ip;
  }

  lemma RecordHintIs(e: Env, ev: Evidence, h: Hint)
    ensures h in DnsHints(e, ev) <==>
      && DnsUsable(ev) && TargetOf(e, ev).Some?
      && var t := TargetOf(e, ev).value;
        h == Hint(NameOf(HostType(DnsName(ev))), DnsName(ev), t.rel, t.named, t.key.value)
  {
  }

  /** Only an address record has an address for its target. */
  lemma TargetIsAddress(e: Env, ev: Evidence)
    ensures TargetOf(e, ev).Some? && TargetOf(e, ev).value.named == "ip" <==> ev.rtype == "A" || ev.rtype == "AAAA"
    ensures ev.rtype == "A" || ev.rtype == "AAAA" ==>
      TargetOf(e, ev) == Some(DnsTarget(Key(Ip, e.canonIp(Strip(ev.target))), "ip", "resolves_to"))
  {
    assert |"subdomain"| != |"ip"|;
  }

  lemma RecordResolves(e: Env, ev: Evidence, name: string, ip: string)
    requires ev.subject == "dns_record" && !ev.absent
    ensures (exists h :: h in DnsHints(e, ev) && ResolvesTo(h, name, ip)) <==> AddressRow(e, ev, name, ip)
  {
    TargetIsAddress(e, ev);
    if h :| h in DnsHints(e, ev) && ResolvesTo(h, name, ip) {
      RecordHintIs(e, ev, h);
    }
    if AddressRow(e, ev, name, ip) {
      RecordHintIs(e, ev, Hint(NameOf(HostType(name)), name, "resolves_to", "ip", ip));
    }
  }

  lemma ParentsDoNotResolve(ev: Evidence, h: Hint, name: string, ip: string)
    requires h in ParentHints(ev)
    ensures !ResolvesTo(h, name, ip)
  {
    assert h.rel == "subdomain_of";
  }

  /** One row's hints that resolve the name. */
  lemma RowResolves(e: Env, ev: Evidence, name: string, ip: string)
    ensures (exists h :: h in HintsFrom(e, ev) && ResolvesTo(h, name, ip)) <==> GivesAddress(e, ev, name, ip)
  {
    if h :| h in HintsFrom(e, ev) && ResolvesTo(h, name, ip) {
      HintResolves(e, ev, h, name, ip);
    }
    if AddressRow(e, ev, name, ip) {
      RecordIsGiven(e, ev, name, ip);
    }
    if AddressHint(e, ev, name, ip) {
      var r :| r in ev.hints && r.rel == "resolves_to" && r.targetType == "ip" && ip == e.canonIp(r.targetValue);
      ExplicitIsGiven(e, ev, r);
      ExplicitResolves(e, ev, r, name, ip);
    }
  }

  lemma RecordIsGiven(e: Env, ev: Evidence, name: string, ip: string)
    requires AddressRow(e, ev, name, ip)
    ensures exists h :: h in HintsFrom(e, ev) && ResolvesTo(h, name, ip)
  {
    RecordResolves(e, ev, name, ip);
    var h :| h in DnsHints(e, ev) && ResolvesTo(h, name, ip);
    DerivedIsGiven(e, ev, h);
  }

  lemma DerivedIsGiven(e: Env, ev: Evidence, h: Hint)
    requires !ev.absent
    requires (ev.subject == "dns_record" && h in DnsHints(e, ev)) || (ev.subject == "subdomain" && h in ParentHints(ev))
    ensures h in HintsFrom(e, ev)
  {
  }

  lemma HintResolves(e: Env, ev: Evidence, h: Hint, name: string, ip: string)
    requires h in HintsFrom(e, ev) && ResolvesTo(h, name, ip)
    ensures GivesAddress(e, ev, name, ip)
  {
    HintOrigin(e, ev, h);
    if IsExplicit(e, ev, h) {
      var i :| 0 <= i < |ev.hints| && h == ExplicitHint(e, ev, ev.hints[i]);
      ExplicitResolves(e, ev, ev.hints[i], name, ip);
      assert ev.hints[i] in ev.hints;
    } else if ev.subject == "dns_record" {
      RecordResolves(e, ev, name, ip);
    } else {
      ParentsDoNotResolve(ev, h, name, ip);
    }
  }

  ghost predicate IsExplicit(e: Env, ev: Evidence, h: Hint) {
    exists i :: 0 <= i < |ev.hints| && h == ExplicitHint(e, ev, ev.hints[i])
  }

  lemma ExplicitIsGiven(e: Env, ev: Evidence, r: RawHint)
    requires ev.subject != EVIDENCE_ONLY && r in ev.hints
    ensures ExplicitHint(e, ev, r) in HintsFrom(e, ev)
  {
    var i :| 0 <= i < |ev.hints| && ev.hints[i] == r;
    var all := HintsFrom(e, ev);
    assert all[i] == ExplicitHint(e, ev, r);
  }

  /** Every hint of a row is explicit, or derived from a DNS record or a subdomain. */
  lemma HintOrigin(e: Env, ev: Evidence, h: Hint)
    requires h in HintsFrom(e, ev)
    ensures ev.subject != EVIDENCE_ONLY
    ensures IsExplicit(e, ev, h) || (!ev.absent && ev.subject == "dns_record" && h in DnsHints(e, ev))
      || (!ev.absent && ev.subject == "subdomain" && h in ParentHints(ev))
  {
    var k :| 0 <= k < |HintsFrom(e, ev)| && HintsFrom(e, ev)[k] == h;
    if k < |ev.hints| {
      assert h == ExplicitHint(e, ev, ev.hints[k]);
    }
  }

  /** Some row gives the address to the name. */
  ghost predicate Given(c: Config, evs: set<Evidence>, name: string, ip: string) {
    exists ev :: ev in evs && GivesAddress(c.env, ev, name, ip)
  }

  /** The addresses a pass looks at for a name are those that the rows give it. */
  lemma ResolvedExactly(c: Config, evs: set<Evidence>, name: string, ip: string)
    ensures ip in Resolved(HintsOf(c, evs), name) <==> Given(c, evs, name, ip)
  {
    if ip in Resolved(HintsOf(c, evs), name) {
      var h :| h in HintsOf(c, evs) && ResolvesTo(h, name, ip);
      var ev :| ev in evs && h in HintsFrom(c.env, ev);
      RowResolves(c.env, ev, name, ip);
    }
    if ev :| ev in evs && GivesAddress(c.env, ev, name, ip) {
      RowResolves(c.env, ev, name, ip);
      var h :| h in HintsFrom(c.env, ev) && ResolvesTo(h, name, ip);
      assert h in HintsOf(c, evs);
    }
  }

  // ------------------------------------------------------------- the scope of assets

  /** The address lies in the network's range. */
  predicate Inside(a: Scope.Addr, n: Scope.Net) {
    n.prefix <= Scope.Bits(n.v6) && a.v6 == n.v6
    && n.base <= a.value < n.base + Scope.Pow2(Scope.Bits(n.v6) - n.prefix)
  }

  /** The list names the host: by itself or by a pattern, unless the host is an address, or by
      a network that holds the host's address, or one that a row gives to the name. */
  ghost predicate Speaks(c: Config, l: Scope.ScopeList, evs: set<Evidence>, host: string, name: string) {
    || (c.roe.parseIp(host).None? && (host in l.hosts || exists d :: d in l.domains && Scope.CoversLabels(d, host)))
    || (exists n, a :: n in l.nets && c.roe.parseIp(host) == Some(a) && Inside(a, n))
    || (exists n, a, ip :: n in l.nets && Inside(a, n) && Given(c, evs, name, ip) && c.roe.parseIp(ip) == Some(a))
  }

  lemma SpeaksByAddress(c: Config, l: Scope.ScopeList, evs: set<Evidence>, host: string, name: string, ip: string,
      a: Scope.Addr, n: Scope.Net)
    requires n in l.nets && Inside(a, n) && Given(c, evs, name, ip) && c.roe.parseIp(ip) == Some(a)
    ensures Speaks(c, l, evs, host, name)
  {
  }

  lemma InsideByRows(c: Config, evs: set<Evidence>, host: string, name: string, n: Scope.Net)
    ensures Scope.AddressInside(c.roe, host, Resolved(HintsOf(c, evs), name), n) <==>
      || (exists a :: c.roe.parseIp(host) == Some(a) && Inside(a, n))
      || (exists a, ip :: Inside(a, n) && Given(c, evs, name, ip) && c.roe.parseIp(ip) == Some(a))
  {
    var ips := Resolved(HintsOf(c, evs), name);
    forall ip ensures ip in ips <==> Given(c, evs, name, ip) {
      ResolvedExactly(c, evs, name, ip);
    }
    InsideByGiven(c, ips, evs, host, name, n);
  }

  lemma InsideByGiven(c: Config, ips: set<string>, evs: set<Evidence>, host: string, name: string, n: Scope.Net)
    requires forall ip :: ip in ips <==> Given(c, evs, name, ip)
    ensures Scope.AddressInside(c.roe, host, ips, n) <==>
      || (exists a :: c.roe.parseIp(host) == Some(a) && Inside(a, n))
      || (exists a, ip :: Inside(a, n) && Given(c, evs, name, ip) && c.roe.parseIp(ip) == Some(a))
  {
  }

  lemma SpeaksIsLists(c: Config, l: Scope.ScopeList, evs: set<Evidence>, host: string, name: string)
    ensures Scope.Lists(c.roe, l, host, Resolved(HintsOf(c, evs), name)) <==> Speaks(c, l, evs, host, name)
  {
    forall n ensures Scope.AddressInside(c.roe, host, Resolved(HintsOf(c, evs), name), n) <==>
      || (exists a :: c.roe.parseIp(host) == Some(a) && Inside(a, n))
      || (exists a, ip :: Inside(a, n) && Given(c, evs, name, ip) && c.roe.parseIp(ip) == Some(a))
    {
      InsideByRows(c, evs, host, name, n);
    }
  }

  /** EXCLUDED exactly if the exclusions name the host, IN_SCOPE exactly if only the in-scope
      lists do, and FLAGGED otherwise. */
  ghost predicate Decided(c: Config, status: Scope.ScopeStatus, evs: set<Evidence>, host: string, name: string) {
    && (status == Scope.Excluded <==> Speaks(c, c.roe.excluded, evs, host, name))
    && (status == Scope.InScope <==>
      Speaks(c, c.roe.inScope, evs, host, name) && !Speaks(c, c.roe.excluded, evs, host, name))
    && (status == Scope.Flagged <==>
      !Speaks(c, c.roe.inScope, evs, host, name) && !Speaks(c, c.roe.excluded, evs, host, name))
  }

  ghost predicate GoodLists(c: Config) {
    Scope.ListOk(c.roe.inScope) && Scope.ListOk(c.roe.excluded)
  }

  lemma ClassifiedByRows(c: Config, evs: set<Evidence>, target: string, name: string)
    requires GoodLists(c)
    ensures Decided(c, Scope.StatusOf(c.roe, target, Resolved(HintsOf(c, evs), name)), evs, c.roe.hostOf(target), name)
  {
    Scope.DecisionExactly(c.roe, target, Resolved(HintsOf(c, evs), name));
    SpeaksIsLists(c, c.roe.excluded, evs, c.roe.hostOf(target), name);
    SpeaksIsLists(c, c.roe.inScope, evs, c.roe.hostOf(target), name);
  }

  lemma ScopeWritten(c: Config, evs: seq<Evidence>, now: real, db: Db, k: Key)
    requires k in Written(c, evs)
    ensures k in Pass(c, evs, now, db).assets
    ensures Pass(c, evs, now, db).assets[k].scope == ScopeFor(c, k, HintsOf(c, Elems(evs)))
  {
    AssetAfter(c, evs, now, db, k);
  }

  lemma ScopeByKind(c: Config, k: Key, hints: set<Hint>)
    ensures k.kind == Domain || k.kind == Subdomain || k.kind == Service ==>
      ScopeFor(c, k, hints) == Scope.StatusOf(c.roe, k.value, Resolved(hints, CanonHostName(k.value)))
    ensures k.kind == Url ==>
      ScopeFor(c, k, hints) == Scope.StatusOf(c.roe, c.roe.hostOf(k.value), Resolved(hints, c.roe.hostOf(k.value)))
    ensures k.kind == Ip ==> ScopeFor(c, k, hints) == Scope.StatusOf(c.roe, k.value, {})
    ensures ScopeFor(c, k, hints) == Scope.NotApplicable <==>
      k.kind in {Finding, Organization, Person, Email, Repository, Netblock, Document, Social}
  {
  }

  /** The scope that a pass writes for a name or a service: by the rules on it, and by every
      address that a row gives to it. */
  lemma NameScopeExactly(c: Config, evs: seq<Evidence>, now: real, db: Db, k: Key)
    requires GoodLists(c) && k in Written(c, evs) && (k.kind == Domain || k.kind == Subdomain || k.kind == Service)
    ensures k in Pass(c, evs, now, db).assets
    ensures Decided(c, Pass(c, evs, now, db).assets[k].scope, Elems(evs), c.roe.hostOf(k.value), CanonHostName(k.value))
  {
    ScopeWritten(c, evs, now, db, k);
    ScopeByKind(c, k, HintsOf(c, Elems(evs)));
    ClassifiedByRows(c, Elems(evs), k.value, CanonHostName(k.value));
  }

  /** A URL has the scope of its host, with the addresses that rows give to that host. */
  lemma UrlScopeExactly(c: Config, evs: seq<Evidence>, now: real, db: Db, k: Key)
    requires GoodLists(c) && k in Written(c, evs) && k.kind == Url
    ensures k in Pass(c, evs, now, db).assets
    ensures var host := c.roe.hostOf(k.value);
      Decided(c, Pass(c, evs, now, db).assets[k].scope, Elems(evs), c.roe.hostOf(host), host)
  {
    ScopeWritten(c, evs, now, db, k);
    ScopeByKind(c, k, HintsOf(c, Elems(evs)));
    ClassifiedByRows(c, Elems(evs), c.roe.hostOf(k.value), c.roe.hostOf(k.value));
  }

  /** An address has the scope of its own. */
  lemma IpScopeExactly(c: Config, evs: seq<Evidence>, now: real, db: Db, k: Key)
    requires GoodLists(c) && k in Written(c, evs) && k.kind == Ip
    ensures k in Pass(c, evs, now, db).assets
    ensures Decided(c, Pass(c, evs, now, db).assets[k].scope, {}, c.roe.hostOf(k.value), k.value)
  {
    ScopeWritten(c, evs, now, db, k);
    ScopeByKind(c, k, HintsOf(c, Elems(evs)));
    ClassifiedByRows(c, {}, k.value, k.value);
    assert HintsOf(c, {}) == {} && Resolved({}, k.value) == {};
  }

  /** Findings, and what is known of people and organisations, are no targets. */
  lemma NoScopeExactly(c: Config, evs: seq<Evidence>, now: real, db: Db, k: Key)
    requires k in Written(c, evs)
    ensures k in Pass(c, evs, now, db).assets
    ensures Pass(c, evs, now, db).assets[k].scope == Scope.NotApplicable <==>
      k.kind in {Finding, Organization, Person, Email, Repository, Netblock, Document, Social}
  {
    ScopeWritten(c, evs, now, db, k);
    ScopeByKind(c, k, HintsOf(c, Elems(evs)));
  }

  /** In particular one address record into an excluded network excludes its name, whatever
      the other rows and the in-scope lists say. */
  lemma AddressRowExcludes(c: Config, evs: seq<Evidence>, now: real, db: Db, k: Key, ev: Evidence, ip: string,
      a: Scope.Addr, n: Scope.Net)
    requires GoodLists(c) && k in Written(c, evs) && (k.kind == Domain || k.kind == Subdomain)
    requires ev in evs && AddressRow(c.env, ev, CanonHostName(k.value), ip)
    requires c.roe.parseIp(ip) == Some(a) && n in c.roe.excluded.nets && Inside(a, n)
    ensures k in Pass(c, evs, now, db).assets && Pass(c, evs, now, db).assets[k].scope == Scope.Excluded
  {
    NameScopeExactly(c, evs, now, db, k);
    assert GivesAddress(c.env, ev, CanonHostName(k.value), ip);
    SpeaksByAddress(c, c.roe.excluded, Elems(evs), c.roe.hostOf(k.value), CanonHostName(k.value), ip, a, n);
  }

  // ------------------------------------------------------------------ relationships

  /** The asset of a host name: a name of three labels or more is a subdomain. */
  function NameKey(name: string): Key {
    Key(if CountChar(name, '.') >= 2 then Subdomain else Domain, CanonHostName(name))
  }

  /** What an explicit hint of the row relates. */
  function ExplicitTriple(c: Config, ev: Evidence, r: RawHint): Triple {
    var subject := SubjectAsset(ev.subject);
    Triple(End(c, if subject.Some? then NameOf(subject.value) else ev.subject, HintSource(c.env, ev)),
           End(c, r.targetType, Canon(c.env, TypeFromName(r.targetType), r.targetValue)), r.rel)
  }

  ghost predicate ExplicitRelates(c: Config, ev: Evidence, t: Triple) {
    ev.subject != EVIDENCE_ONLY && exists r :: r in ev.hints && t == ExplicitTriple(c, ev, r)
  }

  /** A record relates its name to its target: an address and an alias by `resolves_to`, a
      mail server by `serves`. */
  ghost predicate RecordRelates(c: Config, ev: Evidence, t: Triple) {
    exists name :: DnsRecordOf(ev, name) && t.src == NameKey(name) && RecordTarget(c, ev, t)
  }

  predicate RecordTarget(c: Config, ev: Evidence, t: Triple) {
    var target := Strip(ev.target);
    || ((ev.rtype == "A" || ev.rtype == "AAAA") && t.rel == "resolves_to" &&
      t.tgt == Key(Ip, c.env.canonIp(c.env.canonIp(target))))
    || (ev.rtype == "CNAME" && t.rel == "resolves_to" && t.tgt == Key(Subdomain, CanonHostName(CanonHostName(target))))
    || (ev.rtype == "MX" && MxHost(ev) != "" && t.rel == "serves" && t.tgt == Key(Subdomain, CanonHostName(MxHost(ev))))
  }

  /** The parent the row names, or else the rest of the host's labels after the first. */
  function ParentOf(ev: Evidence): string {
    var host := CanonHostName(ev.value);
    if ev.parent != "" then ev.parent else if CountChar(host, '.') >= 2 then AfterDot(host) else ""
  }

  /** A subdomain belongs to its parent. */
  predicate SubdomainRelates(ev: Evidence, t: Triple) {
    && ev.subject == "subdomain" && !ev.absent && ParentOf(ev) != ""
    && t == Triple(Key(Subdomain, CanonHostName(CanonHostName(ev.value))),
                   Key(Domain, CanonHostName(CanonHostName(ParentOf(ev)))), "subdomain_of")
  }

  ghost predicate RowRelates(c: Config, ev: Evidence, t: Triple) {
    RelKnown(t.rel) && t.src != t.tgt &&
      (ExplicitRelates(c, ev, t) || RecordRelates(c, ev, t) || SubdomainRelates(ev, t))
  }

  lemma EndOfName(c: Config, name: string)
    ensures End(c, NameOf(HostType(name)), name) == NameKey(name)
  {
  }

  lemma EndsByName(c: Config, value: string)
    ensures End(c, "ip", value) == Key(Ip, c.env.canonIp(value))
    ensures End(c, "subdomain", value) == Key(Subdomain, CanonHostName(value))
    ensures End(c, "domain", value) == Key(Domain, CanonHostName(value))
  {
  }

  lemma ExplicitSource(e: Env, ev: Evidence, r: RawHint)
    ensures ExplicitHint(e, ev, r).srcValue == HintSource(e, ev)
  {
    assert Canon(e, Finding, ev.value) == Strip(ev.value);
  }

  lemma ExplicitTripleIs(c: Config, ev: Evidence, r: RawHint)
    ensures TripleOf(c, ExplicitHint(c.env, ev, r)) == ExplicitTriple(c, ev, r)
  {
    ExplicitSource(c.env, ev, r);
    var h := ExplicitHint(c.env, ev, r);
    assert h.rel == r.rel && h.tgtType == r.targetType &&
      h.tgtValue == Canon(c.env, TypeFromName(r.targetType), r.targetValue);
    assert SourceKey(c, h) == ExplicitTriple(c, ev, r).src;
  }

  lemma ExplicitTriples(c: Config, ev: Evidence, t: Triple)
    requires ev.subject != EVIDENCE_ONLY
    ensures ExplicitRelates(c, ev, t) <==> exists h :: IsExplicit(c.env, ev, h) && t == TripleOf(c, h)
  {
    if r :| r in ev.hints && t == ExplicitTriple(c, ev, r) {
      var i :| 0 <= i < |ev.hints| && ev.hints[i] == r;
      ExplicitTripleIs(c, ev, r);
      assert IsExplicit(c.env, ev, ExplicitHint(c.env, ev, r));
    }
    if h :| IsExplicit(c.env, ev, h) && t == TripleOf(c, h) {
      var i :| 0 <= i < |ev.hints| && h == ExplicitHint(c.env, ev, ev.hints[i]);
      ExplicitTripleIs(c, ev, ev.hints[i]);
      assert ev.hints[i] in ev.hints;
    }
  }

  lemma TargetByType(e: Env, ev: Evidence)
    requires TargetOf(e, ev).Some?
    ensures var target, value := TargetOf(e, ev).value, Strip(ev.target);
      || ((ev.rtype == "A" || ev.rtype == "AAAA") &&
        target == DnsTarget(Key(Ip, e.canonIp(value)), "ip", "resolves_to"))
      || (ev.rtype == "CNAME" && target == DnsTarget(target.key, "subdomain", "resolves_to")
        && target.key.value == CanonHostName(value))
      || (ev.rtype == "MX" && MxHost(ev) != "" && target == DnsTarget(target.key, "subdomain", "serves")
        && target.key.value == MxHost(ev))
  {
  }

  lemma TargetIfType(e: Env, ev: Evidence)
    requires ev.rtype == "A" || ev.rtype == "AAAA" || ev.rtype == "CNAME" || (ev.rtype == "MX" && MxHost(ev) != "")
    ensures TargetOf(e, ev).Some?
  {
  }

  lemma RecordTriples(c: Config, ev: Evidence, t: Triple)
    requires ev.subject == "dns_record" && !ev.absent
    ensures RecordRelates(c, ev, t) <==> exists h :: h in DnsHints(c.env, ev) && t == TripleOf(c, h)
  {
    var name, target := DnsName(ev), TargetOf(c.env, ev);
    EndOfName(c, name);
    if target.Some? {
      TargetByType(c.env, ev);
      EndsByName(c, target.value.key.value);
      RecordHintIs(c.env, ev,
        Hint(NameOf(HostType(name)), name, target.value.rel, target.value.named, target.value.key.value));
    }
    if RecordRelates(c, ev, t) {
      TargetIfType(c.env, ev);
    }
    if h :| h in DnsHints(c.env, ev) && t == TripleOf(c, h) {
      RecordHintIs(c.env, ev, h);
      assert DnsRecordOf(ev, name);
    }
  }

  lemma SubdomainTriples(c: Config, ev: Evidence, t: Triple)
    requires ev.subject == "subdomain" && !ev.absent
    ensures SubdomainRelates(ev, t) <==> exists h :: h in ParentHints(ev) && t == TripleOf(c, h)
  {
    if ParentOf(ev) != "" {
      var host, parent := CanonHostName(ev.value), CanonHostName(ParentOf(ev));
      var h := Hint("subdomain", host, "subdomain_of", "domain", parent);
      EndsByName(c, host);
      EndsByName(c, parent);
      assert ParentHints(ev) == [h];
      assert h in ParentHints(ev);
    } else {
      assert ParentHints(ev) == [];
    }
  }

  /** One row's relationships. */
  lemma RowTriples(c: Config, ev: Evidence, t: Triple)
    ensures RowRelates(c, ev, t) <==> exists h :: h in HintsFrom(c.env, ev) && Relates(c, h) && t == TripleOf(c, h)
  {
    if h :| h in HintsFrom(c.env, ev) && Relates(c, h) && t == TripleOf(c, h) {
      HintOrigin(c.env, ev, h);
      HintIsRelated(c, ev, t, h);
    }
    if RowRelates(c, ev, t) {
      RelatedIsHint(c, ev, t);
    }
  }

  lemma HintIsRelated(c: Config, ev: Evidence, t: Triple, h: Hint)
    requires t == TripleOf(c, h) && Relates(c, h) && ev.subject != EVIDENCE_ONLY
    requires IsExplicit(c.env, ev, h) || (!ev.absent && ev.subject == "dns_record" && h in DnsHints(c.env, ev))
      || (!ev.absent && ev.subject == "subdomain" && h in ParentHints(ev))
    ensures RowRelates(c, ev, t)
  {
    if IsExplicit(c.env, ev, h) {
      ExplicitTriples(c, ev, t);
    } else if ev.subject == "dns_record" {
      RecordTriples(c, ev, t);
    } else {
      SubdomainTriples(c, ev, t);
    }
  }

  lemma RelatedIsHint(c: Config, ev: Evidence, t: Triple)
    requires RowRelates(c, ev, t)
    ensures exists h :: h in HintsFrom(c.env, ev) && Relates(c, h) && t == TripleOf(c, h)
  {
    if ExplicitRelates(c, ev, t) {
      ExplicitTriples(c, ev, t);
      var h :| IsExplicit(c.env, ev, h) && t == TripleOf(c, h);
      var i :| 0 <= i < |ev.hints| && h == ExplicitHint(c.env, ev, ev.hints[i]);
      ExplicitIsGiven(c.env, ev, ev.hints[i]);
    } else if RecordRelates(c, ev, t) {
      RecordTriples(c, ev, t);
      var h :| h in DnsHints(c.env, ev) && t == TripleOf(c, h);
      DerivedIsGiven(c.env, ev, h);
    } else {
      SubdomainTriples(c, ev, t);
      var h :| h in ParentHints(ev) && t == TripleOf(c, h);
      DerivedIsGiven(c.env, ev, h);
    }
  }

  /** The relationships after a pass are those before it, and those that a row gives: an
      explicit hint, a DNS record, or a subdomain. */
  lemma RelationshipsExactly(c: Config, evs: seq<Evidence>, now: real, db: Db, t: Triple)
    ensures t in Pass(c, evs, now, db).rels <==> t in db.rels || exists ev :: ev in evs && RowRelates(c, ev, t)
  {
    if t in Triples(c, HintsOf(c, Elems(evs))) {
      var h :| h in HintsOf(c, Elems(evs)) && Relates(c, h) && TripleOf(c, h) == t;
      var ev :| ev in Elems(evs) && h in HintsFrom(c.env, ev);
      RowTriples(c, ev, t);
    }
    if ev :| ev in evs && RowRelates(c, ev, t) {
      RowTriples(c, ev, t);
      var h :| h in HintsFrom(c.env, ev) && Relates(c, h) && t == TripleOf(c, h);
      assert h in HintsOf(c, Elems(evs));
    }
  }

  /** The alias record of an apex domain splits it: its group is that of a domain, but its
      relationship ends at a subdomain of the same name. The two are one asset exactly if the
      target has two dots or more. */
  lemma AliasTargetExactly(c: Config, ev: Evidence, name: string, t: Triple)
    requires DnsRecordOf(ev, name) && ev.rtype == "CNAME" && RecordRelates(c, ev, t)
    requires CanonHostName(CanonHostName(Strip(ev.target))) == CanonHostName(Strip(ev.target))
    ensures var host := CanonHostName(Strip(ev.target));
      && Key(if CountChar(host, '.') >= 2 then Subdomain else Domain, host) in KeysFrom(c.env, ev)
      && t.tgt == Key(Subdomain, host)
      && (t.tgt == NameKey(host) <==> CountChar(host, '.') >= 2)
  {
    AliasKeys(c.env, ev);
  }

  lemma AliasKeys(e: Env, ev: Evidence)
    requires ev.subject == "dns_record" && !ev.absent && DnsUsable(ev) && ev.rtype == "CNAME"
    ensures var host := CanonHostName(Strip(ev.target)); Key(HostType(host), host) in KeysFrom(e, ev)
  {
    var host := CanonHostName(Strip(ev.target));
    var keys := [Key(HostType(DnsName(ev)), DnsName(ev))] + [Key(HostType(host), host)];
    assert KeysFrom(e, ev) == keys;
    assert keys[1] == Key(HostType(host), host);
  }

  // -------------------------------------------------------------------------- groups

  /** The row is a DNS record, of this host name or with this target. */
  ghost predicate RecordOf(e: Env, ev: Evidence, k: Key) {
    exists name :: DnsRecordOf(ev, name) &&
      (k == Key(if CountChar(name, '.') >= 2 then Subdomain else Domain, name) || TargetedBy(e, ev, k))
  }

  predicate TargetedBy(e: Env, ev: Evidence, k: Key) {
    var target := Strip(ev.target);
    || ((ev.rtype == "A" || ev.rtype == "AAAA") && k == Key(Ip, e.canonIp(target)))
    || (ev.rtype == "CNAME" && IsHostKey(k, CanonHostName(target)))
    || (ev.rtype == "MX" && MxHost(ev) != "" && IsHostKey(k, MxHost(ev)))
  }

  predicate IsHostKey(k: Key, host: string) {
    k == Key(if CountChar(host, '.') >= 2 then Subdomain else Domain, host)
  }

  /** The row is a finding: something absent, a secret, or of a kind the engine does not know. */
  predicate FindingOf(ev: Evidence, k: Key) {
    && k.kind == Finding
    && (if ev.absent then k.value == ev.subject + ":" + CanonHostName(ev.value)
        else if ev.subject == "secret" then k.value == "secret:" + ev.value
        else ev.subject != "dns_record" && !IsAttribute(ev.subject) && SubjectAsset(ev.subject).None?
             && k.value == ev.subject + ":" + ev.value)
  }

  /** The row is about an asset of this type and canonical value. */
  predicate AssetOf(e: Env, ev: Evidence, k: Key) {
    && !ev.absent && ev.subject != "secret" && ev.subject != "dns_record" && !IsAttribute(ev.subject)
    && SubjectAsset(ev.subject) == Some(k.kind) && k.value == Canon(e, k.kind, ev.value)
  }

  ghost predicate RowOf(e: Env, ev: Evidence, k: Key) {
    ev.subject != EVIDENCE_ONLY && (RecordOf(e, ev, k) || FindingOf(ev, k) || AssetOf(e, ev, k))
  }

  lemma RecordKeys(e: Env, ev: Evidence, k: Key)
    requires ev.subject == "dns_record" && !ev.absent
    ensures k in DnsKeys(e, ev) <==> RecordOf(e, ev, k)
  {
    if DnsUsable(ev) {
      assert DnsRecordOf(ev, DnsName(ev));
      if TargetOf(e, ev).Some? { TargetByType(e, ev); }
      TargetedExactly(e, ev, k);
    }
  }

  lemma TargetedExactly(e: Env, ev: Evidence, k: Key)
    ensures TargetOf(e, ev).Some? && TargetOf(e, ev).value.key == k <==> TargetedBy(e, ev, k)
  {
  }

  /** The rows of a group, and so what counts for its confidence, interest and times: the
      records of a name or of a target, findings, and rows about the asset itself. Attribute
      rows and hits that were only recorded join no group. */
  lemma RowsOfGroupExactly(c: Config, evs: set<Evidence>, k: Key, ev: Evidence)
    ensures ev in Own(c, evs, k) <==> ev in evs && RowOf(c.env, ev, k)
  {
    if ev.subject == "dns_record" && !ev.absent {
      RecordKeys(c.env, ev, k);
    } else if ev.absent || ev.subject == "secret" || SubjectAsset(ev.subject).None? {
      FindingKeys(c.env, ev, k);
    }
  }

  lemma FindingKeys(e: Env, ev: Evidence, k: Key)
    requires ev.absent || ev.subject == "secret" || (SubjectAsset(ev.subject).None? && ev.subject != "dns_record")
    ensures k in KeysFrom(e, ev) <==> RowOf(e, ev, k)
  {
    assert ev.subject + ":" + ev.value == ev.subject + [':'] + ev.value;
    assert ev.subject + ":" + CanonHostName(ev.value) == ev.subject + [':'] + CanonHostName(ev.value);
  }

  /** The kinds of subject that are assets. */
  lemma SubjectsAreAssets()
    ensures forall t :: t != Finding ==> SubjectAsset(NameOf(t)) == Some(t)
    ensures SubjectAsset("endpoint") == Some(Url) && SubjectAsset("http_endpoint") == Some(Url)
    ensures forall s :: SubjectAsset(s).Some? ==> SubjectAsset(s).value != Finding
  {
  }

  // ---------------------------------------------------------------------- confidence

  /** Two rows that corroborate each other: of different modules, or of one module that names
      different sources. */
  predicate Apart(a: Evidence, b: Evidence) {
    a.module_ != b.module_ || a.source != b.source
  }

  ghost predicate TwoApart(evs: set<Evidence>) {
    exists a, b :: a in evs && b in evs && Apart(a, b)
  }

  ghost predicate ThreeApart(evs: set<Evidence>) {
    exists a, b, d :: a in evs && b in evs && d in evs && Apart(a, b) && Apart(a, d) && Apart(b, d)
  }

  lemma AtLeastTwo<T>(s: set<T>)
    ensures |s| >= 2 <==> exists x, y :: x in s && y in s && x != y
  {
    if |s| >= 2 {
      var x :| x in s;
      assert |s - {x}| >= 1;
      var y :| y in s - {x};
    }
    if x, y :| x in s && y in s && x != y {
      SubsetSize({x, y}, s);
    }
  }

  lemma AtLeastThree<T>(s: set<T>)
    ensures |s| >= 3 <==> exists x, y, z :: x in s && y in s && z in s && x != y && x != z && y != z
  {
    if |s| >= 3 {
      var x :| x in s;
      AtLeastTwo(s - {x});
      var y, z :| y in s - {x} && z in s - {x} && y != z;
    }
    if x, y, z :| x in s && y in s && z in s && x != y && x != z && y != z {
      SubsetSize({x, y, z}, s);
    }
  }

  lemma TwoOrigins(evs: set<Evidence>)
    ensures |Origins(evs)| >= 2 <==> TwoApart(evs)
  {
    AtLeastTwo(Origins(evs));
    if a, b :| a in evs && b in evs && Apart(a, b) {
      assert Origin(a.module_, a.source) in Origins(evs) && Origin(b.module_, b.source) in Origins(evs);
    }
  }

  lemma ThreeOrigins(evs: set<Evidence>)
    ensures |Origins(evs)| >= 3 <==> ThreeApart(evs)
  {
    AtLeastThree(Origins(evs));
    if a, b, d :| a in evs && b in evs && d in evs && Apart(a, b) && Apart(a, d) && Apart(b, d) {
      ThreeAreOrigins(evs, a, b, d);
    }
    if x, y, z :| x in Origins(evs) && y in Origins(evs) && z in Origins(evs) && x != y && x != z && y != z {
      OriginsOfThree(evs, x, y, z);
    }
  }

  lemma ThreeAreOrigins(evs: set<Evidence>, a: Evidence, b: Evidence, d: Evidence)
    requires a in evs && b in evs && d in evs && Apart(a, b) && Apart(a, d) && Apart(b, d)
    ensures exists x, y, z :: x in Origins(evs) && y in Origins(evs) && z in Origins(evs) && x != y && x != z && y != z
  {
    var x, y, z := Origin(a.module_, a.source), Origin(b.module_, b.source), Origin(d.module_, d.source);
    assert x in Origins(evs) && y in Origins(evs) && z in Origins(evs);
  }

  lemma OriginsOfThree(evs: set<Evidence>, x: Origin, y: Origin, z: Origin)
    requires x in Origins(evs) && y in Origins(evs) && z in Origins(evs) && x != y && x != z && y != z
    ensures ThreeApart(evs)
  {
    var a :| a in evs && x == Origin(a.module_, a.source);
    var b :| b in evs && y == Origin(b.module_, b.source);
    var d :| d in evs && z == Origin(d.module_, d.source);
    assert Apart(a, b) && Apart(a, d) && Apart(b, d);
  }

  /** The confidence that a pass computes: half for rows that do not corroborate each other, a
      quarter more for two that do, and certainty for three. */
  lemma ConfidenceExactly(evs: set<Evidence>)
    ensures ConfidenceOf(evs) == 1.0 <==> ThreeApart(evs)
    ensures ConfidenceOf(evs) == 0.75 <==> TwoApart(evs) && !ThreeApart(evs)
    ensures ConfidenceOf(evs) == 0.5 <==> evs != {} && !TwoApart(evs)
    ensures ConfidenceOf(evs) == 0.3 <==> evs == {}
  {
    ConfidenceCounts(evs);
    TwoOrigins(evs);
    ThreeOrigins(evs);
  }

  // ---------------------------------------------------------------------- spellings

  lemma LowerIgnoresCase(a: string, b: string)
    requires Scope.SameButCase(a, b)
    ensures Lower(a) == Lower(b)
  {
  }

  lemma {:induction false} CaseKeepsLeft(a: string, b: string)
    requires Scope.SameButCase(a, b)
    ensures Scope.SameButCase(LStrip(a), LStrip(b))
  {
    if a != "" && IsSpace(a[0]) { CaseKeepsLeft(a[1..], b[1..]); }
  }

  lemma {:induction false} CaseKeepsRight(a: string, b: string)
    requires Scope.SameButCase(a, b)
    ensures Scope.SameButCase(RStrip(a), RStrip(b))
  {
    if a != "" && IsSpace(a[|a| - 1]) { CaseKeepsRight(a[..|a| - 1], b[..|b| - 1]); }
  }

  lemma CanonByType(e: Env, t: AssetType, a: string)
    ensures t == Domain || t == Subdomain ==> Canon(e, t, a) == CanonHost(Strip(a))
    ensures t == Service || t == Email ==> Canon(e, t, a) == Lower(Strip(a))
    ensures t == Person || t == Repository || t == Document || t == Social || t == Finding ==>
      Canon(e, t, a) == Strip(a)
    ensures Canon(e, Url, a) == e.canonUrl(a) && Canon(e, Ip, a) == e.canonIp(a) &&
      Canon(e, Netblock, a) == e.canonNet(a)
  {
  }

  /** The case of letters makes no other asset of a name, a service or a mail address. People,
      repositories and documents are kept apart by it; URLs, addresses and networks have their
      parser's spelling. */
  lemma SpellingsAreOneAsset(e: Env, t: AssetType, a: string, b: string)
    requires Scope.SameButCase(a, b)
    ensures t == Domain || t == Subdomain || t == Service || t == Email ==> Canon(e, t, a) == Canon(e, t, b)
    ensures t == Person || t == Repository || t == Document || t == Social ==>
      (Canon(e, t, a) == Canon(e, t, b) <==> Strip(a) == Strip(b))
    ensures Canon(e, Url, a) == e.canonUrl(a) && Canon(e, Ip, a) == e.canonIp(a) &&
      Canon(e, Netblock, a) == e.canonNet(a)
  {
    CaseKeepsLeft(a, b);
    CaseKeepsRight(LStrip(a), LStrip(b));
    LowerIgnoresCase(Strip(a), Strip(b));
    Scope.CanonIgnoresCase(Strip(a), Strip(b));
    CanonByType(e, t, a);
    CanonByType(e, t, b);
  }

  lemma FinalDot(e: Env, a: string)
    requires a != "" && !IsSpace(a[0]) && !IsSpace(a[|a| - 1])
    ensures Canon(e, Domain, a + ".") == Canon(e, Domain, a) && Canon(e, Subdomain, a + ".") == Canon(e, Subdomain, a)
  {
    assert Strip(a) == a && Strip(a + ".") == a + ".";
    Scope.CanonIgnoresDot(a);
  }

  /** An organisation is known by its words, whatever white space is between them. */
  lemma WordsAreOneOrganisation(e: Env, a: string, b: string)
    requires Words(a) == Words(b)
    ensures Canon(e, Organization, a) == Canon(e, Organization, b)
    ensures Canon(e, Organization, a) == Lower(Join(Words(a), ' '))
  {
  }

  // ------------------------------------------------------------------------ interest

  /** A row calls the asset interesting at this level. */
  ghost predicate SomeRowSays(evs: set<Evidence>, level: string) {
    exists ev :: ev in evs && ev.interest == Some(level)
  }

  /** The value starts with this word, up to the first colon. */
  predicate FirstPart(value: string, word: string) {
    Split(value, ':')[0] == word
  }

  /** Notable of itself: a service, an e-mail address, a document, a netblock, a finding other
      than a missing CAA, MTA-STS or TLS-RPT record, or a value that stands out. */
  predicate NotableKey(c: Config, k: Key) {
    || k.kind == Service || k.kind == Email || k.kind == Document || k.kind == Netblock
    || (k.kind == Finding && !FirstPart(k.value, "caa") && !FirstPart(k.value, "mta_sts") &&
      !FirstPart(k.value, "tls_rpt"))
    || c.standsOut(Lower(k.value))
  }

  /** The interest that a pass computes: the highest that a row or the key itself calls for. */
  lemma InterestExactly(c: Config, k: Key, evs: set<Evidence>)
    ensures InterestOf(c, k, evs) == HighValue <==>
      SomeRowSays(evs, "high_value") || (k.kind == Finding && "secret:" <= k.value)
    ensures InterestOf(c, k, evs) == Informational <==>
      && !SomeRowSays(evs, "high_value") && !(k.kind == Finding && "secret:" <= k.value)
      && !SomeRowSays(evs, "notable") && !NotableKey(c, k)
  {
    LevelsSaid(evs);
    assert "secret:" <= k.value <==> StartsWith(k.value, "secret:");
  }

  lemma LevelsSaid(evs: set<Evidence>)
    ensures (exists ev :: ev in evs && Hinted(ev, HighValue)) <==> SomeRowSays(evs, "high_value")
    ensures (exists ev :: ev in evs && Hinted(ev, Notable)) <==> SomeRowSays(evs, "notable")
  {
    forall ev: Evidence ensures Hinted(ev, HighValue) <==> ev.interest == Some("high_value") {
    }
    forall ev: Evidence ensures Hinted(ev, Notable) <==> ev.interest == Some("notable") {
    }
  }

  /** A hit that was only recorded changes nothing. */
  lemma RecordedHitIsSilent(c: Config, evs: seq<Evidence>, ev: Evidence, now: real, db: Db)
    requires ev.subject == EVIDENCE_ONLY
    ensures Pass(c, evs + [ev], now, db) == Pass(c, evs, now, db)
  {
    var more := evs + [ev];
    assert more[..|evs|] == evs;
    assert Elems(more) == Elems(evs) + {ev};
    assert KeysFrom(c.env, ev) == [] && HintsFrom(c.env, ev) == [] && RefFrom(c.env, ev) == None;
    SameRows(c, Elems(evs), ev);
    SameMaps(Pass(c, more, now, db).assets, Pass(c, evs, now, db).assets);
  }

  lemma SameRows(c: Config, evs: set<Evidence>, ev: Evidence)
    requires KeysFrom(c.env, ev) == [] && HintsFrom(c.env, ev) == []
    ensures forall k :: Own(c, evs + {ev}, k) == Own(c, evs, k)
    ensures GroupKeys(c, evs + {ev}) == GroupKeys(c, evs) && HintsOf(c, evs + {ev}) == HintsOf(c, evs)
  {
  }

  // ---------------------------------------------------------------------- parents

  /** The attribute row refers to this URL or host. */
  predicate RefersTo(e: Env, ev: Evidence, ref: string) {
    && IsAttribute(ev.subject) && !ev.absent
    && var text := if ev.ref != "" then ev.ref else ev.value;
       ref == if HasScheme(text) then e.canonUrl(text) else CanonHostName(text)
  }

  ghost predicate SomeRowRefers(e: Env, evs: seq<Evidence>, ref: string) {
    exists ev :: ev in evs && RefersTo(e, ev, ref)
  }

  lemma OneMoreRefers(e: Env, evs: seq<Evidence>, ev: Evidence, ref: string)
    ensures SomeRowRefers(e, evs + [ev], ref) <==> SomeRowRefers(e, evs, ref) || RefersTo(e, ev, ref)
  {
    assert forall x :: x in evs + [ev] <==> x in evs || x == ev;
  }

  /** The references of a pass are those of its attribute rows. */
  lemma {:induction false} ReferencesExactly(c: Config, evs: seq<Evidence>, ref: string)
    ensures ref in RefsOf(c, evs) <==> SomeRowRefers(c.env, evs, ref)
  {
    if evs != [] {
      var most, last := evs[..|evs| - 1], evs[|evs| - 1];
      ReferencesExactly(c, most, ref);
      assert evs == most + [last];
      OneMoreRefers(c.env, most, last, ref);
      ReferenceOf(c.env, last, ref);
    }
  }

  lemma ReferenceOf(e: Env, ev: Evidence, ref: string)
    ensures RefFrom(e, ev) == Some(ref) <==> RefersTo(e, ev, ref)
  {
  }

  /** An asset that the reference fits: its URL, or its host as a name or an address. */
  ghost predicate Fits(c: Config, k: Key, ref: string) {
    var host := if HasScheme(ref) then c.roe.hostOf(ref) else ref;
    || (HasScheme(ref) && k == Key(Url, c.env.canonUrl(ref)))
    || k == Key(Subdomain, CanonHostName(host)) || k == Key(Domain, CanonHostName(host)) ||
      k == Key(Ip, c.env.canonIp(host))
  }

  /** What stands in when nothing fits. */
  ghost predicate StandsIn(c: Config, k: Key, ref: string) {
    if HasScheme(ref) then k == Key(Url, c.env.canonUrl(ref))
    else
      k.value == CanonHostName(ref) &&
      (if c.roe.parseIp(CanonHostName(ref)).Some? then k.kind == Ip
       else k.kind == if CountChar(CanonHostName(ref), '.') >= 2 then Subdomain else Domain)
  }

  lemma ParentIs(c: Config, ref: string, ids: set<Key>)
    ensures HasParent(c, ref, ids) <==> exists k :: k in ids && Fits(c, k, ref)
    ensures StandsIn(c, InferParent(c, ref), ref)
  {
    var host := if HasScheme(ref) then c.roe.hostOf(ref) else ref;
    if HasParent(c, ref, ids) {
      var k :| k in {Key(Url, c.env.canonUrl(ref)), Key(Subdomain, CanonHostName(host)),
                     Key(Domain, CanonHostName(host)), Key(Ip, c.env.canonIp(host))}
        && k in ids && (k.kind == Url ==> HasScheme(ref));
      assert Fits(c, k, ref);
    }
  }

  /** No attribute row is left without an asset: after the references each has one that fits or
      stands in. */
  lemma {:induction false} ReferencesAreCovered(c: Config, refs: seq<string>, ids: set<Key>, ref: string)
    requires ref in refs
    ensures exists p :: p in WithParents(c, refs, ids) && (Fits(c, p, ref) || StandsIn(c, p, ref))
  {
    var most, last := refs[..|refs| - 1], refs[|refs| - 1];
    assert refs == most + [last];
    if ref in most {
      ReferencesAreCovered(c, most, ids, ref);
      var p :| p in WithParents(c, most, ids) && (Fits(c, p, ref) || StandsIn(c, p, ref));
      assert p in WithParents(c, refs, ids);
    } else {
      ParentIs(c, last, WithParents(c, most, ids));
    }
  }

  /** An asset that no row is about was made for a reference that none of the others fits. */
  lemma {:induction false} StandInsAreNeeded(c: Config, refs: seq<string>, ids: set<Key>, k: Key)
    requires k in WithParents(c, refs, ids) && k !in ids
    ensures exists r :: r in refs && StandsIn(c, k, r) && forall p :: p in ids ==> !Fits(c, p, r)
  {
    var most, last := refs[..|refs| - 1], refs[|refs| - 1];
    assert refs == most + [last];
    if k in WithParents(c, most, ids) {
      StandInsAreNeeded(c, most, ids, k);
    } else {
      ParentIs(c, last, WithParents(c, most, ids));
      assert last in refs;
    }
  }
}
