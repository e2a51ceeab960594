/** recon/core/scope.py: the scope decision. */
module Scope {
  import opened Prelude
  import opened Text

  datatype ScopeStatus = InScope | Flagged | Excluded | NotApplicable

  datatype Addr = Addr(v6: bool, value: nat)

  /** A network as the RoE stores it, host bits cleared. */
  datatype Net = Net(v6: bool, base: nat, prefix: nat)

  function Bits(v6: bool): nat {
    if v6 then 128 else 32
  }

  function Pow2(n: nat): (r: nat)
    ensures r > 0
  {
    if n == 0 then 1 else 2 * Pow2(n - 1)
  }

  predicate NetOk(n: Net) {
    n.prefix <= Bits(n.v6) && n.base % Pow2(Bits(n.v6) - n.prefix) == 0
  }

  /** `ip.version == net.version and ip in net`: the network parts are equal. */
  predicate InNet(a: Addr, n: Net) {
    n.prefix <= Bits(n.v6) && a.v6 == n.v6
    && a.value / Pow2(Bits(n.v6) - n.prefix) == n.base / Pow2(Bits(n.v6) - n.prefix)
  }

  lemma MulMono(a: int, b: int, size: nat)
    requires a <= b
    ensures a * size <= b * size
  {
  }

  lemma Multiples(p: int, q: int, size: nat)
    ensures p < q ==> p * size + size <= q * size
  {
    if p < q {
      MulMono(p + 1, q, size);
      assert (p + 1) * size == p * size + size;
    }
  }

  lemma DivRange(v: nat, b: nat, size: nat)
    requires size > 0 && b % size == 0
    ensures v / size == b / size <==> b <= v < b + size
  {
    var p, q := v / size, b / size;
    assert v == p * size + v % size && b == q * size;
    Multiples(p, q, size);
    Multiples(q, p, size);
  }

  /** Membership is the range from the network address to the broadcast address. */
  lemma InNetIsRange(a: Addr, n: Net)
    requires NetOk(n)
    ensures InNet(a, n) <==> a.v6 == n.v6 && n.base <= a.value < n.base + Pow2(Bits(n.v6) - n.prefix)
  {
    DivRange(a.value, n.base, Pow2(Bits(n.v6) - n.prefix));
  }

  /** A full-length prefix holds the address itself, an IPv4 prefix of 24 bits 256. */
  lemma NetSizes(a: Addr, n: Net)
    requires NetOk(n)
    ensures n.prefix == Bits(n.v6) ==> (InNet(a, n) <==> a == Addr(n.v6, n.base))
    ensures !n.v6 && n.prefix == 24 ==> (InNet(a, n) <==> !a.v6 && n.base <= a.value < n.base + 256)
  {
    InNetIsRange(a, n);
    assert Pow2(8) == 256;
  }

  datatype ScopeList = ScopeList(domains: seq<string>, nets: seq<Net>, hosts: seq<string>)

  /** The RoE's scope section, with the two parsers of Python's libraries that the
      decision uses: `extract_host` and `ipaddress.ip_address`. */
  datatype Roe = Roe(inScope: ScopeList, excluded: ScopeList,
                     hostOf: string -> string, parseIp: string -> Option<Addr>)

  /** `_host_matches_pattern`. */
  predicate HostMatches(host: string, pattern: string) {
    var h, p := CanonHost(host), CanonHost(pattern);
    if |p| >= 2 && p[..2] == "*." then Below(h, p[2..]) else h == p
  }

  lemma CanonWildcard(base: string)
    requires CanonHost(base) != ""
    ensures CanonHost("*." + base) == "*." + CanonHost(base)
  {
    RStripPrefix("*.", base);
    var t := RStripDots(base);
    assert Lower("*." + t) == "*." + Lower(t);
  }

  lemma {:induction false} RStripPrefix(a: string, b: string)
    requires RStripDots(b) != ""
    ensures RStripDots(a + b) == a + RStripDots(b)
  {
    if b[|b| - 1] == '.' {
      assert (a + b)[..|a + b| - 1] == a + b[..|b| - 1];
      RStripPrefix(a, b[..|b| - 1]);
    }
  }

  /** A wildcard covers exactly the hosts with further labels in front of the base: not
      the base itself, and not a name that merely ends in the same letters. */
  lemma WildcardIsStrict(host: string, base: string)
    requires CanonHost(base) != ""
    ensures HostMatches(host, "*." + base) <==>
      exists p :: p != [] && Labels(CanonHost(host)) == p + Labels(CanonHost(base))
    ensures !HostMatches(base, "*." + base)
  {
    CanonWildcard(base);
    var p := CanonHost("*." + base);
    assert p[..2] == "*." && p[2..] == CanonHost(base);
    BelowIsLabelSuffix(CanonHost(host), CanonHost(base));
  }

  ghost predicate Named(host: string, l: ScopeList) {
    host in l.hosts || exists i :: 0 <= i < |l.domains| && HostMatches(host, l.domains[i])
  }

  ghost predicate InAnyNet(a: Addr, nets: seq<Net>) {
    exists i :: 0 <= i < |nets| && InNet(a, nets[i])
  }

  /** The addresses looked at: the host itself if it is one, and the resolved ones. */
  ghost predicate IsCandidate(r: Roe, host: string, ips: set<string>, a: Addr) {
    r.parseIp(host) == Some(a) || exists s :: s in ips && r.parseIp(s) == Some(a)
  }

  ghost predicate Covered(r: Roe, host: string, ips: set<string>, l: ScopeList) {
    || (r.parseIp(host).None? && Named(host, l))
    || exists a :: IsCandidate(r, host, ips, a) && InAnyNet(a, l.nets)
  }

  /** The decision: exclusions win, anything not provably in scope is flagged. The order
      and repetition of the resolved addresses do not matter. */
  ghost function StatusOf(r: Roe, target: string, ips: set<string>): ScopeStatus {
    var host := r.hostOf(target);
    if Covered(r, host, ips, r.excluded) then Excluded
    else if Covered(r, host, ips, r.inScope) then InScope
    else Flagged
  }

  ghost predicate SubList(a: ScopeList, b: ScopeList) {
    && (forall x :: x in a.hosts ==> x in b.hosts)
    && (forall x :: x in a.domains ==> x in b.domains)
    && (forall x :: x in a.nets ==> x in b.nets)
  }

  lemma CoveredGrows(r: Roe, host: string, ips: set<string>, more: set<string>, a: ScopeList, b: ScopeList)
    requires SubList(a, b) && ips <= more && Covered(r, host, ips, a)
    ensures Covered(r, host, more, b)
  {
    if !(r.parseIp(host).None? && Named(host, a)) {
      var x :| IsCandidate(r, host, ips, x) && InAnyNet(x, a.nets);
      assert IsCandidate(r, host, more, x);
      var i :| 0 <= i < |a.nets| && InNet(x, a.nets[i]);
      assert a.nets[i] in b.nets;
      var j :| 0 <= j < |b.nets| && b.nets[j] == a.nets[i];
      assert InAnyNet(x, b.nets);
    } else if host !in a.hosts {
      var i :| 0 <= i < |a.domains| && HostMatches(host, a.domains[i]);
      assert a.domains[i] in b.domains;
      var j :| 0 <= j < |b.domains| && b.domains[j] == a.domains[i];
    }
  }

  // ------------------------------------------------ the decision in plain terms

  predicate IsWildcard(pattern: string) {
    var p := CanonHost(pattern);
    |p| >= 2 && p[..2] == "*."
  }

  /** What a pattern covers, label by label. */
  ghost predicate CoversLabels(pattern: string, host: string) {
    var p, h := CanonHost(pattern), CanonHost(host);
    if IsWildcard(pattern) then exists front :: front != [] && Labels(h) == front + Labels(p[2..])
    else Labels(h) == Labels(p)
  }

  lemma SameLabels(a: string, b: string)
    ensures Labels(a) == Labels(b) <==> a == b
  {
    JoinSplit(a, '.');
    JoinSplit(b, '.');
  }

  /** A plain pattern covers exactly the hosts with the same labels, a wildcard exactly those
      with further labels in front. */
  lemma PatternCoversExactly(host: string, pattern: string)
    ensures HostMatches(host, pattern) <==> CoversLabels(pattern, host)
  {
    if IsWildcard(pattern) {
      BelowIsLabelSuffix(CanonHost(host), CanonHost(pattern)[2..]);
    } else {
      SameLabels(CanonHost(host), CanonHost(pattern));
    }
  }

  /** Equal up to the case of letters. */
  predicate SameButCase(a: string, b: string) {
    |a| == |b| && forall i :: 0 <= i < |a| ==> SameLetter(a[i], b[i])
  }

  predicate SameLetter(x: char, y: char) {
    || x == y
    || ('A' <= x <= 'Z' && y as int == x as int + 32)
    || ('A' <= y <= 'Z' && x as int == y as int + 32)
  }

  lemma {:induction false} CaseKeepsDots(a: string, b: string)
    requires SameButCase(a, b)
    ensures SameButCase(RStripDots(a), RStripDots(b))
  {
    if a != "" && a[|a| - 1] == '.' {
      CaseKeepsDots(a[..|a| - 1], b[..|b| - 1]);
    }
  }

  lemma CanonIgnoresCase(a: string, b: string)
    requires SameButCase(a, b)
    ensures CanonHost(a) == CanonHost(b)
  {
    CaseKeepsDots(a, b);
  }

  lemma CanonIgnoresDot(a: string)
    ensures CanonHost(a + ".") == CanonHost(a)
  {
    assert (a + ".")[..|a|] == a;
  }

  /** The case of letters and a final dot, of the host or of the pattern, change no match. */
  lemma SpellingDoesNotMatter(host: string, other: string, pattern: string, same: string)
    requires SameButCase(host, other) && SameButCase(pattern, same)
    ensures HostMatches(host, pattern) <==> HostMatches(other, same)
    ensures HostMatches(host + ".", pattern) <==> HostMatches(host, pattern)
    ensures HostMatches(host, pattern + ".") <==> HostMatches(host, pattern)
  {
    CanonIgnoresCase(host, other);
    CanonIgnoresCase(pattern, same);
    CanonIgnoresDot(host);
    CanonIgnoresDot(pattern);
  }

  /** The host is an address, or one of the resolved addresses is, in this network's range. */
  ghost predicate AddressInside(r: Roe, host: string, ips: set<string>, n: Net) {
    exists a :: (r.parseIp(host) == Some(a) || exists ip :: ip in ips && r.parseIp(ip) == Some(a)) &&
      n.prefix <= Bits(n.v6) && a.v6 == n.v6 && n.base <= a.value < n.base + Pow2(Bits(n.v6) - n.prefix)
  }

  /** The list speaks of the host: it is no address and is listed or covered by a pattern, or
      an address of it lies in a listed network. */
  ghost predicate Lists(r: Roe, l: ScopeList, host: string, ips: set<string>) {
    || (r.parseIp(host).None? && (host in l.hosts || exists d :: d in l.domains && CoversLabels(d, host)))
    || exists n :: n in l.nets && AddressInside(r, host, ips, n)
  }

  ghost predicate ListOk(l: ScopeList) {
    forall n :: n in l.nets ==> NetOk(n)
  }

  lemma NamedIs(host: string, l: ScopeList)
    ensures Named(host, l) <==> host in l.hosts || exists d :: d in l.domains && CoversLabels(d, host)
  {
    if i :| 0 <= i < |l.domains| && HostMatches(host, l.domains[i]) {
      PatternCoversExactly(host, l.domains[i]);
    }
    if d :| d in l.domains && CoversLabels(d, host) {
      PatternCoversExactly(host, d);
      var i :| 0 <= i < |l.domains| && l.domains[i] == d;
    }
  }

  lemma InsideIs(r: Roe, host: string, ips: set<string>, l: ScopeList)
    requires ListOk(l)
    ensures (exists a :: IsCandidate(r, host, ips, a) && InAnyNet(a, l.nets)) <==>
      exists n :: n in l.nets && AddressInside(r, host, ips, n)
  {
    if a :| IsCandidate(r, host, ips, a) && InAnyNet(a, l.nets) {
      var i :| 0 <= i < |l.nets| && InNet(a, l.nets[i]);
      InNetIsRange(a, l.nets[i]);
      assert AddressInside(r, host, ips, l.nets[i]);
    }
    if n :| n in l.nets && AddressInside(r, host, ips, n) {
      var a :| IsCandidate(r, host, ips, a) && a.v6 == n.v6 && n.base <= a.value < n.base + Pow2(Bits(n.v6) - n.prefix);
      InNetIsRange(a, n);
      var i :| 0 <= i < |l.nets| && l.nets[i] == n;
      assert InAnyNet(a, l.nets);
    }
  }

  lemma CoveredIs(r: Roe, host: string, ips: set<string>, l: ScopeList)
    requires ListOk(l)
    ensures Covered(r, host, ips, l) <==> Lists(r, l, host, ips)
  {
    NamedIs(host, l);
    InsideIs(r, host, ips, l);
  }

  /** The decision: EXCLUDED exactly if the exclusions speak of the host, IN_SCOPE exactly if
      only the in-scope lists do, and otherwise FLAGGED. */
  lemma DecisionExactly(r: Roe, target: string, ips: set<string>)
    requires ListOk(r.inScope) && ListOk(r.excluded)
    ensures var host, status := r.hostOf(target), StatusOf(r, target, ips);
      && (status == Excluded <==> Lists(r, r.excluded, host, ips))
      && (status == InScope <==> Lists(r, r.inScope, host, ips) && !Lists(r, r.excluded, host, ips))
      && (status == Flagged <==> !Lists(r, r.inScope, host, ips) && !Lists(r, r.excluded, host, ips))
  {
    CoveredIs(r, r.hostOf(target), ips, r.excluded);
    CoveredIs(r, r.hostOf(target), ips, r.inScope);
  }

  /** With plain domains only, a name strictly below one of them, or one that merely ends in
      its letters, is not in scope. */
  lemma PlainDomainsAreExact(r: Roe, target: string, ips: set<string>)
    requires r.inScope.hosts == [] && r.inScope.nets == [] && forall d :: d in r.inScope.domains ==> !IsWildcard(d)
    ensures StatusOf(r, target, ips) == InScope ==>
      exists d :: d in r.inScope.domains && CanonHost(r.hostOf(target)) == CanonHost(d)
    ensures (forall d :: d in r.inScope.domains ==> |CanonHost(r.hostOf(target))| > |CanonHost(d)|) ==>
      StatusOf(r, target, ips) != InScope
  {
    NamedIs(r.hostOf(target), r.inScope);
    if d :| d in r.inScope.domains && CoversLabels(d, r.hostOf(target)) {
      SameLabels(CanonHost(r.hostOf(target)), CanonHost(d));
    }
  }

  /** Widening the exclusions can only turn a decision into EXCLUDED; widening the
      in-scope lists never touches EXCLUDED and never takes IN_SCOPE away. */
  lemma ScopeMonotone(r: Roe, wider: Roe, target: string, ips: set<string>)
    requires wider.hostOf == r.hostOf && wider.parseIp == r.parseIp
    requires SubList(r.excluded, wider.excluded) && SubList(r.inScope, wider.inScope)
    ensures StatusOf(r, target, ips) == Excluded ==> StatusOf(wider, target, ips) == Excluded
    ensures StatusOf(r, target, ips) == InScope ==> StatusOf(wider, target, ips) in {InScope, Excluded}
    ensures wider.excluded == r.excluded && StatusOf(wider, target, ips) == Excluded ==>
      StatusOf(r, target, ips) == Excluded
    ensures wider.inScope == r.inScope && StatusOf(wider, target, ips) != Excluded ==>
      StatusOf(wider, target, ips) == StatusOf(r, target, ips)
  {
    var host := r.hostOf(target);
    if Covered(r, host, ips, r.excluded) {
      CoveredGrows(r, host, ips, ips, r.excluded, wider.excluded);
    }
    if Covered(r, host, ips, r.inScope) {
      CoveredGrows(r, host, ips, ips, r.inScope, wider.inScope);
    }
    CoveredSame(r, wider, host, ips, wider.excluded);
    CoveredSame(r, wider, host, ips, wider.inScope);
  }

  lemma CoveredSame(r: Roe, q: Roe, host: string, ips: set<string>, l: ScopeList)
    requires q.parseIp == r.parseIp
    ensures Covered(q, host, ips, l) <==> Covered(r, host, ips, l)
  {
    forall a ensures IsCandidate(q, host, ips, a) <==> IsCandidate(r, host, ips, a) {
    }
  }

  /** Learning more addresses of a host never lifts an exclusion. */
  lemma {:induction false} MoreAddressesStayExcluded(r: Roe, target: string, ips: set<string>, more: set<string>)
    requires ips <= more && StatusOf(r, target, ips) == Excluded
    ensures StatusOf(r, target, more) == Excluded
  {
    CoveredGrows(r, r.hostOf(target), ips, more, r.excluded, r.excluded);
  }

  // ----------------------------------------------------------- the loops

  /** `_ip_in_any`: whether some network holds the address. */
  method IpInAny(a: Addr, nets: seq<Net>) returns (hit: bool)
    ensures hit <==> InAnyNet(a, nets)
  {
    for i := 0 to |nets|
      invariant forall j :: 0 <= j < i ==> !InNet(a, nets[j])
    {
      if InNet(a, nets[i]) { return true; }
    }
    hit := false;
  }

  method HostNamed(host: string, l: ScopeList) returns (hit: bool)
    ensures hit <==> Named(host, l)
  {
    if host in l.hosts { return true; }
    for i := 0 to |l.domains|
      invariant forall j :: 0 <= j < i ==> !HostMatches(host, l.domains[j])
    {
      if HostMatches(host, l.domains[i]) { return true; }
    }
    hit := false;
  }

  method AnyInNets(candidates: seq<Addr>, nets: seq<Net>) returns (hit: bool)
    ensures hit <==> exists a :: a in candidates && InAnyNet(a, nets)
  {
    for i := 0 to |candidates|
      invariant forall j :: 0 <= j < i ==> !InAnyNet(candidates[j], nets)
    {
      hit := IpInAny(candidates[i], nets);
      if hit {
        assert candidates[i] in candidates;
        return;
      }
    }
    hit := false;
  }

  /** `ScopeManager.classify`. */
  method Classify(r: Roe, target: string, resolvedIps: seq<string>) returns (status: ScopeStatus)
    ensures status == StatusOf(r, target, Elems(resolvedIps))
  {
    var host := r.hostOf(target);
    var ip := r.parseIp(host);
    var candidates := if ip.Some? then [ip.value] else [];
    for i := 0 to |resolvedIps|
      invariant forall a :: a in candidates <==> IsCandidate(r, host, Elems(resolvedIps[..i]), a)
    {
      var parsed := r.parseIp(resolvedIps[i]);
      assert Elems(resolvedIps[..i + 1]) == Elems(resolvedIps[..i]) + {resolvedIps[i]};
      if parsed.Some? {
        candidates := candidates + [parsed.value];
      }
    }
    assert resolvedIps[..|resolvedIps|] == resolvedIps;

    if ip.None? {
      var named := HostNamed(host, r.excluded);
      if named { return Excluded; }
    }
    var hit := AnyInNets(candidates, r.excluded.nets);
    if hit { return Excluded; }
    if ip.None? {
      var named := HostNamed(host, r.inScope);
      if named { return InScope; }
    }
    hit := AnyInNets(candidates, r.inScope.nets);
    if hit { return InScope; }
    status := Flagged;
  }
}
