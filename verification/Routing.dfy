/** Where the Correlation Engine puts a row of evidence
    (recon/correlation/engine.py:308-394): asset keys, a parent reference, and
    relationship hints. */
module Routing {
  import opened Prelude
  import opened Text

  datatype AssetType = Domain | Subdomain | Ip | Url | Service | Finding | Organization | Person | Email
    | Repository | Netblock | Document | Social

  function TypeNamed(name: string): Option<AssetType> {
    if name == "domain" then Some(Domain) else if name == "subdomain" then Some(Subdomain)
    else if name == "ip" then Some(Ip) else if name == "url" then Some(Url)
    else if name == "service" then Some(Service) else if name == "finding" then Some(Finding)
    else if name == "organization" then Some(Organization) else if name == "person" then Some(Person)
    else if name == "email" then Some(Email) else if name == "repository" then Some(Repository)
    else if name == "netblock" then Some(Netblock) else if name == "document" then Some(Document)
    else if name == "social" then Some(Social) else None
  }

  /** `_type_from_name`: a name that is no type stands for a finding. */
  function TypeFromName(name: string): AssetType {
    match TypeNamed(name) case None => Finding case Some(t) => t
  }

  function NameOf(t: AssetType): (name: string)
    ensures TypeNamed(name) == Some(t)
  {
    match t
    case Domain => "domain" case Subdomain => "subdomain" case Ip => "ip" case Url => "url"
    case Service => "service" case Finding => "finding" case Organization => "organization"
    case Person => "person" case Email => "email" case Repository => "repository"
    case Netblock => "netblock" case Document => "document" case Social => "social"
  }

  /** `_SUBJECT_ASSET`. */
  function SubjectAsset(subject: string): Option<AssetType> {
    if subject == "endpoint" || subject == "http_endpoint" then Some(Url)
    else if subject == "finding" then None
    else TypeNamed(subject)
  }

  /** `_ATTRIBUTE_TYPES`. */
  predicate IsAttribute(s: string) {
    || s == "http_header" || s == "security_header" || s == "tls_cert" || s == "cookie" || s == "form"
    || s == "tech" || s == "robots" || s == "sitemap" || s == "http_method" || s == "redirect" || s == "title"
    || s == "liveness" || s == "spf" || s == "dmarc" || s == "dkim" || s == "mta_sts" || s == "tls_rpt"
  }

  const EVIDENCE_ONLY := "unverified_search_hit"

  /** The parsers of Python's libraries behind the canonical forms: an address and a network
      in their normal spelling, and a normalised URL. */
  datatype Env = Env(canonIp: string -> string, canonUrl: string -> string, canonNet: string -> string)

  function CanonHostName(value: string): string {
    Lower(RStripDots(Strip(value)))
  }

  /** `_canon`. */
  function Canon(e: Env, t: AssetType, value: string): string {
    match t
    case Domain | Subdomain => CanonHostName(value)
    case Ip => e.canonIp(value)
    case Url => e.canonUrl(value)
    case Service | Email => Lower(Strip(value))
    case Netblock => e.canonNet(value)
    case Organization => Lower(Join(Words(value), ' '))
    case Finding | Person | Repository | Document | Social => Strip(value)
  }

  datatype Key = Key(kind: AssetType, value: string)

  /** An explicit hint in a row's raw data. */
  datatype RawHint = RawHint(rel: string, targetType: string, targetValue: string)

  /** A relationship hint: names and values, not yet assets. */
  datatype Hint = Hint(srcType: string, srcValue: string, rel: string, tgtType: string, tgtValue: string)

  /** One row of evidence. `source` and `interest` are optional fields of its raw data;
      `name`, `rtype` and `target` those of a DNS record, `parent` of a subdomain, and
      `ref` the `url` or `host` an attribute row refers to ("" when missing). */
  datatype Evidence = Evidence(id: nat, subject: string, value: string, absent: bool, module_: string,
                               source: Option<string>, at: real, interest: Option<string>, hints: seq<RawHint>,
                               name: Option<string>, rtype: string, target: string, parent: string, ref: string)

  predicate ManyDots(host: string) {
    CountChar(host, '.') >= 2
  }

  function HostType(host: string): AssetType {
    if ManyDots(host) then Subdomain else Domain
  }

  function AfterDot(s: string): string {
    if s == "" then "" else if s[0] == '.' then s[1..] else AfterDot(s[1..])
  }

  predicate HasScheme(ref: string) {
    |ref| >= 3 && (ref[..3] == "://" || HasScheme(ref[1..]))
  }

  // ------------------------------------------------------------------------ DNS

  predicate DnsUsable(ev: Evidence) {
    DnsName(ev) != "" && Strip(ev.target) != ""
  }

  function DnsName(ev: Evidence): string {
    CanonHostName(match ev.name case None => ev.value case Some(n) => n)
  }

  /** The host an MX record names: the last word of its target. */
  function MxHost(ev: Evidence): string {
    var words := Words(Strip(ev.target));
    if words == [] then "" else CanonHostName(words[|words| - 1])
  }

  /** The other end of a DNS record: its key, the type its hint names, and the relation. */
  datatype DnsTarget = DnsTarget(key: Key, named: string, rel: string)

  function TargetOf(e: Env, ev: Evidence): Option<DnsTarget> {
    if ev.rtype == "A" || ev.rtype == "AAAA" then
      Some(DnsTarget(Key(Ip, e.canonIp(Strip(ev.target))), "ip", "resolves_to"))
    else if ev.rtype == "CNAME" then
      var host := CanonHostName(Strip(ev.target));
      Some(DnsTarget(Key(HostType(host), host), "subdomain", "resolves_to"))
    else if ev.rtype == "MX" && MxHost(ev) != "" then
      Some(DnsTarget(Key(HostType(MxHost(ev)), MxHost(ev)), "subdomain", "serves"))
    else None
  }

  function DnsKeys(e: Env, ev: Evidence): seq<Key> {
    if !DnsUsable(ev) then []
    else
      [Key(HostType(DnsName(ev)), DnsName(ev))] +
      (match TargetOf(e, ev) case None => [] case Some(t) => [t.key])
  }

  function DnsHints(e: Env, ev: Evidence): seq<Hint> {
    if !DnsUsable(ev) then []
    else
      match TargetOf(e, ev)
      case None => []
      case Some(t) => [Hint(NameOf(HostType(DnsName(ev))), DnsName(ev), t.rel, t.named, t.key.value)]
  }

  // -------------------------------------------------------------------- routing

  /** The keys of the groups a row joins. */
  function KeysFrom(e: Env, ev: Evidence): seq<Key> {
    if ev.subject == EVIDENCE_ONLY then []
    else if ev.absent then [Key(Finding, ev.subject + [':'] + CanonHostName(ev.value))]
    else if ev.subject == "secret" then [Key(Finding, "secret:" + ev.value)]
    else if ev.subject == "dns_record" then DnsKeys(e, ev)
    else if IsAttribute(ev.subject) then []
    else
      match SubjectAsset(ev.subject)
      case None => [Key(Finding, ev.subject + [':'] + ev.value)]
      case Some(t) => [Key(t, Canon(e, t, ev.value))]
  }

  /** The parent an attribute row refers to. */
  function RefFrom(e: Env, ev: Evidence): Option<string> {
    if ev.subject == EVIDENCE_ONLY || ev.absent || !IsAttribute(ev.subject) then None
    else
      var ref := if ev.ref != "" then ev.ref else ev.value;
      Some(if HasScheme(ref) then e.canonUrl(ref) else CanonHostName(ref))
  }

  function ExplicitHint(e: Env, ev: Evidence, h: RawHint): Hint {
    var t := SubjectAsset(ev.subject);
    Hint(if t.Some? then NameOf(t.value) else ev.subject,
         Canon(e, if t.Some? then t.value else Finding, ev.value),
         h.rel, h.targetType, Canon(e, TypeFromName(h.targetType), h.targetValue))
  }

  function ParentHints(ev: Evidence): seq<Hint> {
    var host := CanonHostName(ev.value);
    var parent := if ev.parent != "" then ev.parent else if ManyDots(host) then AfterDot(host) else "";
    if parent == "" then [] else [Hint("subdomain", host, "subdomain_of", "domain", CanonHostName(parent))]
  }

  /** The hints a row gives: explicit ones, also for an absent subject, and derived ones. */
  function HintsFrom(e: Env, ev: Evidence): seq<Hint> {
    if ev.subject == EVIDENCE_ONLY then []
    else
      seq(|ev.hints|, i requires 0 <= i < |ev.hints| => ExplicitHint(e, ev, ev.hints[i]))
      + (if ev.absent then []
         else if ev.subject == "dns_record" then DnsHints(e, ev)
         else if ev.subject == "subdomain" then ParentHints(ev)
         else [])
  }
}
