/** recon/net/http_client.py: the scope-gated, audited, rate-limited request path, and how
    it couples the token bucket to the back-off controller. */
module HttpClient {
  import opened Prelude
  import opened Scope
  import RateLimit
  import Backoff

  // ------------------------------------------- bucket and controller together

  /** The state that all outbound traffic of a run shares. */
  datatype Traffic = Traffic(bucket: RateLimit.Bucket, controller: Backoff.Controller)

  /** A turn of somebody's `acquire`, or a recorded outcome followed by `update_rate`. */
  datatype TrafficEvent = Turn(now: real) | Recorded(outcome: Backoff.Outcome)

  function NewTraffic(baseRate: real, now: real): Traffic {
    Traffic(RateLimit.NewBucket(baseRate, now), Backoff.NewController(baseRate))
  }

  function Step(c: Backoff.Config, t: Traffic, e: TrafficEvent): Traffic {
    match e
    case Turn(now) => t.(bucket := RateLimit.Poll(t.bucket, now))
    case Recorded(o) =>
      var controller := Backoff.Feed(c, t.controller, o);
      Traffic(RateLimit.SetRate(t.bucket, controller.current), controller)
  }

  ghost function Run(c: Backoff.Config, t: Traffic, es: seq<TrafficEvent>): Traffic
    decreases |es|
  {
    if es == [] then t else Run(c, Step(c, t, es[0]), es[1..])
  }

  /** Granted turns, whoever asked. */
  ghost function Grants(c: Backoff.Config, t: Traffic, es: seq<TrafficEvent>): nat
    decreases |es|
  {
    if es == [] then 0
    else (if es[0].Turn? && RateLimit.Grants(t.bucket, es[0].now) then 1 else 0) + Grants(c, Step(c, t, es[0]), es[1..])
  }

  ghost predicate Timed(es: seq<TrafficEvent>, from: real, until: real)
    decreases |es|
  {
    es != [] ==>
      match es[0]
      case Turn(now) => from <= now <= until && Timed(es[1..], now, until)
      case Recorded(_) => Timed(es[1..], from, until)
  }

  /** The limiter's view of the events. */
  ghost function View(c: Backoff.Config, s: Backoff.Controller, es: seq<TrafficEvent>): seq<RateLimit.Event>
    decreases |es|
  {
    if es == [] then []
    else
      match es[0]
      case Turn(now) => [RateLimit.Turn(now)] + View(c, s, es[1..])
      case Recorded(o) => [RateLimit.Rate(Backoff.Feed(c, s, o).current)] + View(c, Backoff.Feed(c, s, o), es[1..])
  }

  lemma {:induction false} ViewIsFaithful(c: Backoff.Config, t: Traffic, es: seq<TrafficEvent>)
    ensures Grants(c, t, es) == RateLimit.Count(t.bucket, View(c, t.controller, es))
    ensures Run(c, t, es).bucket == RateLimit.Run(t.bucket, View(c, t.controller, es))
    decreases |es|
  {
    if es != [] {
      ViewIsFaithful(c, Step(c, t, es[0]), es[1..]);
      var v := View(c, t.controller, es);
      assert v[1..] == View(c, Step(c, t, es[0]).controller, es[1..]);
    }
  }

  lemma {:induction false} ViewIsTimed(c: Backoff.Config, s: Backoff.Controller, es: seq<TrafficEvent>, from: real,
      until: real)
    requires Backoff.Sensible(c) && Backoff.Inv(c, s) && Timed(es, from, until)
    ensures RateLimit.Timed(View(c, s, es), from, until, s.base)
    decreases |es|
  {
    if es != [] {
      var v := View(c, s, es);
      match es[0]
      case Turn(now) =>
        ViewIsTimed(c, s, es[1..], now, until);
        assert v[1..] == View(c, s, es[1..]);
      case Recorded(o) =>
        var t := Backoff.Feed(c, s, o);
        Backoff.RecordInv(c, s, o.now, o.throttled, o.connectionError);
        ViewIsTimed(c, t, es[1..], from, until);
        assert v[1..] == View(c, t, es[1..]);
    }
  }

  ghost predicate TrafficInv(c: Backoff.Config, t: Traffic) {
    Backoff.Inv(c, t.controller) && RateLimit.Fed(t.bucket, t.controller.base)
  }

  lemma StepKeepsInv(c: Backoff.Config, t: Traffic, e: TrafficEvent)
    requires Backoff.Sensible(c) && TrafficInv(c, t) && (e.Turn? ==> t.bucket.updated <= e.now)
    ensures TrafficInv(c, Step(c, t, e)) && Step(c, t, e).controller.base == t.controller.base
    ensures Step(c, t, e).bucket.updated == if e.Turn? then e.now else t.bucket.updated
  {
    match e {
      case Turn(now) => RateLimit.RefillFed(t.bucket, now, t.controller.base);
      case Recorded(o) => Backoff.RecordInv(c, t.controller, o.now, o.throttled, o.connectionError);
    }
  }

  lemma {:induction false} RunKeepsInv(c: Backoff.Config, t: Traffic, es: seq<TrafficEvent>, until: real)
    requires Backoff.Sensible(c) && TrafficInv(c, t) && t.bucket.updated <= until && Timed(es, t.bucket.updated, until)
    ensures TrafficInv(c, Run(c, t, es)) && Run(c, t, es).controller.base == t.controller.base
    ensures Run(c, t, es).bucket.updated <= until
    decreases |es|
  {
    if es != [] {
      StepKeepsInv(c, t, es[0]);
      RunKeepsInv(c, Step(c, t, es[0]), es[1..], until);
    }
  }

  lemma FreshTrafficInv(c: Backoff.Config, baseRate: real, start: real)
    requires Backoff.Sensible(c)
    ensures var t := NewTraffic(baseRate, start);
      TrafficInv(c, t) && t.controller.base == RateLimit.Clamp(baseRate) && t.bucket.updated == start
  {
    Backoff.NewInv(c, baseRate);
  }

  lemma WindowFrom(c: Backoff.Config, t: Traffic, window: seq<TrafficEvent>, from: real, until: real)
    requires Backoff.Sensible(c) && TrafficInv(c, t) && t.bucket.updated <= from <= until && Timed(window, from, until)
    ensures Grants(c, t, window) as real <= RateLimit.Allowance(t.controller.base, from, until)
  {
    ViewIsFaithful(c, t, window);
    ViewIsTimed(c, t.controller, window, from, until);
    RateLimit.WindowBound(t.bucket, View(c, t.controller, window), from, until, t.controller.base);
  }

  /** The RoE's ceiling, for any traffic before and in the window, any answers and any
      back-off: at most `base * (T + 1)` grants in a window of length T. */
  lemma ComposedWindowBound(c: Backoff.Config, baseRate: real, start: real, before: seq<TrafficEvent>,
      window: seq<TrafficEvent>, from: real, until: real)
    requires Backoff.Sensible(c) && start <= from <= until
    requires Timed(before, start, from) && Timed(window, from, until)
    ensures var t := Run(c, NewTraffic(baseRate, start), before);
      Grants(c, t, window) as real <= RateLimit.Allowance(RateLimit.Clamp(baseRate), from, until)
  {
    FreshTrafficInv(c, baseRate, start);
    RunKeepsInv(c, NewTraffic(baseRate, start), before, from);
    WindowFrom(c, Run(c, NewTraffic(baseRate, start), before), window, from, until);
  }

  // --------------------------------------------------------------- progress

  function TimeOf(e: TrafficEvent): real {
    match e case Turn(now) => now case Recorded(o) => o.now
  }

  /** Traffic of requests: the clock does not go back, and every outcome is that of a hop
      whose turn was granted before; `held` counts granted turns without their outcome. */
  ghost predicate Genuine(c: Backoff.Config, t: Traffic, es: seq<TrafficEvent>, from: real, held: nat)
    decreases |es|
  {
    es != [] ==>
      && from <= TimeOf(es[0])
      && (es[0].Recorded? ==> held > 0)
      && Genuine(c, Step(c, t, es[0]), es[1..], TimeOf(es[0]), HeldAfter(t, es[0], held))
  }

  function HeldAfter(t: Traffic, e: TrafficEvent, held: nat): nat {
    match e
    case Turn(now) => if RateLimit.Grants(t.bucket, now) then held + 1 else held
    case Recorded(_) => if held > 0 then held - 1 else 0
  }

  /** The limiter runs at the controller's rate. */
  ghost predicate Synced(t: Traffic) {
    t.bucket.rate == RateLimit.Clamp(t.controller.current) && t.bucket.tokens >= 0.0
  }

  ghost function OutcomesOf(es: seq<TrafficEvent>): seq<Backoff.Outcome>
    decreases |es|
  {
    if es == [] then []
    else (match es[0] case Turn(_) => [] case Recorded(o) => [o]) + OutcomesOf(es[1..])
  }

  lemma {:induction false} RunController(c: Backoff.Config, t: Traffic, es: seq<TrafficEvent>)
    ensures Run(c, t, es).controller == Backoff.FeedAll(c, t.controller, OutcomesOf(es))
    decreases |es|
  {
    if es != [] {
      RunController(c, Step(c, t, es[0]), es[1..]);
      var os := OutcomesOf(es);
      match es[0] {
        case Turn(_) => assert os == OutcomesOf(es[1..]);
        case Recorded(o) => assert os[0] == o && os[1..] == OutcomesOf(es[1..]);
      }
    }
  }

  lemma {:induction false} RunSynced(c: Backoff.Config, t: Traffic, es: seq<TrafficEvent>)
    requires t.bucket.rate == RateLimit.Clamp(t.controller.current)
    ensures Run(c, t, es).bucket.rate == RateLimit.Clamp(Run(c, t, es).controller.current)
    decreases |es|
  {
    if es != [] { RunSynced(c, Step(c, t, es[0]), es[1..]); }
  }

  /** A second's wait is worth a token at a rate of one or more. */
  lemma GrantsAfterSecond(b: RateLimit.Bucket, now: real)
    requires b.rate >= 1.0 && b.tokens >= 0.0 && now >= b.updated + 1.0
    ensures RateLimit.Grants(b, now) && RateLimit.Poll(b, now).tokens >= 0.0
  {
    var d := now - b.updated;
    assert (d - 1.0) * b.rate >= 0.0;
    assert d * b.rate == b.rate + (d - 1.0) * b.rate;
    assert RateLimit.Credit(b.rate, b.updated, now) == d * b.rate;
  }

  /** One more request, answered 429. */
  function Refused(t: Traffic, now: real): seq<TrafficEvent> {
    [Turn(now), Recorded(Backoff.Outcome(now, true, false))]
  }

  lemma RefusedRequest(c: Backoff.Config, t: Traffic, now: real, rest: seq<TrafficEvent>)
    requires Synced(t) && t.controller.current >= 1.0 && now >= t.bucket.updated + 1.0
    ensures var o := Backoff.Outcome(now, true, false);
      var u := Run(c, t, Refused(t, now));
      && u.controller == Backoff.Feed(c, t.controller, o) && Synced(u) && u.bucket.updated == now
      && Run(c, t, Refused(t, now) + rest) == Run(c, u, rest)
      && (Genuine(c, u, rest, now, 0) ==> Genuine(c, t, Refused(t, now) + rest, t.bucket.updated, 0))
  {
    GrantsAfterSecond(t.bucket, now);
    var es := Refused(t, now);
    var long := es + rest;
    var v := Step(c, t, es[0]);
    var u := Step(c, v, es[1]);
    assert es[1..] == [es[1]] && es[1..][1..] == [];
    assert Run(c, v, es[1..]) == u && Run(c, t, es) == u;
    assert long[0] == es[0] && long[1..][0] == es[1] && long[1..][1..] == rest;
    assert Run(c, v, long[1..]) == Run(c, u, rest);
  }

  /** Requests that are answered 429 bring the limiter's rate below one, if the floor is. */
  lemma {:induction false} Throttling(c: Backoff.Config, t: Traffic, n: nat) returns (es: seq<TrafficEvent>)
    requires Synced(t) && Backoff.Floor(c, t.controller) < 1.0
    requires Backoff.AfterCuts(t.controller.current, c.cut, n) < 1.0
    ensures Genuine(c, t, es, t.bucket.updated, 0) && Run(c, t, es).controller.current < 1.0
    decreases n
  {
    es := [];
    if t.controller.current >= 1.0 {
      if n == 0 { Backoff.NoCutsLeft(t.controller.current, c.cut); }
      var now := Backoff.Max(t.bucket.updated + 1.0, t.controller.cooldownUntil);
      Backoff.ThrottledCuts(c, t.controller, now, n);
      RefusedRequest(c, t, now, []);
      var u := Run(c, t, Refused(t, now));
      Backoff.SameFloor(c, t.controller, u.controller);
      var rest := [];
      if u.controller.current != Backoff.Floor(c, t.controller) {
        rest := Throttling(c, u, n - 1);
      }
      RefusedRequest(c, t, now, rest);
      es := Refused(t, now) + rest;
    }
  }

  /** `acquire` returns, at the latest after one sleep. */
  ghost predicate Progresses(b: RateLimit.Bucket)
    requires b.rate > 0.0
  {
    forall clock :: |clock| >= 2 && RateLimit.Honoured(b, clock) ==> RateLimit.Acquire(b, clock).1.Some?
  }

  /** `acquire` never returns. */
  ghost predicate Blocks(b: RateLimit.Bucket) {
    forall clock :: RateLimit.Acquire(b, clock).1.None?
  }

  lemma BlocksBelowOne(b: RateLimit.Bucket)
    requires b.rate < 1.0
    ensures Blocks(b)
  {
    forall clock ensures RateLimit.Acquire(b, clock).1.None? {
      RateLimit.DeadBelowOne(b, clock);
    }
  }

  /** Where traffic from a fresh client leads, progress or blocking is a matter of the rate. */
  lemma ProgressByRate(c: Backoff.Config, baseRate: real, start: real, es: seq<TrafficEvent>)
    ensures var t := Run(c, NewTraffic(baseRate, start), es);
      && t.bucket.rate > 0.0
      && (t.controller.current >= 1.0 ==> Progresses(t.bucket))
      && (t.controller.current < 1.0 ==> Blocks(t.bucket) && !Progresses(t.bucket))
  {
    var t := Run(c, NewTraffic(baseRate, start), es);
    RunSynced(c, NewTraffic(baseRate, start), es);
    RateLimit.LivenessExactly(t.bucket);
    if t.bucket.rate < 1.0 { BlocksBelowOne(t.bucket); }
  }

  /** Progress is guaranteed, after any traffic, exactly if the lowest rate that answers can
      bring about is one or more; otherwise some requests and answers lead to a state in
      which `acquire` never returns. */
  lemma ProgressExactly(c: Backoff.Config, baseRate: real, start: real)
    requires Backoff.Sensible(c)
    ensures Backoff.Lowest(c, baseRate) >= 1.0 <==> forall es :: ProgressesAfter(c, baseRate, start, es)
    ensures Backoff.Lowest(c, baseRate) < 1.0 ==>
      exists es :: Genuine(c, NewTraffic(baseRate, start), es, start, 0) &&
        Blocks(Run(c, NewTraffic(baseRate, start), es).bucket)
  {
    var t := NewTraffic(baseRate, start);
    if Backoff.Lowest(c, baseRate) >= 1.0 {
      forall es ensures ProgressesAfter(c, baseRate, start, es) {
        RunController(c, t, es);
        Backoff.NeverBelowLowest(c, baseRate, OutcomesOf(es));
        ProgressByRate(c, baseRate, start, es);
      }
    } else {
      var es := [];
      if c.cut < 1.0 {
        var n := Backoff.EnoughCuts(t.controller.current, c.cut, 1.0);
        es := Throttling(c, t, n);
      }
      ProgressByRate(c, baseRate, start, es);
      assert !ProgressesAfter(c, baseRate, start, es);
    }
  }

  ghost predicate ProgressesAfter(c: Backoff.Config, baseRate: real, start: real, es: seq<TrafficEvent>) {
    var b := Run(c, NewTraffic(baseRate, start), es).bucket;
    b.rate > 0.0 && Progresses(b)
  }

  /** With the defaults that is a configured rate of ten requests a second. */
  lemma DefaultThreshold(baseRate: real)
    ensures Backoff.Lowest(Backoff.DEFAULTS, baseRate) >= 1.0 <==> baseRate >= 10.0
  {
  }

  // ------------------------------------------------------------- requests

  datatype Verb = GET | HEAD | POST | Other(name: string)

  /** One attempted hop: `cur_method`, `cur_url`, and whether a body is still sent. */
  datatype Hop = Hop(verb: Verb, url: string, body: bool)

  /** An answer, an `httpx.HTTPError`, or an exception of another kind, which httpx raises
      before anything is sent (for a URL it cannot use, for instance). */
  datatype Reply = Response(status: nat, location: string) | Failure(distress: bool) | Rejected

  /** What the world does with one hop: the clock readings of `acquire` and of `record`,
      and the server's reply. An absent Location header is the empty string. */
  datatype Exchange = Exchange(clock: seq<real>, at: real, reply: Reply)

  /** How a hop ends: refused by scope, still waiting for a token, left by an exception that
      is not handled, failed, or answered. */
  datatype Fate = Blocked | Waiting | Thrown | Failed | Answered(status: nat, location: string)

  /** A hop that ends like this has no audit row, and nothing was sent. */
  predicate Unaudited(f: Fate) {
    f == Waiting || f == Thrown
  }

  datatype AuditRow = AuditRow(hop: Hop, scope: ScopeStatus, fate: Fate, overrideUsed: bool)

  /** The arguments of `request`. */
  datatype Options = Options(isTarget: bool, allowOos: bool, follow: bool, maxRedirects: nat,
      join: (string, string) -> string)

  /** The scope decision as `_single_request` asks for it: no resolved addresses. */
  type Decision = string -> ScopeStatus

  ghost function DecisionOf(r: Roe): Decision {
    url => StatusOf(r, url, {})
  }

  ghost function ScopeOf(d: Decision, o: Options, url: string): ScopeStatus {
    if o.isTarget then d(url) else NotApplicable
  }

  predicate OutOfScope(s: ScopeStatus) {
    s == Excluded || s == Flagged
  }

  predicate IsRedirect(status: nat) {
    300 <= status <= 399
  }

  /** The redirect loop goes round again after this answer. */
  predicate GoesOn(o: Options, fate: Fate, hops: nat) {
    o.follow && fate.Answered? && IsRedirect(fate.status) && hops < o.maxRedirects && fate.location != ""
  }

  function NextHop(o: Options, h: Hop, status: nat, location: string): Hop {
    var url := o.join(h.url, location);
    if (status == 301 || status == 302 || status == 303) && h.verb != HEAD then Hop(GET, url, false)
    else Hop(h.verb, url, h.body)
  }

  // --------------------------------------------------------- the audit trail

  /** The rows of one `request`: each is the attempted hop with its own scope decision. A
      row is refused exactly when the target is out of scope without an override. */
  ghost predicate RowOk(d: Decision, o: Options, row: AuditRow) {
    && row.scope == ScopeOf(d, o, row.hop.url)
    && (row.fate == Blocked <==> OutOfScope(row.scope) && !o.allowOos)
    && (row.overrideUsed <==> OutOfScope(row.scope) && o.allowOos)
    && !Unaudited(row.fate)
  }

  /** The hops in order: the first is the request's own, every next one is where the
      redirect before it leads, and the chain stops where the loop stops. */
  ghost predicate IsChain(d: Decision, o: Options, first: Hop, rows: seq<AuditRow>)
    decreases |rows|
  {
    rows == [] ||
      (var most, row := rows[..|rows| - 1], rows[|rows| - 1];
      IsChain(d, o, first, most) && RowOk(d, o, row) && LeadsTo(o, first, most, row.hop))
  }

  /** After these rows the loop attempts this hop. */
  predicate LeadsTo(o: Options, first: Hop, rows: seq<AuditRow>, hop: Hop) {
    if rows == [] then hop == first
    else GoesOn(o, rows[|rows| - 1].fate, |rows| - 1) && hop == Followed(o, rows[|rows| - 1])
  }

  function Followed(o: Options, row: AuditRow): Hop {
    if row.fate.Answered? then NextHop(o, row.hop, row.fate.status, row.fate.location) else row.hop
  }

  /** The hops that were sent. */
  ghost function Sent(rows: seq<AuditRow>): seq<Hop> {
    if rows == [] then []
    else Sent(rows[..|rows| - 1]) + (if rows[|rows| - 1].fate == Blocked then [] else [rows[|rows| - 1].hop])
  }

  lemma ChainExtends(d: Decision, o: Options, first: Hop, rows: seq<AuditRow>, row: AuditRow)
    requires IsChain(d, o, first, rows) && RowOk(d, o, row) && LeadsTo(o, first, rows, row.hop)
    ensures IsChain(d, o, first, rows + [row])
    ensures Sent(rows + [row]) == Sent(rows) + (if row.fate == Blocked then [] else [row.hop])
  {
    assert (rows + [row])[..|rows|] == rows;
  }

  lemma ChainGoesOn(o: Options, first: Hop, rows: seq<AuditRow>, row: AuditRow)
    requires GoesOn(o, row.fate, |rows|)
    ensures LeadsTo(o, first, rows + [row], NextHop(o, row.hop, row.fate.status, row.fate.location))
  {
  }

  lemma Regroup<T>(x: seq<T>, y: seq<T>, z: seq<T>)
    ensures (x + y) + z == x + (y + z)
  {
  }

  /** Each row of a chain is in order, and every next hop is where the last one leads. */
  lemma {:induction false} ChainAt(d: Decision, o: Options, first: Hop, rows: seq<AuditRow>, i: nat)
    requires IsChain(d, o, first, rows) && i < |rows|
    ensures RowOk(d, o, rows[i]) && LeadsTo(o, first, rows[..i], rows[i].hop)
    decreases |rows|
  {
    var most := rows[..|rows| - 1];
    if i < |most| {
      ChainAt(d, o, first, most, i);
      assert most[..i] == rows[..i] && most[i] == rows[i];
    }
  }

  /** Only the last hop of a chain can be refused, so the hops sent are all hops, or all
      but the last. */
  lemma {:induction false} SentOfChain(d: Decision, o: Options, first: Hop, rows: seq<AuditRow>)
    requires IsChain(d, o, first, rows)
    ensures forall i :: 0 <= i < |rows| - 1 ==> rows[i].fate != Blocked
    ensures |Sent(rows)| == if rows != [] && rows[|rows| - 1].fate == Blocked then |rows| - 1 else |rows|
    ensures forall i :: 0 <= i < |Sent(rows)| ==> Sent(rows)[i] == rows[i].hop
    decreases |rows|
  {
    if rows != [] {
      var most := rows[..|rows| - 1];
      SentOfChain(d, o, first, most);
      assert forall i :: 0 <= i < |most| ==> most[i] == rows[i];
    }
  }

  /** A request makes at most `max_redirects + 1` sends. */
  lemma {:induction false} ChainIsShort(d: Decision, o: Options, first: Hop, rows: seq<AuditRow>)
    requires IsChain(d, o, first, rows)
    ensures |Sent(rows)| <= |rows| <= o.maxRedirects + 1
    ensures !o.follow ==> |rows| <= 1
  {
    SentOfChain(d, o, first, rows);
  }

  /** A decision on a target is never "not applicable". */
  ghost predicate Definite(d: Decision) {
    forall url :: d(url) != NotApplicable
  }

  lemma DecisionIsDefinite(r: Roe)
    ensures Definite(DecisionOf(r))
  {
    forall url ensures DecisionOf(r)(url) != NotApplicable {
      assert DecisionOf(r)(url) == StatusOf(r, url, {});
    }
  }

  /** Every hop sent to a target is in scope, or its row says the override was used; a
      refused hop is in the trail, was not sent, and ends the chain. */
  lemma ChainIsGated(d: Decision, o: Options, first: Hop, rows: seq<AuditRow>)
    requires IsChain(d, o, first, rows) && o.isTarget && Definite(d)
    ensures |Sent(rows)| <= |rows|
    ensures forall i :: 0 <= i < |Sent(rows)| ==>
      Sent(rows)[i] == rows[i].hop && (d(rows[i].hop.url) == InScope || (rows[i].overrideUsed && o.allowOos))
    ensures forall i :: 0 <= i < |rows| && rows[i].fate == Blocked ==> i == |rows| - 1 && |Sent(rows)| == i
    ensures !o.allowOos ==> forall h :: h in Sent(rows) ==> d(h.url) == InScope
  {
    SentOfChain(d, o, first, rows);
    forall i | 0 <= i < |rows| ensures RowOk(d, o, rows[i]) {
      ChainAt(d, o, first, rows, i);
    }
  }

  /** Each hop sent to a target was in scope, or its row says the override was used. */
  ghost predicate TargetsAllowed(d: Decision, o: Options, rows: seq<AuditRow>) {
    |Sent(rows)| <= |rows| &&
    forall i :: 0 <= i < |Sent(rows)| ==>
      Sent(rows)[i] == rows[i].hop && (d(rows[i].hop.url) == InScope || (rows[i].overrideUsed && o.allowOos))
  }

  /** With a client's own decision: what `Request` appends to `sends` for a target. */
  lemma TargetsAreAllowed(r: Roe, o: Options, first: Hop, rows: seq<AuditRow>)
    requires IsChain(DecisionOf(r), o, first, rows) && o.isTarget
    ensures TargetsAllowed(DecisionOf(r), o, rows)
  {
    DecisionIsDefinite(r);
    ChainIsGated(DecisionOf(r), o, first, rows);
  }

  /** Calls to third parties are not gated, and audited as such. With an override no hop is
      refused, and a row says that the override was used exactly if it was needed. */
  lemma OverrideIsAudited(d: Decision, o: Options, first: Hop, rows: seq<AuditRow>, i: nat)
    requires IsChain(d, o, first, rows) && i < |rows|
    ensures !o.isTarget ==> rows[i].fate != Blocked && rows[i].scope == NotApplicable && !rows[i].overrideUsed
    ensures o.isTarget ==> rows[i].scope == d(rows[i].hop.url)
    ensures o.allowOos ==> rows[i].fate != Blocked
    ensures rows[i].overrideUsed <==>
      o.isTarget && o.allowOos && (d(rows[i].hop.url) == Excluded || d(rows[i].hop.url) == Flagged)
  {
    ChainAt(d, o, first, rows, i);
  }

  /** A redirect by 301, 302 or 303 drops the body for good; without one, method and body
      stay those of the request. */
  lemma {:induction false} BodyIsDropped(d: Decision, o: Options, first: Hop, rows: seq<AuditRow>, n: nat)
    requires IsChain(d, o, first, rows) && n < |rows|
    ensures rows[n].hop.body ==> first.body && rows[n].hop.verb == first.verb
    ensures first.verb == HEAD ==> rows[n].hop.verb == HEAD
    ensures rows[n].hop.verb == first.verb || rows[n].hop.verb == GET
    decreases n
  {
    ChainAt(d, o, first, rows, n);
    if n > 0 {
      BodyIsDropped(d, o, first, rows, n - 1);
      assert rows[..n][n - 1] == rows[n - 1];
    }
  }

  /** The answer turns the request into a GET without a body, unless it is a HEAD. */
  predicate Rewrites(f: Fate) {
    f.Answered? && f.status in {301, 302, 303}
  }

  ghost predicate RewrittenBefore(rows: seq<AuditRow>, n: nat) {
    exists i :: 0 <= i < n && i < |rows| && Rewrites(rows[i].fate)
  }

  /** Method and body of every hop: they are those of the request up to the first 301, 302 or
      303; after it a GET without a body is sent, but a HEAD stays a HEAD with its body. */
  lemma {:induction false} HopsExactly(d: Decision, o: Options, first: Hop, rows: seq<AuditRow>, n: nat)
    requires IsChain(d, o, first, rows) && n < |rows|
    ensures var rewritten := first.verb != HEAD && RewrittenBefore(rows, n);
      && rows[n].hop.verb == (if rewritten then GET else first.verb)
      && rows[n].hop.body == (first.body && !rewritten)
    decreases n
  {
    ChainAt(d, o, first, rows, n);
    if n > 0 {
      HopsExactly(d, o, first, rows, n - 1);
      assert rows[..n][n - 1] == rows[n - 1];
      assert RewrittenBefore(rows, n) <==> RewrittenBefore(rows, n - 1) || Rewrites(rows[n - 1].fate);
    }
  }

  /** Where a chain goes: every hop but the first is reached by a redirect, an answer of 300
      to 399 with a location, from the hop before, at the URL that this location names. */
  lemma {:induction false} HopsFollowRedirects(d: Decision, o: Options, first: Hop, rows: seq<AuditRow>, n: nat)
    requires IsChain(d, o, first, rows) && n < |rows|
    ensures n == 0 ==> rows[0].hop == first
    ensures n > 0 ==>
      && o.follow && n <= o.maxRedirects && rows[n - 1].fate.Answered?
      && 300 <= rows[n - 1].fate.status <= 399 && rows[n - 1].fate.location != ""
      && rows[n].hop.url == o.join(rows[n - 1].hop.url, rows[n - 1].fate.location)
  {
    ChainAt(d, o, first, rows, n);
    if n > 0 {
      assert rows[..n][n - 1] == rows[n - 1];
    } else {
      assert rows[..0] == [];
    }
  }

  // --------------------------------------------------------------- the class

  datatype Outcome = ScopeViolation | RequestError | StillWaiting | Escaped | Returned(status: nat, location: string)

  function OutcomeOf(f: Fate): Outcome {
    match f
    case Blocked => ScopeViolation
    case Waiting => StillWaiting
    case Thrown => Escaped
    case Failed => RequestError
    case Answered(status, location) => Returned(status, location)
  }

  function FateOf(r: Reply): Fate {
    match r
    case Response(status, location) => Answered(status, location)
    case Failure(_) => Failed
    case Rejected => Thrown
  }

  function OutcomeAt(x: Exchange): Backoff.Outcome
    requires !x.reply.Rejected?
  {
    match x.reply
    case Response(status, _) => Backoff.Outcome(x.at, status == 429, false)
    case Failure(distress) => Backoff.Outcome(x.at, false, distress)
  }

  /** An answer 429 after the cool-down cuts the shared rate once, and starts a cool-down. */
  lemma ThrottledAnswerCuts(c: Backoff.Config, t: Traffic, x: Exchange)
    requires x.reply.Response? && x.reply.status == 429 && x.at >= t.controller.cooldownUntil
    ensures var u := Step(c, t, Recorded(OutcomeAt(x)));
      && u.controller.current == Backoff.Max(Backoff.Floor(c, t.controller), t.controller.current * c.cut)
      && u.controller.cooldownUntil == x.at + c.cooldown
      && u.bucket.rate == RateLimit.Clamp(u.controller.current) && u.bucket.tokens == t.bucket.tokens
  {
    Backoff.ThrottledOnce(c, t.controller, x.at);
  }

  /** A refused connection, or any other answer, never lowers the shared rate and starts no
      cool-down: that is a finding and no reason to throttle. */
  lemma OtherAnswersDoNotThrottle(c: Backoff.Config, t: Traffic, x: Exchange)
    requires Backoff.Sensible(c) && Backoff.Inv(c, t.controller)
    requires t.bucket.rate == RateLimit.Clamp(t.controller.current)
    requires (x.reply.Response? && x.reply.status != 429) || x.reply == Failure(false)
    ensures var u := Step(c, t, Recorded(OutcomeAt(x)));
      && u.controller.current >= t.controller.current && u.bucket.rate >= t.bucket.rate
      && u.controller.cooldownUntil == t.controller.cooldownUntil && u.controller.trips == t.controller.trips
  {
    Backoff.HealthyNeverTrips(c, t.controller, x.at);
  }

  /** The turns of one `acquire`. */
  ghost function Turns(b: RateLimit.Bucket, clock: seq<real>): seq<TrafficEvent>
    decreases |clock|
  {
    if clock == [] then []
    else if RateLimit.Grants(b, clock[0]) then [Turn(clock[0])]
    else [Turn(clock[0])] + Turns(RateLimit.Poll(b, clock[0]), clock[1..])
  }

  /** A property of the shared state and of the traffic so far. */
  type Observer = (Traffic, seq<TrafficEvent>) -> bool

  ghost predicate Closed(c: Backoff.Config, k: Observer) {
    forall t, es, e :: k(t, es) ==> k(Step(c, t, e), es + [e])
  }

  lemma {:induction false} TurnsKeep(c: Backoff.Config, k: Observer, t: Traffic, es: seq<TrafficEvent>,
      clock: seq<real>)
    requires Closed(c, k) && k(t, es)
    ensures k(t.(bucket := RateLimit.Acquire(t.bucket, clock).0), es + Turns(t.bucket, clock))
    decreases |clock|
  {
    if clock == [] {
      assert es + [] == es;
    } else {
      var e := Turn(clock[0]);
      var u := Step(c, t, e);
      assert k(u, es + [e]);
      if !RateLimit.Grants(t.bucket, clock[0]) {
        TurnsKeep(c, k, u, es + [e], clock[1..]);
        assert es + [e] + Turns(u.bucket, clock[1..]) == es + Turns(t.bucket, clock);
      }
    }
  }

  lemma {:induction false} RunAppend(c: Backoff.Config, t: Traffic, a: seq<TrafficEvent>, e: TrafficEvent)
    ensures Run(c, t, a + [e]) == Step(c, Run(c, t, a), e)
    decreases |a|
  {
    if a == [] {
      assert Run(c, Step(c, t, e), []) == Step(c, t, e);
      assert a + [e] == [e] && [e][1..] == [];
    } else {
      RunAppend(c, Step(c, t, a[0]), a[1..], e);
      assert (a + [e])[1..] == a[1..] + [e];
    }
  }

  /** "The state is where the traffic leads" is such a property. */
  lemma RunIsClosed(c: Backoff.Config, origin: Traffic)
    ensures Closed(c, (t, es) => t == Run(c, origin, es))
  {
    forall t: Traffic, es, e | t == Run(c, origin, es) ensures Step(c, t, e) == Run(c, origin, es + [e]) {
      RunAppend(c, origin, es, e);
    }
  }

  class ReconHTTPClient {
    const roe: Roe
    const limiter: RateLimit.RateLimiter
    const backoff: Backoff.BackoffController
    var audits: seq<AuditRow>
    var sends: seq<Hop>
    ghost var traffic: seq<TrafficEvent>

    constructor (roe: Roe, limiter: RateLimit.RateLimiter, backoff: Backoff.BackoffController)
      ensures this.roe == roe && this.limiter == limiter && this.backoff == backoff
      ensures audits == [] && sends == [] && traffic == []
    {
      this.roe, this.limiter, this.backoff := roe, limiter, backoff;
      audits, sends, traffic := [], [], [];
    }

    /** The shared state of the limiter and the controller. */
    ghost function Shared(): Traffic
      reads limiter, backoff
    {
      Traffic(limiter.Now(), backoff.Now())
    }

    /** `k` holds of the shared state and the traffic that led to it, and every further
        event keeps it. */
    ghost predicate Follows(k: Observer)
      reads this, limiter, backoff
    {
      Closed(backoff.config, k) && k(Shared(), traffic)
    }

    /** The scope gate: a refused hop is audited as blocked, and nothing else happens. */
    method Gate(o: Options, h: Hop) returns (scope: ScopeStatus, refused: bool)
      modifies this`audits
      ensures scope == ScopeOf(DecisionOf(roe), o, h.url)
      ensures refused <==> OutOfScope(scope) && !o.allowOos
      ensures audits == if refused then old(audits) + [AuditRow(h, scope, Blocked, false)] else old(audits)
    {
      scope := NotApplicable;
      refused := false;
      if o.isTarget {
        scope := Classify(roe, h.url, []);
        assert Elems<string>([]) == {};
        assert DecisionOf(roe)(h.url) == StatusOf(roe, h.url, {});
        if (scope == Excluded || scope == Flagged) && !o.allowOos {
          refused := true;
          audits := audits + [AuditRow(h, scope, Blocked, false)];
        }
      }
    }

    /** `acquire` as traffic: its turns up to the granted one. */
    method TakeToken(clock: seq<real>, ghost k: Observer) returns (granted: bool)
      requires Follows(k)
      modifies limiter, this`traffic
      ensures Follows(k)
      ensures granted <==> old(RateLimit.Acquire(limiter.Now(), clock)).1.Some?
      ensures traffic == old(traffic) + old(Turns(limiter.Now(), clock))
    {
      TurnsKeep(backoff.config, k, Shared(), traffic, clock);
      ghost var turns := Turns(limiter.Now(), clock);
      var n := limiter.AcquireToken(clock);
      traffic := traffic + turns;
      granted := n.Some?;
    }

    /** The outcome of a hop feeds the controller, and its rate the limiter. */
    method FeedBack(x: Exchange, ghost k: Observer)
      requires Follows(k) && !x.reply.Rejected?
      modifies limiter, backoff, this`traffic
      ensures Follows(k)
      ensures traffic == old(traffic) + [Recorded(OutcomeAt(x))]
    {
      ghost var t, e := Shared(), Recorded(OutcomeAt(x));
      var throttled := x.reply.Response? && x.reply.status == 429;
      var distress := x.reply.Failure? && x.reply.distress;
      var rate := backoff.RecordOutcome(x.at, throttled, distress);
      limiter.UpdateRate(rate);
      assert Shared() == Step(backoff.config, t, e);
      traffic := traffic + [e];
    }

    /** `_single_request`. A refused hop is audited and takes no token; any other hop takes
        one; then, unless an exception escapes, it is sent, feeds the controller and is
        audited. `row` is its audit row, if it has one. */
    method SingleRequest(o: Options, h: Hop, x: Exchange, ghost k: Observer) returns (fate: Fate, ghost row: AuditRow)
      requires Follows(k)
      modifies this, limiter, backoff
      ensures Follows(k)
      ensures fate == Blocked <==> OutOfScope(ScopeOf(DecisionOf(roe), o, h.url)) && !o.allowOos
      ensures fate != Blocked ==> (fate == Waiting <==> old(RateLimit.Acquire(limiter.Now(), x.clock)).1.None?)
      ensures fate != Blocked && fate != Waiting ==> fate == FateOf(x.reply)
      ensures !Unaudited(fate) ==>
        audits == old(audits) + [row] && row.hop == h && row.fate == fate && RowOk(DecisionOf(roe), o, row)
      ensures Unaudited(fate) ==> audits == old(audits)
      ensures fate == Failed || fate.Answered? ==> audits == old(audits) + [row] && sends == old(sends) + [h]
      ensures fate == Waiting || fate == Thrown ==> audits == old(audits) && sends == old(sends)
      ensures sends == if fate == Blocked || Unaudited(fate) then old(sends) else old(sends) + [h]
      ensures traffic == old(traffic) +
        (if fate == Blocked then []
         else if Unaudited(fate) then old(Turns(limiter.Now(), x.clock))
         else old(Turns(limiter.Now(), x.clock)) + [Recorded(OutcomeAt(x))])
    {
      var scope, refused := Gate(o, h);
      row := AuditRow(h, scope, Blocked, false);
      if refused {
        return Blocked, row;
      }
      var usedOverride := OutOfScope(scope);
      var granted := TakeToken(x.clock, k);
      if !granted {
        return Waiting, row;
      }
      if x.reply.Rejected? {
        return Thrown, row;
      }
      sends := sends + [h];
      FeedBack(x, k);
      fate := FateOf(x.reply);
      row := AuditRow(h, scope, fate, usedOverride);
      audits := audits + [AuditRow(h, scope, fate, usedOverride)];
    }

    /** `request`: the redirect loop. `world(i)` is what happens to the i-th hop. The new
        audit rows are a chain from the request, the new sends are its sent hops, and the
        result is the last hop's. `open` is a last hop that was attempted without an audit
        row: there is one exactly if it still waits or an exception escaped. */
    method Request(o: Options, verb: Verb, url: string, body: bool, world: nat -> Exchange, ghost k: Observer)
      returns (r: Outcome, ghost rows: seq<AuditRow>, ghost open: Option<Hop>)
      requires Follows(k)
      modifies this, limiter, backoff
      ensures Follows(k)
      ensures audits == old(audits) + rows && sends == old(sends) + Sent(rows)
      ensures IsChain(DecisionOf(roe), o, Hop(verb, url, body), rows)
      ensures open.Some? <==> r == StillWaiting || r == Escaped
      ensures open.Some? ==> LeadsTo(o, Hop(verb, url, body), rows, open.value)
      ensures open.None? ==>
        rows != [] && r == OutcomeOf(rows[|rows| - 1].fate) && !GoesOn(o, rows[|rows| - 1].fate, |rows| - 1)
    {
      var cur := Hop(verb, url, body);
      var hops := 0;
      rows := [];
      while true
        invariant Follows(k)
        invariant hops <= o.maxRedirects && |rows| == hops
        invariant audits == old(audits) + rows && sends == old(sends) + Sent(rows)
        invariant IsChain(DecisionOf(roe), o, Hop(verb, url, body), rows)
        invariant LeadsTo(o, Hop(verb, url, body), rows, cur)
        decreases o.maxRedirects - hops
      {
        var fate;
        ghost var row;
        fate, row := SingleRequest(o, cur, world(hops), k);
        if Unaudited(fate) {
          return OutcomeOf(fate), rows, Some(cur);
        }
        ChainExtends(DecisionOf(roe), o, Hop(verb, url, body), rows, row);
        Regroup(old(audits), rows, [row]);
        Regroup(old(sends), Sent(rows), if fate == Blocked then [] else [cur]);
        if !GoesOn(o, fate, hops) {
          return OutcomeOf(fate), rows + [row], None;
        }
        ChainGoesOn(o, Hop(verb, url, body), rows, row);
        rows := rows + [row];
        cur := NextHop(o, cur, fate.status, fate.location);
        hops := hops + 1;
      }
    }
  }

  /** Requests of one client leave the shared state exactly where their traffic leads, so
      the window bound speaks about it. */
  method RequestObserved(client: ReconHTTPClient, o: Options, verb: Verb, url: string, body: bool,
      world: nat -> Exchange, ghost origin: Traffic)
    returns (r: Outcome)
    requires client.Shared() == Run(client.backoff.config, origin, client.traffic)
    modifies client, client.limiter, client.backoff
    ensures client.Shared() == Run(client.backoff.config, origin, client.traffic)
  {
    ghost var c := client.backoff.config;
    RunIsClosed(c, origin);
    ghost var rows, open;
    r, rows, open := client.Request(o, verb, url, body, world, (t, es) => t == Run(c, origin, es));
  }
}
