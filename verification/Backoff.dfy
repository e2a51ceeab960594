/** recon/net/backoff.py: the adaptive back-off controller. */
module Backoff {
  import opened Prelude
  import opened RateLimit

  /** The constructor's keyword arguments. */
  datatype Config = Config(window: nat, tripRatio: real, floorRatio: real, cut: real, recover: real, cooldown: real)

  const DEFAULTS := Config(20, 0.3, 0.1, 0.5, 1.4, 15.0)

  /** Ratios are ratios, a cut lowers the rate and a recovery raises it. */
  predicate Sensible(c: Config) {
    0.0 < c.tripRatio && 0.0 <= c.floorRatio <= 1.0 && 0.0 <= c.cut <= 1.0 && c.recover >= 1.0 && c.cooldown >= 0.0
  }

  /** `base_rate`, `current_rate`, `_outcomes` (True = distress), `_cooldown_until`, `trips`. */
  datatype Controller = Controller(base: real, current: real, outcomes: seq<bool>, cooldownUntil: real, trips: nat)

  function NewController(baseRate: real): Controller {
    Controller(Clamp(baseRate), Clamp(baseRate), [], 0.0, 0)
  }

  function Max(a: real, b: real): real {
    if a >= b then a else b
  }

  function Floor(c: Config, s: Controller): real {
    s.base * c.floorRatio
  }

  function Distress(outcomes: seq<bool>): nat {
    if outcomes == [] then 0 else Distress(outcomes[1..]) + (if outcomes[0] then 1 else 0)
  }

  function DistressRatio(outcomes: seq<bool>): real {
    if outcomes == [] then 0.0 else Distress(outcomes) as real / |outcomes| as real
  }

  /** `deque(maxlen=window).append`. */
  function Push(c: Config, outcomes: seq<bool>, o: bool): seq<bool> {
    var longer := outcomes + [o];
    if |longer| > c.window then longer[|longer| - c.window..] else longer
  }

  predicate Trips(c: Config, outcomes: seq<bool>, throttled: bool) {
    throttled || DistressRatio(outcomes) >= c.tripRatio
  }

  /** The debounced trip: one burst inside a cool-down is one trip. */
  function Trip(c: Config, s: Controller, now: real): Controller {
    if now < s.cooldownUntil then s.(outcomes := [])
    else s.(current := Max(Floor(c, s), s.current * c.cut), cooldownUntil := now + c.cooldown,
            trips := s.trips + 1, outcomes := [])
  }

  /** The slow recovery. */
  function Recover(c: Config, s: Controller, now: real): Controller {
    if now >= s.cooldownUntil && s.current < s.base then s.(current := Min(s.base, s.current * c.recover)) else s
  }

  /** `record` at the clock reading `now`. */
  function Record(c: Config, s: Controller, now: real, throttled: bool, connectionError: bool): Controller {
    var outcomes := Push(c, s.outcomes, throttled || connectionError);
    if Trips(c, outcomes, throttled) then Trip(c, s, now) else Recover(c, s.(outcomes := outcomes), now)
  }

  // --------------------------------------------------------------- invariant

  ghost predicate Inv(c: Config, s: Controller) {
    && InRange(c, s)
    && |s.outcomes| <= c.window
    && (s.outcomes == [] || DistressRatio(s.outcomes) < c.tripRatio)
  }

  lemma ScaledDown(x: real, f: real)
    requires 0.0 <= x && 0.0 <= f <= 1.0
    ensures 0.0 <= x * f <= x
  {
    assert x * f >= 0.0;
    assert x * (1.0 - f) >= 0.0;
    assert x == x * f + x * (1.0 - f);
  }

  lemma ScaledUp(x: real, f: real)
    requires 0.0 <= x && f >= 1.0
    ensures x * f >= x
  {
    assert x * (f - 1.0) >= 0.0;
    assert x * f == x + x * (f - 1.0);
  }

  lemma NewInv(c: Config, baseRate: real)
    requires Sensible(c)
    ensures Inv(c, NewController(baseRate))
  {
    ScaledDown(Clamp(baseRate), c.floorRatio);
  }

  predicate InRange(c: Config, s: Controller) {
    s.base >= MIN_RATE && Within(Floor(c, s), s.current, s.base)
  }

  predicate Within(floor: real, x: real, base: real) {
    floor <= x <= base && 0.0 <= x
  }

  lemma CutWithin(floor: real, x: real, base: real, f: real)
    requires Within(floor, x, base) && 0.0 <= f <= 1.0
    ensures Within(floor, Max(floor, x * f), base)
  {
    ScaledDown(x, f);
  }

  lemma RaiseWithin(floor: real, x: real, base: real, r: real)
    requires Within(floor, x, base) && r >= 1.0
    ensures Within(floor, Min(base, x * r), base) && Min(base, x * r) >= x
  {
    ScaledUp(x, r);
  }

  lemma SameFloor(c: Config, s: Controller, t: Controller)
    requires t.base == s.base
    ensures Floor(c, t) == Floor(c, s)
  {
  }

  lemma TripInRange(c: Config, s: Controller, now: real)
    requires Sensible(c) && InRange(c, s)
    ensures InRange(c, Trip(c, s, now))
  {
    CutWithin(Floor(c, s), s.current, s.base, c.cut);
    SameFloor(c, s, Trip(c, s, now));
  }

  lemma RecoverInRange(c: Config, s: Controller, now: real)
    requires Sensible(c) && InRange(c, s)
    ensures InRange(c, Recover(c, s, now)) && Recover(c, s, now).current >= s.current
  {
    RaiseWithin(Floor(c, s), s.current, s.base, c.recover);
    SameFloor(c, s, Recover(c, s, now));
  }

  /** After every `record` the rate lies between floor and ceiling, and the window is
      empty or below the trip ratio. */
  lemma RecordInv(c: Config, s: Controller, now: real, throttled: bool, connectionError: bool)
    requires Sensible(c) && Inv(c, s)
    ensures var t := Record(c, s, now, throttled, connectionError);
      Inv(c, t) && t.base == s.base
  {
    var outcomes := Push(c, s.outcomes, throttled || connectionError);
    TripInRange(c, s, now);
    RecoverInRange(c, s.(outcomes := outcomes), now);
  }

  lemma {:induction false} DistressAppend(a: seq<bool>, o: bool)
    ensures Distress(a + [o]) == Distress(a) + (if o then 1 else 0)
  {
    if a != [] {
      DistressAppend(a[1..], o);
      assert (a + [o])[1..] == a[1..] + [o];
    }
  }

  lemma {:induction false} DistressDrop(a: seq<bool>, k: nat)
    requires k <= |a|
    ensures Distress(a[k..]) <= Distress(a)
  {
    if k > 0 {
      DistressDrop(a[1..], k - 1);
      assert a[1..][k - 1..] == a[k..];
    }
  }

  lemma RatioBelow(x: real, m: real, bound: real)
    requires m > 0.0
    ensures x / m < bound <==> x < bound * m
  {
    var q := x / m;
    assert q * m == x;
    if q < bound { assert (bound - q) * m > 0.0; }
    if q >= bound { assert (q - bound) * m >= 0.0; }
  }

  lemma ScaledBy(bound: real, m: real, k: real)
    requires 0.0 <= bound && m <= k
    ensures bound * m <= bound * k
  {
    assert bound * (k - m) >= 0.0;
  }

  lemma RatioDown(d: nat, n: nat, d2: nat, n2: nat, bound: real)
    requires 0 < n <= n2 && d2 <= d && d as real / n as real < bound
    ensures d2 as real / n2 as real < bound
  {
    RatioBelow(d as real, n as real, bound);
    assert bound * n as real > 0.0;
    assert bound > 0.0 by {
      if bound <= 0.0 { ScaledBy(-bound, 0.0, n as real); }
    }
    ScaledBy(bound, n as real, n2 as real);
    RatioBelow(d2 as real, n2 as real, bound);
  }

  /** A healthy outcome never trips and never lowers the rate. */
  lemma HealthyNeverTrips(c: Config, s: Controller, now: real)
    requires Sensible(c) && Inv(c, s)
    ensures var t := Record(c, s, now, false, false);
      && t.trips == s.trips && t.cooldownUntil == s.cooldownUntil && t.current >= s.current
      && t.current == if now >= s.cooldownUntil then Min(s.base, s.current * c.recover) else s.current
  {
    var longer := s.outcomes + [false];
    var o := Push(c, s.outcomes, false);
    DistressAppend(s.outcomes, false);
    if |longer| > c.window { DistressDrop(longer, |longer| - c.window); }
    assert DistressRatio(o) < c.tripRatio by {
      if s.outcomes == [] {
        assert o == [] || o == [false];
      } else {
        RatioDown(Distress(s.outcomes), |s.outcomes|, Distress(o), |o|, c.tripRatio);
      }
    }
    ScaledUp(s.current, c.recover);
  }

  // ------------------------------------------------------------------- runs

  /** One recorded outcome and the clock reading `record` took. */
  datatype Outcome = Outcome(now: real, throttled: bool, connectionError: bool)

  function Feed(c: Config, s: Controller, o: Outcome): Controller {
    Record(c, s, o.now, o.throttled, o.connectionError)
  }

  ghost function FeedAll(c: Config, s: Controller, os: seq<Outcome>): Controller
    decreases |os|
  {
    if os == [] then s else FeedAll(c, Feed(c, s, os[0]), os[1..])
  }

  /** The monotonic clock between two readings. */
  ghost predicate Between(os: seq<Outcome>, from: real, until: real)
    decreases |os|
  {
    os != [] ==> from <= os[0].now <= until && Between(os[1..], os[0].now, until)
  }

  lemma {:induction false} FeedAllInv(c: Config, s: Controller, os: seq<Outcome>)
    requires Sensible(c) && Inv(c, s)
    ensures Inv(c, FeedAll(c, s, os)) && FeedAll(c, s, os).base == s.base
    ensures FeedAll(c, s, os).trips >= s.trips
    decreases |os|
  {
    if os != [] {
      RecordInv(c, s, os[0].now, os[0].throttled, os[0].connectionError);
      FeedAllInv(c, Feed(c, s, os[0]), os[1..]);
    }
  }

  function Scale(n: int, cooldown: real): real {
    n as real * cooldown
  }

  lemma ScaleStep(n: int, cooldown: real)
    ensures Scale(n + 1, cooldown) == Scale(n, cooldown) + cooldown
  {
  }

  /** `gained` trips fit into the time: between the first and the last of them lie
      `gained - 1` cool-downs, and the first comes after the current one. */
  ghost predicate Spaced(c: Config, gained: int, from: real, until: real, cooldownUntil: real) {
    gained >= 1 ==>
      Scale(gained - 1, c.cooldown) <= until - from && Scale(gained - 1, c.cooldown) <= until - cooldownUntil
  }

  /** One outcome trips at most once, and only after the cool-down. */
  lemma TripStep(c: Config, s: Controller, o: Outcome)
    ensures var t := Feed(c, s, o);
      || (t.trips == s.trips && t.cooldownUntil == s.cooldownUntil)
      || (t.trips == s.trips + 1 && t.cooldownUntil == o.now + c.cooldown && o.now >= s.cooldownUntil)
  {
  }

  lemma {:induction false} TripsGrow(c: Config, s: Controller, os: seq<Outcome>)
    ensures FeedAll(c, s, os).trips >= s.trips
    decreases |os|
  {
    if os != [] {
      TripStep(c, s, os[0]);
      TripsGrow(c, Feed(c, s, os[0]), os[1..]);
    }
  }

  lemma SpacedFrom(c: Config, later: int, now: real, from: real, until: real, cooldownUntil: real)
    requires c.cooldown >= 0.0 && from <= now <= until && now >= cooldownUntil && later >= 0
    requires Spaced(c, later, now, until, now + c.cooldown)
    ensures Spaced(c, later + 1, from, until, cooldownUntil)
  {
    ScaleStep(later - 1, c.cooldown);
    assert Scale(0, c.cooldown) == 0.0;
  }

  /** Trips are at least one cool-down apart: in any stretch of time there is at most one
      trip more than cool-downs fit into it. */
  lemma {:induction false} TripsAreSpaced(c: Config, s: Controller, os: seq<Outcome>, from: real, until: real)
    requires c.cooldown >= 0.0 && Between(os, from, until)
    ensures Spaced(c, FeedAll(c, s, os).trips - s.trips, from, until, s.cooldownUntil)
    decreases |os|
  {
    if os != [] {
      var t := Feed(c, s, os[0]);
      TripsAreSpaced(c, t, os[1..], os[0].now, until);
      TripStep(c, s, os[0]);
      TripsGrow(c, t, os[1..]);
      if t.trips > s.trips {
        SpacedFrom(c, FeedAll(c, t, os[1..]).trips - t.trips, os[0].now, from, until, s.cooldownUntil);
      }
    }
  }

  function Power(x: real, n: nat): real {
    if n == 0 then 1.0 else x * Power(x, n - 1)
  }

  /** A rate after `n` recoveries: min(base, x * r^n). */
  function Recovered(base: real, x: real, r: real, n: nat): real {
    Min(base, x * Power(r, n))
  }

  lemma {:induction false} PowerAtLeastOne(x: real, n: nat)
    requires x >= 1.0
    ensures Power(x, n) >= 1.0
  {
    if n > 0 {
      PowerAtLeastOne(x, n - 1);
      ScaledUp(Power(x, n - 1), x);
    }
  }

  lemma PastBase(base: real, y: real, p: real)
    requires p >= 1.0 && 0.0 <= base <= y
    ensures base * p >= base && y * p >= base
  {
    ScaledUp(base, p);
    assert (y - base) * p >= 0.0;
    assert y * p == base * p + (y - base) * p;
  }

  lemma RecoveredStep(base: real, x: real, r: real, n: nat)
    requires r >= 1.0 && base >= 0.0
    ensures Recovered(base, Min(base, x * r), r, n) == Recovered(base, x, r, n + 1)
  {
    var p, y := Power(r, n), x * r;
    PowerAtLeastOne(r, n);
    assert x * Power(r, n + 1) == y * p by {
      assert Power(r, n + 1) == r * p;
      assert x * (r * p) == (x * r) * p;
    }
    if base <= y {
      PastBase(base, y, p);
    }
  }

  lemma HealthyStep(c: Config, s: Controller, o: Outcome)
    requires Sensible(c) && Inv(c, s) && !o.throttled && !o.connectionError && o.now >= s.cooldownUntil
    ensures var t := Feed(c, s, o);
      Inv(c, t) && t.base == s.base && t.cooldownUntil == s.cooldownUntil && t.trips == s.trips
      && t.current == Raised(s.base, c.recover, s.current)
  {
    HealthyNeverTrips(c, s, o.now);
    RecordInv(c, s, o.now, false, false);
  }

  function Raised(base: real, r: real, x: real): real {
    Min(base, x * r)
  }

  function RaisedTimes(base: real, r: real, x: real, n: nat): real
    decreases n
  {
    if n == 0 then x else RaisedTimes(base, r, Raised(base, r, x), n - 1)
  }

  lemma {:induction false} RaisedTimesIsRecovered(base: real, r: real, x: real, n: nat)
    requires r >= 1.0 && base >= 0.0 && x <= base
    ensures RaisedTimes(base, r, x, n) == Recovered(base, x, r, n)
    decreases n
  {
    if n == 0 {
      assert x * Power(r, 0) == x;
    } else {
      RaisedTimesIsRecovered(base, r, Raised(base, r, x), n - 1);
      RecoveredStep(base, x, r, n - 1);
    }
  }

  ghost predicate AllHealthy(os: seq<Outcome>, since: real) {
    forall o :: o in os ==> !o.throttled && !o.connectionError && o.now >= since
  }

  lemma {:induction false} HealthyRaises(c: Config, s: Controller, os: seq<Outcome>)
    requires Sensible(c) && Inv(c, s) && AllHealthy(os, s.cooldownUntil)
    ensures FeedAll(c, s, os).current == RaisedTimes(s.base, c.recover, s.current, |os|)
    ensures FeedAll(c, s, os).trips == s.trips
    decreases |os|
  {
    if os != [] {
      HealthyStep(c, s, os[0]);
      HealthyRaises(c, Feed(c, s, os[0]), os[1..]);
    }
  }

  /** After the cool-down, `n` healthy outcomes in a row raise the rate to exactly
      `min(base, rate * recover^n)` and trip nothing. */
  lemma RecoversExactly(c: Config, s: Controller, os: seq<Outcome>)
    requires Sensible(c) && Inv(c, s) && AllHealthy(os, s.cooldownUntil)
    ensures FeedAll(c, s, os).current == Recovered(s.base, s.current, c.recover, |os|)
    ensures FeedAll(c, s, os).trips == s.trips
  {
    HealthyRaises(c, s, os);
    RaisedTimesIsRecovered(s.base, c.recover, s.current, |os|);
  }

  // --------------------------------------------------- the floor is reached

  lemma ShrinkStep(p: real, f: real, w: real)
    requires 0.0 <= f <= 1.0 && p >= 0.0 && w >= 1.0
    ensures (f * p) * (w + (1.0 - f)) <= p * w
  {
    var d := 1.0 - f;
    assert (f * p) * (w + d) == p * w - p * (d * (w - f));
    assert d * (w - f) >= 0.0;
    assert p * (d * (w - f)) >= 0.0;
  }

  /** Bernoulli's inequality for a factor of at most one: powers fall at least like 1 / n. */
  lemma {:induction false} PowerFalls(f: real, n: nat)
    requires 0.0 <= f <= 1.0
    ensures Power(f, n) >= 0.0 && Power(f, n) * (1.0 + Scale(n, 1.0 - f)) <= 1.0
  {
    if n == 0 {
      assert Scale(0, 1.0 - f) == 0.0;
    } else {
      PowerFalls(f, n - 1);
      ScaleStep(n - 1, 1.0 - f);
      var w := 1.0 + Scale(n - 1, 1.0 - f);
      assert Scale(n - 1, 1.0 - f) >= 0.0;
      ShrinkStep(Power(f, n - 1), f, w);
    }
  }

  lemma Quotient(x: real, y: real) returns (q: real)
    requires x >= 0.0 && y > 0.0
    ensures q >= 0.0 && q * y == x
  {
    q := x / y;
    assert q * y == x;
    if q < 0.0 { Opposite(q, y); }
  }

  lemma Opposite(q: real, y: real)
    requires q < 0.0 && y > 0.0
    ensures q * y < 0.0
  {
  }

  lemma Positive(x: real, y: real)
    requires x > 0.0 && y > 0.0
    ensures x * y > 0.0
  {
  }

  lemma BelowBound(x: real, p: real, w: real, bound: real)
    requires bound > 0.0 && p >= 0.0 && p * w <= 1.0 && x < bound * w
    ensures x * p < bound
  {
    if p > 0.0 {
      assert (bound * w - x) * p > 0.0;
      assert (bound * w) * p == bound * (p * w);
      assert bound * (1.0 - p * w) >= 0.0;
    }
  }

  lemma CutsSuffice(x: real, f: real, bound: real, q: real, n: nat)
    requires 0.0 <= f < 1.0 && bound > 0.0 && q * (bound * (1.0 - f)) == x && n as real >= q
    ensures AfterCuts(x, f, n) < bound
  {
    PowerFalls(f, n);
    FarEnough(x, bound, 1.0 - f, q, n);
    BelowBound(x, Power(f, n), 1.0 + Scale(n, 1.0 - f), bound);
  }

  /** So enough cuts bring any rate below any positive bound. */
  lemma EnoughCuts(x: real, f: real, bound: real) returns (n: nat)
    requires x >= 0.0 && 0.0 <= f < 1.0 && bound > 0.0
    ensures AfterCuts(x, f, n) < bound
  {
    var y := bound * (1.0 - f);
    Positive(bound, 1.0 - f);
    var q := Quotient(x, y);
    n := q.Floor + 1;
    CutsSuffice(x, f, bound, q, n);
  }

  lemma FarEnough(x: real, bound: real, d: real, q: real, n: nat)
    requires bound > 0.0 && d > 0.0 && q * (bound * d) == x && n as real >= q
    ensures x < bound * (1.0 + Scale(n, d))
  {
    assert bound * d > 0.0;
    assert (n as real - q) * (bound * d) >= 0.0;
    assert bound * Scale(n, d) == n as real * (bound * d);
  }

  /** One answer 429 after the cool-down. */
  lemma ThrottledOnce(c: Config, s: Controller, now: real)
    requires now >= s.cooldownUntil
    ensures Feed(c, s, Outcome(now, true, false)) ==
      Controller(s.base, Max(Floor(c, s), s.current * c.cut), [], now + c.cooldown, s.trips + 1)
  {
  }

  /** A rate after `n` cuts. */
  function AfterCuts(x: real, f: real, n: nat): real {
    x * Power(f, n)
  }

  lemma CutOnce(x: real, f: real, n: nat)
    requires n > 0
    ensures AfterCuts(x * f, f, n - 1) == AfterCuts(x, f, n)
  {
    assert (x * f) * Power(f, n - 1) == x * (f * Power(f, n - 1));
  }

  lemma NoCutsLeft(x: real, f: real)
    ensures AfterCuts(x, f, 0) == x
  {
  }

  /** Such an answer ends at the floor, or cuts once. */
  lemma ThrottledCuts(c: Config, s: Controller, now: real, n: nat)
    requires now >= s.cooldownUntil && n > 0
    ensures var t := Feed(c, s, Outcome(now, true, false));
      t.base == s.base && (t.current == Floor(c, s) ||
        AfterCuts(t.current, c.cut, n - 1) == AfterCuts(s.current, c.cut, n))
  {
    ThrottledOnce(c, s, now);
    CutOnce(s.current, c.cut, n);
  }

  /** A server that keeps answering 429 brings the rate below any bound, or to the floor. */
  lemma {:induction false} Throttled(c: Config, s: Controller, bound: real, n: nat) returns (os: seq<Outcome>)
    requires AfterCuts(s.current, c.cut, n) < bound
    ensures FeedAll(c, s, os).current < bound || FeedAll(c, s, os).current == Floor(c, s)
    decreases n
  {
    os := [];
    if n == 0 {
      NoCutsLeft(s.current, c.cut);
    } else {
      var o := Outcome(s.cooldownUntil, true, false);
      var t := Feed(c, s, o);
      ThrottledCuts(c, s, s.cooldownUntil, n);
      var rest := [];
      if t.current != Floor(c, s) {
        rest := Throttled(c, t, bound, n - 1);
      }
      os := [o] + rest;
      assert os[1..] == rest;
    }
  }

  /** The floor is reached, whatever the configuration, if a trip cuts at all. */
  lemma FloorReached(c: Config, baseRate: real) returns (os: seq<Outcome>)
    requires Sensible(c) && c.cut < 1.0 && c.floorRatio > 0.0
    ensures FeedAll(c, NewController(baseRate), os).current == Floor(c, NewController(baseRate))
  {
    NewInv(c, baseRate);
    os := DownToFloor(c, NewController(baseRate));
  }

  lemma DownToFloor(c: Config, s: Controller) returns (os: seq<Outcome>)
    requires Sensible(c) && Inv(c, s) && c.cut < 1.0 && c.floorRatio > 0.0
    ensures FeedAll(c, s, os).current == Floor(c, s)
  {
    FloorPositive(c, s);
    RateNotNegative(c, s);
    var n := EnoughCuts(s.current, c.cut, Floor(c, s));
    os := Throttled(c, s, Floor(c, s), n);
    FloorHolds(c, s, os);
  }

  lemma FloorPositive(c: Config, s: Controller)
    requires s.base > 0.0 && c.floorRatio > 0.0
    ensures Floor(c, s) > 0.0
  {
    Positive(s.base, c.floorRatio);
  }

  lemma RateNotNegative(c: Config, s: Controller)
    requires InRange(c, s)
    ensures s.current >= 0.0
  {
  }

  /** The lowest rate that answers can bring about: the floor, unless a trip cuts nothing. */
  function Lowest(c: Config, baseRate: real): real {
    if c.cut < 1.0 then Floor(c, NewController(baseRate)) else Clamp(baseRate)
  }

  lemma {:induction false} Uncut(c: Config, s: Controller, os: seq<Outcome>)
    requires Sensible(c) && Inv(c, s) && c.cut == 1.0 && s.current == s.base
    ensures FeedAll(c, s, os).current == s.base
    decreases |os|
  {
    if os != [] {
      RecordInv(c, s, os[0].now, os[0].throttled, os[0].connectionError);
      Uncut(c, Feed(c, s, os[0]), os[1..]);
    }
  }

  lemma NeverBelowLowest(c: Config, baseRate: real, os: seq<Outcome>)
    requires Sensible(c)
    ensures FeedAll(c, NewController(baseRate), os).current >= Lowest(c, baseRate)
  {
    NewInv(c, baseRate);
    if c.cut < 1.0 {
      FloorHolds(c, NewController(baseRate), os);
    } else {
      Uncut(c, NewController(baseRate), os);
    }
  }

  lemma FloorHolds(c: Config, s: Controller, os: seq<Outcome>)
    requires Sensible(c) && Inv(c, s)
    ensures FeedAll(c, s, os).current >= Floor(c, s)
  {
    var t, floor := FeedAll(c, s, os), Floor(c, s);
    FeedAllInv(c, s, os);
    SameFloor(c, s, t);
    assert Within(floor, t.current, t.base);
  }

  /** The rate stays at one or more under all answers exactly if the lowest rate is. */
  lemma RateStaysExactly(c: Config, baseRate: real)
    requires Sensible(c)
    ensures Lowest(c, baseRate) >= 1.0 <==> forall os :: FeedAll(c, NewController(baseRate), os).current >= 1.0
  {
    if Lowest(c, baseRate) >= 1.0 {
      forall os ensures FeedAll(c, NewController(baseRate), os).current >= 1.0 {
        NeverBelowLowest(c, baseRate, os);
      }
    } else {
      var s := NewController(baseRate);
      NewInv(c, baseRate);
      if c.cut < 1.0 {
        var n := EnoughCuts(s.current, c.cut, 1.0);
        var os := Throttled(c, s, 1.0, n);
        assert FeedAll(c, s, os).current < 1.0;
      } else {
        assert FeedAll(c, s, []) == s;
      }
    }
  }

  // ----------------------------------------------------------- the debounce

  /** The last `n` of them, or all. */
  function Tail(flags: seq<bool>, n: nat): seq<bool> {
    if |flags| <= n then flags else flags[|flags| - n..]
  }

  /** Where the flags are set. */
  function Marks(flags: seq<bool>): set<nat> {
    set i | 0 <= i < |flags| && flags[i]
  }

  /** The share of set flags among them reaches the trip ratio. */
  predicate Alarming(c: Config, flags: seq<bool>) {
    flags != [] && |Marks(flags)| as real >= c.tripRatio * |flags| as real
  }

  lemma MarksMore(flags: seq<bool>, x: bool)
    ensures |Marks(flags + [x])| == |Marks(flags)| + (if x then 1 else 0)
  {
    var n: nat := |flags|;
    assert n !in Marks(flags);
    assert Marks(flags + [x]) == Marks(flags) + (if x then {n} else {});
  }

  lemma {:induction false} DistressCounts(flags: seq<bool>)
    ensures Distress(flags) == |Marks(flags)|
    decreases |flags|
  {
    if flags != [] {
      var n := |flags| - 1;
      DistressCounts(flags[..n]);
      DistressAppend(flags[..n], flags[n]);
      MarksMore(flags[..n], flags[n]);
      assert flags == flags[..n] + [flags[n]];
    }
  }

  lemma AlarmingIs(c: Config, flags: seq<bool>)
    requires c.tripRatio > 0.0
    ensures DistressRatio(flags) >= c.tripRatio <==> Alarming(c, flags)
  {
    DistressCounts(flags);
    if flags != [] { RatioBelow(Distress(flags) as real, |flags| as real, c.tripRatio); }
  }

  predicate Failure(o: Outcome) {
    o.throttled || o.connectionError
  }

  /** The outcome calls for a trip: an answer 429, or too many failures among the last
      `window` outcomes, this one included. */
  predicate CallsForTrip(c: Config, before: seq<bool>, o: Outcome) {
    o.throttled || Alarming(c, Tail(before + [Failure(o)], c.window))
  }

  lemma CallsExactly(c: Config, s: Controller, o: Outcome)
    requires c.tripRatio > 0.0
    ensures Trips(c, Push(c, s.outcomes, Failure(o)), o.throttled) <==> CallsForTrip(c, s.outcomes, o)
    ensures Push(c, s.outcomes, Failure(o)) == Tail(s.outcomes + [Failure(o)], c.window)
  {
    AlarmingIs(c, Tail(s.outcomes + [Failure(o)], c.window));
  }

  lemma RecoverIs(c: Config, s: Controller, now: real)
    requires InRange(c, s) && c.recover >= 1.0 && now >= s.cooldownUntil
    ensures Recover(c, s, now) == s.(current := Raised(s.base, c.recover, s.current))
  {
    ScaledUp(s.current, c.recover);
  }

  lemma RecordCalled(c: Config, s: Controller, o: Outcome)
    requires c.tripRatio > 0.0 && CallsForTrip(c, s.outcomes, o)
    ensures Feed(c, s, o) == Trip(c, s, o.now)
  {
    CallsExactly(c, s, o);
  }

  lemma RecordUncalled(c: Config, s: Controller, o: Outcome)
    requires c.tripRatio > 0.0 && !CallsForTrip(c, s.outcomes, o)
    ensures Feed(c, s, o) == Recover(c, s.(outcomes := Tail(s.outcomes + [Failure(o)], c.window)), o.now)
  {
    CallsExactly(c, s, o);
  }

  /** What one outcome does. Inside a cool-down the rate stays, and there is no trip. After it
      the rate is cut, down to the floor, if the outcome calls for a trip, and otherwise it
      recovers, also after a failure. */
  lemma RecordExactly(c: Config, s: Controller, o: Outcome)
    requires Sensible(c) && Inv(c, s)
    ensures var t := Feed(c, s, o);
      var calls := CallsForTrip(c, s.outcomes, o);
      && t.outcomes == (if calls then [] else Tail(s.outcomes + [Failure(o)], c.window))
      && (o.now < s.cooldownUntil || !calls ==> t.trips == s.trips && t.cooldownUntil == s.cooldownUntil)
      && (o.now < s.cooldownUntil ==> t.current == s.current)
      && (o.now >= s.cooldownUntil && !calls ==> t.current == Min(s.base, s.current * c.recover))
      && (o.now >= s.cooldownUntil && calls ==> t.trips == s.trips + 1 && t.cooldownUntil == o.now + c.cooldown)
      && (o.now >= s.cooldownUntil && calls ==> t.current == Max(s.base * c.floorRatio, s.current * c.cut))
  {
    if CallsForTrip(c, s.outcomes, o) {
      RecordCalled(c, s, o);
    } else {
      RecordUncalled(c, s, o);
      var next := s.(outcomes := Tail(s.outcomes + [Failure(o)], c.window));
      SameFloor(c, s, next);
      if o.now >= s.cooldownUntil { RecoverIs(c, next, o.now); }
    }
  }

  /** The failures recorded since the last outcome that called for a trip. */
  ghost function SinceCall(c: Config, os: seq<Outcome>): seq<bool>
    decreases |os|
  {
    if os == [] then []
    else
      var before, o := SinceCall(c, os[..|os| - 1]), os[|os| - 1];
      if CallsForTrip(c, before, o) then [] else before + [Failure(o)]
  }

  lemma {:induction false} FeedAllAppend(c: Config, s: Controller, os: seq<Outcome>, o: Outcome)
    ensures FeedAll(c, s, os + [o]) == Feed(c, FeedAll(c, s, os), o)
    decreases |os|
  {
    if os == [] {
      assert FeedAll(c, Feed(c, s, o), []) == Feed(c, s, o);
    } else {
      FeedAllAppend(c, Feed(c, s, os[0]), os[1..], o);
      assert (os + [o])[1..] == os[1..] + [o];
    }
  }

  lemma TailOfTail(flags: seq<bool>, x: bool, n: nat)
    ensures Tail(Tail(flags, n) + [x], n) == Tail(flags + [x], n)
  {
  }

  lemma WindowStep(c: Config, s: Controller, o: Outcome)
    requires c.tripRatio > 0.0
    ensures Feed(c, s, o).outcomes ==
      if CallsForTrip(c, s.outcomes, o) then [] else Tail(s.outcomes + [Failure(o)], c.window)
  {
    CallsExactly(c, s, o);
  }

  /** The window holds the last outcomes since then. */
  lemma {:induction false} WindowIsRecent(c: Config, baseRate: real, os: seq<Outcome>)
    requires c.tripRatio > 0.0
    ensures FeedAll(c, NewController(baseRate), os).outcomes == Tail(SinceCall(c, os), c.window)
    decreases |os|
  {
    if os != [] {
      var most, o := os[..|os| - 1], os[|os| - 1];
      WindowIsRecent(c, baseRate, most);
      assert os == most + [o];
      FeedAllAppend(c, NewController(baseRate), most, o);
      WindowStep(c, FeedAll(c, NewController(baseRate), most), o);
      TailOfTail(SinceCall(c, most), Failure(o), c.window);
    }
  }

  /** Over any run, an outcome trips exactly if the cool-down is over and it is an answer 429,
      or failures reach the trip ratio among the last `window` outcomes since the last that
      called for a trip. */
  lemma {:induction false} TripsExactly(c: Config, baseRate: real, os: seq<Outcome>, o: Outcome)
    requires Sensible(c)
    ensures var s := FeedAll(c, NewController(baseRate), os);
      var t := FeedAll(c, NewController(baseRate), os + [o]);
      t.trips == s.trips + (if o.now >= s.cooldownUntil && CallsForTrip(c, SinceCall(c, os), o) then 1 else 0)
  {
    var s := FeedAll(c, NewController(baseRate), os);
    NewInv(c, baseRate);
    FeedAllInv(c, NewController(baseRate), os);
    FeedAllAppend(c, NewController(baseRate), os, o);
    RecordExactly(c, s, o);
    WindowIsRecent(c, baseRate, os);
    TailOfTail(SinceCall(c, os), Failure(o), c.window);
  }

  lemma {:induction false} PowerInUnit(f: real, n: nat)
    requires 0.0 <= f <= 1.0
    ensures 0.0 <= Power(f, n) <= 1.0
  {
    if n > 0 {
      PowerInUnit(f, n - 1);
      ScaledDown(Power(f, n - 1), f);
    }
  }

  lemma CutsAreMonotone(x: real, y: real, f: real, n: nat)
    requires x <= y && 0.0 <= f <= 1.0
    ensures AfterCuts(x, f, n) <= AfterCuts(y, f, n)
  {
    PowerInUnit(f, n);
    ScaledBy(Power(f, n), x, y);
  }

  lemma CutsCarry(x: real, y: real, z: real, f: real, k: nat, more: nat)
    requires 0.0 <= f <= 1.0 && z >= AfterCuts(y, f, k)
    requires (more == k && y >= x) || (more == k + 1 && y >= x * f)
    ensures z >= AfterCuts(x, f, more)
  {
    if more == k {
      CutsAreMonotone(x, y, f, k);
    } else {
      CutsAreMonotone(x * f, y, f, k);
      CutOnce(x, f, more);
    }
  }

  /** From one state to the next the rate falls by one cut at most, and only with a trip. */
  predicate CutStep(f: real, a: Controller, b: Controller) {
    (b.trips == a.trips && b.current >= a.current) || (b.trips == a.trips + 1 && b.current >= a.current * f)
  }

  lemma TripCuts(c: Config, s: Controller, now: real)
    requires 0.0 <= c.cut
    ensures CutStep(c.cut, s, Trip(c, s, now))
  {
  }

  /** One outcome lowers the rate only by tripping, and then cuts it once. */
  lemma CutsOnce(c: Config, s: Controller, o: Outcome)
    requires Sensible(c) && Inv(c, s)
    ensures CutStep(c.cut, s, Feed(c, s, o))
  {
    var outcomes := Push(c, s.outcomes, Failure(o));
    if Trips(c, outcomes, o.throttled) {
      TripCuts(c, s, o.now);
    } else {
      RecoverInRange(c, s.(outcomes := outcomes), o.now);
    }
  }

  lemma PrependStep(f: real, s: Controller, rest: seq<Controller>)
    requires rest != [] && CutSteps(f, rest) && CutStep(f, s, rest[0])
    ensures CutSteps(f, [s] + rest)
  {
    var states := [s] + rest;
    forall i | 0 < i < |states| ensures CutStep(f, states[i - 1], states[i]) {
      if i > 1 { assert states[i] == rest[i - 1] && states[i - 1] == rest[i - 2]; }
    }
  }

  ghost predicate CutSteps(f: real, states: seq<Controller>) {
    forall i :: 0 < i < |states| ==> CutStep(f, states[i - 1], states[i])
  }

  ghost function Trace(c: Config, s: Controller, os: seq<Outcome>): (states: seq<Controller>)
    ensures |states| == |os| + 1 && states[0] == s
    decreases |os|
  {
    [s] + (if os == [] then [] else Trace(c, Feed(c, s, os[0]), os[1..]))
  }

  lemma {:induction false} TraceCuts(c: Config, s: Controller, os: seq<Outcome>)
    requires Sensible(c) && Inv(c, s)
    ensures var states := Trace(c, s, os); states[|os|] == FeedAll(c, s, os) && CutSteps(c.cut, states)
    decreases |os|
  {
    if os != [] {
      var t := Feed(c, s, os[0]);
      RecordInv(c, s, os[0].now, os[0].throttled, os[0].connectionError);
      CutsOnce(c, s, os[0]);
      TraceCuts(c, t, os[1..]);
      PrependStep(c.cut, s, Trace(c, t, os[1..]));
    }
  }

  lemma {:induction false} CutsAlong(f: real, states: seq<Controller>, a: Controller, b: Controller)
    requires states != [] && CutSteps(f, states) && 0.0 <= f <= 1.0
    requires a == states[0] && b == states[|states| - 1]
    ensures b.trips >= a.trips && b.current >= AfterCuts(a.current, f, b.trips - a.trips)
    decreases |states|
  {
    if |states| == 1 {
      NoCutsLeft(a.current, f);
    } else {
      CutsAlong(f, states[1..], states[1], b);
      assert CutStep(f, a, states[1]);
      CutsCarry(a.current, states[1].current, b.current, f, b.trips - states[1].trips, b.trips - a.trips);
    }
  }

  /** The rate falls by trips only: after any outcomes it is at least the floor, and at least
      the rate before, cut as many times as the controller has tripped. */
  lemma {:induction false} RateFallsByTripsOnly(c: Config, s: Controller, os: seq<Outcome>)
    requires Sensible(c) && Inv(c, s)
    ensures var t := FeedAll(c, s, os);
      && t.trips >= s.trips && t.current >= Floor(c, s)
      && t.current >= AfterCuts(s.current, c.cut, t.trips - s.trips)
  {
    TraceCuts(c, s, os);
    CutsAlong(c.cut, Trace(c, s, os), s, FeedAll(c, s, os));
    FloorHolds(c, s, os);
  }

  // --------------------------------------------------------------- the class

  class BackoffController {
    const config: Config
    var baseRate: real
    var currentRate: real
    var outcomes: seq<bool>
    var cooldownUntil: real
    var trips: nat

    function Now(): Controller
      reads this
    {
      Controller(baseRate, currentRate, outcomes, cooldownUntil, trips)
    }

    constructor (config: Config, baseRate: real)
      ensures this.config == config && Now() == NewController(baseRate)
      ensures currentRate == this.baseRate && outcomes == [] && trips == 0 && cooldownUntil == 0.0
    {
      this.config := config;
      this.baseRate, this.currentRate := Clamp(baseRate), Clamp(baseRate);
      this.outcomes, this.cooldownUntil, this.trips := [], 0.0, 0;
    }

    /** `record`: the debounced trip, or the slow recovery. */
    method RecordOutcome(now: real, throttled: bool, connectionError: bool) returns (rate: real)
      modifies this
      ensures Now() == Record(config, old(Now()), now, throttled, connectionError)
      ensures rate == currentRate
      ensures now < old(cooldownUntil) ==> currentRate == old(currentRate) && trips == old(trips)
    {
      outcomes := Push(config, outcomes, throttled || connectionError);
      if throttled || DistressRatio(outcomes) >= config.tripRatio {
        if now >= cooldownUntil {
          currentRate := Max(baseRate * config.floorRatio, currentRate * config.cut);
          cooldownUntil := now + config.cooldown;
          trips := trips + 1;
        }
        outcomes := [];
      } else if now >= cooldownUntil && currentRate < baseRate {
        currentRate := Min(baseRate, currentRate * config.recover);
      }
      rate := currentRate;
    }

    /** `extra_delay`: what is left of the cool-down. */
    function ExtraDelay(now: real): (delay: real)
      reads this
      ensures delay >= 0.0 && (delay == 0.0 <==> now >= cooldownUntil)
      ensures delay > 0.0 ==> now + delay == cooldownUntil
    {
      Max(0.0, cooldownUntil - now)
    }
  }
}
