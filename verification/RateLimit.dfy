/** recon/net/rate_limit.py: the token bucket. Rates, tokens and the monotonic clock are
    reals. */
module RateLimit {
  import opened Prelude

  const MIN_RATE: real := 0.01

  function Clamp(rate: real): (r: real)
    ensures r >= MIN_RATE && r >= rate && (r == rate || r == MIN_RATE)
  {
    if rate > MIN_RATE then rate else MIN_RATE
  }

  function Min(a: real, b: real): real {
    if a <= b then a else b
  }

  /** `_rate`, `_tokens`, `_updated`. */
  datatype Bucket = Bucket(rate: real, tokens: real, updated: real)

  function NewBucket(rate: real, now: real): Bucket {
    Bucket(Clamp(rate), Clamp(rate), now)
  }

  function Refill(b: Bucket, now: real): Bucket {
    b.(tokens := Min(b.rate, b.tokens + Credit(b.rate, b.updated, now)), updated := now)
  }

  /** What passing time is worth at a rate. */
  function Credit(rate: real, from: real, to: real): real {
    (to - from) * rate
  }

  predicate Grants(b: Bucket, now: real) {
    Refill(b, now).tokens >= 1.0
  }

  /** One turn of the loop in `acquire`, at the clock reading `now`. */
  function Poll(b: Bucket, now: real): Bucket {
    var f := Refill(b, now);
    if Grants(b, now) then f.(tokens := f.tokens - 1.0) else f
  }

  /** The sleep after a turn that granted nothing. */
  function Sleep(b: Bucket): real
    requires b.rate > 0.0
  {
    (1.0 - b.tokens) / b.rate
  }

  function SetRate(b: Bucket, rate: real): Bucket {
    b.(rate := Clamp(rate))
  }

  /** The turns of one `acquire` at the readings of `clock`: the bucket afterwards, and
      how many turns it took, None if it still waits. */
  ghost function Acquire(b: Bucket, clock: seq<real>): (Bucket, Option<nat>)
    decreases |clock|
  {
    if clock == [] then (b, None)
    else if Grants(b, clock[0]) then (Poll(b, clock[0]), Some(1))
    else Later(Acquire(Poll(b, clock[0]), clock[1..]), 1)
  }

  function Later(r: (Bucket, Option<nat>), n: nat): (Bucket, Option<nat>) {
    (r.0, if r.1.Some? then Some(r.1.value + n) else None)
  }

  /** The clock goes forward, and past each sleep the loop asks for. */
  ghost predicate Honoured(b: Bucket, clock: seq<real>)
    requires b.rate > 0.0
    decreases |clock|
  {
    clock != [] ==>
      && b.updated <= clock[0]
      && (|clock| > 1 && !Grants(b, clock[0]) ==> clock[0] + Sleep(Poll(b, clock[0])) <= clock[1])
      && Honoured(Poll(b, clock[0]), clock[1..])
  }

  lemma SleptEnough(rate: real, tokens: real, from: real, to: real)
    requires rate > 0.0 && from + (1.0 - tokens) / rate <= to
    ensures tokens + (to - from) * rate >= 1.0
  {
    var d := (1.0 - tokens) / rate;
    assert d * rate == 1.0 - tokens;
    assert (to - from - d) * rate >= 0.0;
    assert (to - from) * rate == d * rate + (to - from - d) * rate;
  }

  lemma NotPositive(x: real, y: real)
    requires x <= 0.0 && y > 0.0
    ensures x * y <= 0.0
  {
  }

  /** The sleep is not longer than it has to be: it ends when the token is there. */
  lemma SleepIsExact(b: Bucket)
    requires b.rate > 0.0
    ensures b.tokens + Credit(b.rate, b.updated, b.updated + Sleep(b)) == 1.0
    ensures b.tokens < 1.0 ==> Sleep(b) > 0.0
  {
    var d := (1.0 - b.tokens) / b.rate;
    assert d * b.rate == 1.0 - b.tokens;
    if b.tokens < 1.0 && d <= 0.0 {
      NotPositive(d, b.rate);
    }
  }

  /** At a rate of one or more, `acquire` grants after at most one sleep. */
  lemma {:induction false} LiveAtOneOrMore(b: Bucket, clock: seq<real>)
    requires b.rate >= 1.0 && |clock| >= 2 && Honoured(b, clock)
    ensures Acquire(b, clock).1.Some? && Acquire(b, clock).1.value <= 2
  {
    if !Grants(b, clock[0]) {
      var c := Poll(b, clock[0]);
      SleptEnough(c.rate, c.tokens, clock[0], clock[1]);
      assert Grants(c, clock[1]);
      assert clock[1..][0] == clock[1];
      assert Acquire(c, clock[1..]) == (Poll(c, clock[1]), Some(1));
    }
  }

  /** Below one it never grants, however long it polls. */
  lemma {:induction false} DeadBelowOne(b: Bucket, clock: seq<real>)
    requires b.rate < 1.0
    ensures Acquire(b, clock).1.None? && Acquire(b, clock).0.rate == b.rate
    decreases |clock|
  {
    if clock != [] {
      DeadBelowOne(Poll(b, clock[0]), clock[1..]);
    }
  }

  /** So with a fixed rate, waiting ends exactly when the rate is at least one. */
  lemma LivenessExactly(b: Bucket)
    requires b.rate > 0.0
    ensures b.rate >= 1.0 <==> forall clock :: |clock| >= 2 && Honoured(b, clock) ==> Acquire(b, clock).1.Some?
  {
    if b.rate >= 1.0 {
      forall clock | |clock| >= 2 && Honoured(b, clock) ensures Acquire(b, clock).1.Some? {
        LiveAtOneOrMore(b, clock);
      }
    } else {
      var first := b.updated;
      var c := Poll(b, first);
      var clock := [first, first + Sleep(c)];
      assert clock[1..] == [first + Sleep(c)];
      assert Sleep(c) >= 0.0 by {
        assert c.tokens < 1.0;
        assert (1.0 - c.tokens) / c.rate >= 0.0;
      }
      assert Honoured(Poll(c, first + Sleep(c)), clock[1..][1..]);
      assert Honoured(c, clock[1..]);
      assert Honoured(b, clock);
      DeadBelowOne(b, clock);
    }
  }

  // --------------------------------------------------------------- the window

  /** What happens to the bucket: turns of any caller's `acquire`, and `update_rate`. */
  datatype Event = Turn(now: real) | Rate(rate: real)

  function Step(b: Bucket, e: Event): Bucket {
    match e
    case Turn(now) => Poll(b, now)
    case Rate(rate) => SetRate(b, rate)
  }

  function Granted(b: Bucket, e: Event): nat {
    if e.Turn? && Grants(b, e.now) then 1 else 0
  }

  ghost function Run(b: Bucket, es: seq<Event>): Bucket
    decreases |es|
  {
    if es == [] then b else Run(Step(b, es[0]), es[1..])
  }

  /** The grants among the events. */
  ghost function Count(b: Bucket, es: seq<Event>): nat
    decreases |es|
  {
    if es == [] then 0 else Granted(b, es[0]) + Count(Step(b, es[0]), es[1..])
  }

  /** Clock readings go forward and stay up to `until`; rates stay at or below `base`. */
  ghost predicate Timed(es: seq<Event>, from: real, until: real, base: real)
    decreases |es|
  {
    es != [] ==>
      match es[0]
      case Turn(now) => from <= now <= until && Timed(es[1..], now, until, base)
      case Rate(rate) => rate <= base && Timed(es[1..], from, until, base)
  }

  /** What the limiter keeps: no negative balance, no rate above the ceiling. */
  predicate Fed(b: Bucket, base: real) {
    MIN_RATE <= b.rate <= base && 0.0 <= b.tokens <= base
  }

  lemma CreditFacts(rate: real, base: real, from: real, to: real)
    requires 0.0 <= rate <= base && from <= to
    ensures 0.0 <= Credit(rate, from, to) <= Credit(base, from, to)
  {
    var d := to - from;
    assert d * (base - rate) >= 0.0;
    assert d * base == d * rate + d * (base - rate);
  }

  lemma CreditSplit(base: real, from: real, via: real, to: real)
    ensures Credit(base, from, to) == Credit(base, from, via) + Credit(base, via, to)
  {
  }

  /** What a window of that length may be granted: base * (T + 1). */
  function Allowance(base: real, from: real, to: real): real {
    base * (to - from + 1.0)
  }

  lemma CreditWindow(base: real, from: real, to: real)
    ensures Allowance(base, from, to) == Credit(base, from, to) + base
  {
  }

  lemma RefillFed(b: Bucket, now: real, base: real)
    requires Fed(b, base) && b.updated <= now
    ensures Fed(Refill(b, now), base) && Fed(Poll(b, now), base)
    ensures Refill(b, now).tokens <= b.tokens + Credit(base, b.updated, now)
  {
    CreditFacts(b.rate, base, b.updated, now);
  }

  /** Grants are paid for by the balance and by time at the ceiling rate. */
  lemma {:induction false} GrantsArePaid(b: Bucket, es: seq<Event>, until: real, base: real)
    requires Fed(b, base) && base >= MIN_RATE && b.updated <= until && Timed(es, b.updated, until, base)
    ensures Count(b, es) as real <= b.tokens + Credit(base, b.updated, until)
    decreases |es|
  {
    if es == [] {
      CreditFacts(base, base, b.updated, until);
    } else {
      if es[0].Turn? {
        RefillFed(b, es[0].now, base);
        CreditSplit(base, b.updated, es[0].now, until);
      }
      GrantsArePaid(Step(b, es[0]), es[1..], until, base);
    }
  }

  /** The window bound: turns within `[from, until]` are granted at most
      `base * (until - from + 1)` times, whatever the balance, the earlier idle time and
      the rate changes in between. */
  lemma {:induction false} WindowBound(b: Bucket, es: seq<Event>, from: real, until: real, base: real)
    requires Fed(b, base) && base >= MIN_RATE && from <= until
    requires Timed(es, if b.updated <= from then from else b.updated, until, base)
    ensures Count(b, es) as real <= Allowance(base, from, until)
    decreases |es|
  {
    CreditWindow(base, from, until);
    if es == [] {
      CreditFacts(base, base, from, until);
    } else if es[0].Turn? {
      RefillFed(b, es[0].now, base);
      GrantsArePaid(Poll(b, es[0].now), es[1..], until, base);
      CreditSplit(base, from, es[0].now, until);
      CreditFacts(base, base, from, es[0].now);
    } else {
      WindowBound(Step(b, es[0]), es[1..], from, until, base);
    }
  }

  // -------------------------------------------------------------- the balance

  /** What the time between the turns is worth, each stretch at the rate it passed at. */
  ghost function Earned(b: Bucket, es: seq<Event>): real
    decreases |es|
  {
    if es == [] then 0.0
    else (if es[0].Turn? then Credit(b.rate, b.updated, es[0].now) else 0.0) + Earned(Step(b, es[0]), es[1..])
  }

  /** No refill reaches the capacity of the bucket. */
  ghost predicate NeverFull(b: Bucket, es: seq<Event>)
    decreases |es|
  {
    es != [] ==>
      && (es[0].Turn? ==> b.tokens + Credit(b.rate, b.updated, es[0].now) <= b.rate)
      && NeverFull(Step(b, es[0]), es[1..])
  }

  /** A grant costs exactly one token: as long as the bucket does not overflow, the balance
      and the grants together are what there was and what time has earned since. */
  lemma {:induction false} TokensAreConserved(b: Bucket, es: seq<Event>)
    requires NeverFull(b, es)
    ensures Run(b, es).tokens + Count(b, es) as real == b.tokens + Earned(b, es)
    decreases |es|
  {
    if es != [] {
      TokensAreConserved(Step(b, es[0]), es[1..]);
    }
  }

  /** `n` turns at one instant. */
  ghost function AtOnce(now: real, n: nat): seq<Event> {
    if n == 0 then [] else [Turn(now)] + AtOnce(now, n - 1)
  }

  lemma {:induction false} BurstFrom(b: Bucket, now: real, n: nat)
    requires b.updated == now && b.tokens <= b.rate && n as real <= b.tokens
    ensures Count(b, AtOnce(now, n)) == n
    decreases n
  {
    if n > 0 {
      assert Credit(b.rate, now, now) == 0.0;
      assert AtOnce(now, n)[1..] == AtOnce(now, n - 1);
      BurstFrom(Poll(b, now), now, n - 1);
    }
  }

  /** A new bucket is full: as many requests as its rate go out at once. */
  lemma NewBucketIsFull(rate: real, now: real, n: nat)
    requires n as real <= rate
    ensures Count(NewBucket(rate, now), AtOnce(now, n)) == n
  {
    BurstFrom(NewBucket(rate, now), now, n);
  }

  /** A turn is granted exactly if a token is there, and no token is left unused: a turn that
      is not granted finds less than one. */
  lemma GrantedExactly(b: Bucket, now: real)
    ensures Granted(b, Turn(now)) == 1 <==> b.rate >= 1.0 && b.tokens + Credit(b.rate, b.updated, now) >= 1.0
    ensures Granted(b, Turn(now)) == 0 ==> Poll(b, now).tokens < 1.0
  {
  }

  // --------------------------------------------------------------- the class

  class RateLimiter {
    var rate: real
    var tokens: real
    var updated: real

    function Now(): Bucket
      reads this
    {
      Bucket(rate, tokens, updated)
    }

    constructor (ratePerSecond: real, now: real)
      ensures Now() == NewBucket(ratePerSecond, now)
    {
      rate := Clamp(ratePerSecond);
      tokens := Clamp(ratePerSecond);
      updated := now;
    }

    /** `acquire`, observed for as long as the readings of `clock` last: the number of
        turns it took, None while it is still asleep. */
    method AcquireToken(clock: seq<real>) returns (turns: Option<nat>)
      modifies this
      ensures (Now(), turns) == Acquire(old(Now()), clock)
    {
      var i := 0;
      while i < |clock|
        invariant 0 <= i <= |clock|
        invariant Acquire(old(Now()), clock) == Later(Acquire(Now(), clock[i..]), i)
      {
        ghost var before := Now();
        var now := clock[i];
        assert clock[i..][0] == now && clock[i..][1..] == clock[i + 1..];
        tokens := Min(rate, tokens + Credit(rate, updated, now));
        updated := now;
        assert Now() == Refill(before, now);
        i := i + 1;
        if tokens >= 1.0 {
          tokens := tokens - 1.0;
          return Some(i);
        }
      }
      turns := None;
    }

    method UpdateRate(ratePerSecond: real)
      modifies this
      ensures Now() == SetRate(old(Now()), ratePerSecond)
    {
      rate := Clamp(ratePerSecond);
    }
  }
}
