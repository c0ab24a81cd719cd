/**
  The token bucket behind the API rate limits (packages/types/src/rate-limits.ts), with times in
  milliseconds and tokens as exact reals.
 */
module TokenBucket {

  datatype LimitScope = User | Tenant | Runs | Provider

  datatype RateLimit = RateLimit(scope: LimitScope, limit: int, windowSeconds: int, burst: int)

  datatype Bucket = Bucket(tokens: real, refilledAt: real)

  datatype Decision =
    | Allow(remaining: int)
    | Refuse(retryAfterSeconds: int, limit: int, scope: LimitScope)

  const MAX_CONFIGURABLE_LIMIT := 100_000

  datatype LimitProblem = LimitBelowOne | LimitAboveMaximum | BurstBelowOne | BurstAboveLimit | WindowBelowOne

  method LimitProblems(limit: RateLimit) returns (problems: seq<LimitProblem>)
    ensures problems == [] <==>
            1 <= limit.burst <= limit.limit <= 100_000 && (limit.scope == Runs || 1 <= limit.windowSeconds)
  {
    problems := [];
    if limit.limit < 1 {
      problems := problems + [LimitBelowOne];
    } else if limit.limit > MAX_CONFIGURABLE_LIMIT {
      problems := problems + [LimitAboveMaximum];
    }
    if limit.burst < 1 {
      problems := problems + [BurstBelowOne];
    } else if limit.burst > limit.limit {
      problems := problems + [BurstAboveLimit];
    }
    if limit.scope != Runs && limit.windowSeconds < 1 {
      problems := problems + [WindowBelowOne];
    }
  }

  /** A limit that refills over time. `Runs` is a ceiling on work in flight and has no window. */
  predicate Refills(limit: RateLimit) {
    1 <= limit.limit && 1 <= limit.windowSeconds && 1 <= limit.burst
  }

  function Ceil(x: real): (n: int)
    ensures n as real - 1.0 < x <= n as real
  {
    -((-x).Floor)
  }

  function MaxR(a: real, b: real): real { if a < b then b else a }

  function MinR(a: real, b: real): real { if a < b then a else b }

  function PerSecond(limit: RateLimit): (rate: real)
    requires Refills(limit)
    ensures rate > 0.0
  {
    limit.limit as real / limit.windowSeconds as real
  }

  function Refilled(state: Bucket, limit: RateLimit, now: real): real
    requires Refills(limit)
  {
    var elapsedSeconds := MaxR(0.0, (now - state.refilledAt) / 1000.0);
    MinR(limit.burst as real, state.tokens + elapsedSeconds * PerSecond(limit))
  }

  function ConsumeToken(state: Bucket, limit: RateLimit, now: real): (Bucket, Decision)
    requires Refills(limit)
  {
    var refilled := Refilled(state, limit, now);
    if refilled < 1.0 then
      var secondsUntilOne := (1.0 - refilled) / PerSecond(limit);
      var seconds := if Ceil(secondsUntilOne) < 1 then 1 else Ceil(secondsUntilOne);
      (Bucket(refilled, now), Refuse(seconds, limit.limit, limit.scope))
    else
      (Bucket(refilled - 1.0, now), Allow((refilled - 1.0).Floor))
  }

  function FreshBucket(limit: RateLimit, now: real): Bucket { Bucket(limit.burst as real, now) }

  // ----- runs of calls against one bucket -----

  function After(start: Bucket, limit: RateLimit, times: seq<real>): Bucket
    requires Refills(limit)
  {
    if times == [] then start
    else ConsumeToken(After(start, limit, times[..|times| - 1]), limit, times[|times| - 1]).0
  }

  /** How many of the calls are allowed. */
  function Allowed(start: Bucket, limit: RateLimit, times: seq<real>): nat
    requires Refills(limit)
  {
    if times == [] then 0
    else
      var front := times[..|times| - 1];
      var decision := ConsumeToken(After(start, limit, front), limit, times[|times| - 1]).1;
      Allowed(start, limit, front) + if decision.Allow? then 1 else 0
  }

  ghost predicate NonDecreasing(times: seq<real>) {
    forall i, j :: 0 <= i < j < |times| ==> times[i] <= times[j]
  }

  ghost predicate InRange(state: Bucket, limit: RateLimit) {
    0.0 <= state.tokens <= limit.burst as real
  }

  /** The tokens a bucket would have earned since time zero. */
  function Level(limit: RateLimit, at: real): real
    requires Refills(limit)
  {
    at / 1000.0 * PerSecond(limit)
  }

  /** Tokens earned between two instants. */
  function Earned(limit: RateLimit, from: real, to: real): real
    requires Refills(limit)
  {
    Level(limit, to) - Level(limit, from)
  }

  lemma {:induction false} EarnedIsTheRate(limit: RateLimit, from: real, to: real)
    requires Refills(limit)
    ensures Earned(limit, from, to) == limit.limit as real * (to - from) / (1000.0 * limit.windowSeconds as real)
    ensures Earned(limit, from, to) == (to - from) / 1000.0 * PerSecond(limit)
    ensures from <= to ==> Earned(limit, from, to) >= 0.0
  {
    var l, w, d, r := limit.limit as real, limit.windowSeconds as real, to - from, PerSecond(limit);
    assert to / 1000.0 * r - from / 1000.0 * r == d / 1000.0 * r;
    assert d / 1000.0 * (l / w) == l * d / (1000.0 * w);
  }

  /** A call at a clock that has not gone back: refill by what was earned, then take one if there is one. */
  lemma {:induction false} OneCall(state: Bucket, limit: RateLimit, now: real)
    requires Refills(limit) && InRange(state, limit) && state.refilledAt <= now
    ensures var refilled := MinR(limit.burst as real, state.tokens + Earned(limit, state.refilledAt, now));
            var (next, decision) := ConsumeToken(state, limit, now);
            && next.refilledAt == now
            && Earned(limit, state.refilledAt, now) >= 0.0
            && (refilled < 1.0 ==> decision.Refuse? && next.tokens == refilled)
            && (refilled >= 1.0 ==> decision.Allow? && next.tokens == refilled - 1.0)
  {
    EarnedIsTheRate(limit, state.refilledAt, now);
  }

  /** One call, whatever the clock says: tokens stay within the bucket. */
  lemma {:induction false} StaysInRange(state: Bucket, limit: RateLimit, now: real)
    requires Refills(limit) && InRange(state, limit)
    ensures InRange(ConsumeToken(state, limit, now).0, limit)
    ensures ConsumeToken(state, limit, now).0.tokens < limit.burst as real
  {
    var elapsed := MaxR(0.0, (now - state.refilledAt) / 1000.0);
    assert elapsed * PerSecond(limit) >= 0.0;
  }

  /** Allowed calls plus what is left never exceed a full bucket plus what was earned meanwhile. */
  lemma {:induction false} CallsArePaidFor(start: Bucket, limit: RateLimit, times: seq<real>)
    requires Refills(limit) && InRange(start, limit) && times != [] && NonDecreasing(times)
    ensures InRange(After(start, limit, times), limit)
    ensures After(start, limit, times).refilledAt == times[|times| - 1]
    ensures Allowed(start, limit, times) as real + After(start, limit, times).tokens
            <= limit.burst as real + Earned(limit, times[0], times[|times| - 1])
  {
    var front, now := times[..|times| - 1], times[|times| - 1];
    if front != [] { CallsArePaidFor(start, limit, front); }
    StaysInRange(After(start, limit, front), limit, now);
    if front != [] {
      assert front[|front| - 1] == times[|times| - 2];
      OneCall(After(start, limit, front), limit, now);
    }
  }

  lemma {:induction false} RunSplits(start: Bucket, limit: RateLimit, first: seq<real>, rest: seq<real>)
    requires Refills(limit)
    ensures After(start, limit, first + rest) == After(After(start, limit, first), limit, rest)
    ensures Allowed(start, limit, first + rest)
         == Allowed(start, limit, first) + Allowed(After(start, limit, first), limit, rest)
  {
    if rest == [] {
      assert first + rest == first;
    } else {
      RunSplits(start, limit, first, rest[..|rest| - 1]);
      assert (first + rest)[..|first + rest| - 1] == first + rest[..|rest| - 1];
    }
  }

  lemma {:induction false} RunStaysInRange(start: Bucket, limit: RateLimit, times: seq<real>)
    requires Refills(limit) && InRange(start, limit)
    ensures InRange(After(start, limit, times), limit)
  {
    if times != [] {
      RunStaysInRange(start, limit, times[..|times| - 1]);
      StaysInRange(After(start, limit, times[..|times| - 1]), limit, times[|times| - 1]);
    }
  }

  /**
    The rate bound. In any run with a clock that does not go back, the calls allowed during any
    interval [s, t] number at most burst + limit * (t - s) / window.
   */
  lemma {:induction false} RateBound(start: Bucket, limit: RateLimit, times: seq<real>, lo: nat, hi: nat, s: real, t: real)
    requires Refills(limit) && InRange(start, limit) && NonDecreasing(times)
    requires lo <= hi <= |times| && s <= t && forall i :: lo <= i < hi ==> s <= times[i] <= t
    ensures (Allowed(start, limit, times[..hi]) - Allowed(start, limit, times[..lo])) as real
            <= limit.burst as real + limit.limit as real * (t - s) / (1000.0 * limit.windowSeconds as real)
  {
    var during := times[lo..hi];
    assert times[..hi] == times[..lo] + during;
    RunSplits(start, limit, times[..lo], during);
    EarnedIsTheRate(limit, s, t);
    if during != [] {
      RunStaysInRange(start, limit, times[..lo]);
      var first, last := during[0], during[|during| - 1];
      CallsArePaidFor(After(start, limit, times[..lo]), limit, during);
      EarnedIsTheRate(limit, s, first);
      EarnedIsTheRate(limit, last, t);
    }
  }

  /** How far the clock moved forward in all, starting from an instant. */
  function Forward(at: real, times: seq<real>): real {
    if times == [] then 0.0
    else
      var front, last := times[..|times| - 1], times[|times| - 1];
      var before := if front == [] then at else front[|front| - 1];
      Forward(at, front) + MaxR(0.0, last - before)
  }

  lemma {:induction false} LevelsAdd(limit: RateLimit, a: real, b: real)
    requires Refills(limit)
    ensures Level(limit, a + b) == Level(limit, a) + Level(limit, b)
    ensures b >= 0.0 ==> Level(limit, b) >= 0.0
  {
    var rate := PerSecond(limit);
    assert (a / 1000.0 + b / 1000.0) * rate == a / 1000.0 * rate + b / 1000.0 * rate;
  }

  /** One call pays for itself whatever the clock does: only forward movement earns. */
  lemma {:induction false} OneCallIsPaidFor(state: Bucket, limit: RateLimit, now: real)
    requires Refills(limit)
    ensures var (next, decision) := ConsumeToken(state, limit, now);
            && next.refilledAt == now
            && next.tokens + (if decision.Allow? then 1.0 else 0.0)
               <= state.tokens + Level(limit, MaxR(0.0, now - state.refilledAt))
  {
    assert MaxR(0.0, (now - state.refilledAt) / 1000.0) == MaxR(0.0, now - state.refilledAt) / 1000.0;
  }

  /**
    The law for every clock, forward or back: allowed calls plus tokens left never exceed the tokens at
    the start plus what the clock's forward movement earns.
   */
  lemma {:induction false} ForwardMovementPays(start: Bucket, limit: RateLimit, times: seq<real>)
    requires Refills(limit)
    ensures Allowed(start, limit, times) as real + After(start, limit, times).tokens
            <= start.tokens + Level(limit, Forward(start.refilledAt, times))
    ensures times != [] ==> After(start, limit, times).refilledAt == times[|times| - 1]
  {
    if times == [] {
      assert Level(limit, 0.0) == 0.0;
    } else {
      var front, now := times[..|times| - 1], times[|times| - 1];
      ForwardMovementPays(start, limit, front);
      var before := After(start, limit, front);
      OneCallIsPaidFor(before, limit, now);
      LevelsAdd(limit, Forward(start.refilledAt, front), MaxR(0.0, now - before.refilledAt));
    }
  }

  /** A clock that alternates between one second and zero. */
  function Jumps(n: nat): seq<real> {
    if n == 0 then [] else Jumps(n - 1) + [1000.0, 0.0]
  }

  lemma {:induction false} JumpsStayWithinASecond(n: nat)
    ensures forall t :: t in Jumps(n) ==> 0.0 <= t <= 1000.0
  {
    if n > 0 { JumpsStayWithinASecond(n - 1); }
  }

  /**
    With a clock that jumps back there is no bound at all: within one second, and at one call a
    second, any number of calls is allowed.
   */
  lemma {:induction false} ClockGoingBackBreaksTheBound(limit: RateLimit, n: nat)
    requires limit == RateLimit(User, 1, 1, 1)
    ensures Allowed(Bucket(1.0, 1000.0), limit, Jumps(n)) == n
    ensures After(Bucket(1.0, 1000.0), limit, Jumps(n)) == if n == 0 then Bucket(1.0, 1000.0) else Bucket(0.0, 0.0)
  {
    if n > 0 {
      ClockGoingBackBreaksTheBound(limit, n - 1);
      OneMoreJump(Bucket(1.0, 1000.0), limit, Jumps(n - 1));
    }
  }

  lemma {:induction false} BackAndForth(start: Bucket, limit: RateLimit)
    requires limit == RateLimit(User, 1, 1, 1)
    requires start == Bucket(1.0, 1000.0) || start == Bucket(0.0, 0.0)
    ensures After(start, limit, [1000.0, 0.0]) == Bucket(0.0, 0.0)
    ensures Allowed(start, limit, [1000.0, 0.0]) == 1
  {
    assert PerSecond(limit) == 1.0;
    assert [1000.0, 0.0][..1] == [1000.0];
  }

  lemma {:induction false} OneMoreJump(start: Bucket, limit: RateLimit, before: seq<real>)
    requires limit == RateLimit(User, 1, 1, 1)
    requires After(start, limit, before) == Bucket(1.0, 1000.0) || After(start, limit, before) == Bucket(0.0, 0.0)
    ensures After(start, limit, before + [1000.0, 0.0]) == Bucket(0.0, 0.0)
    ensures Allowed(start, limit, before + [1000.0, 0.0]) == Allowed(start, limit, before) + 1
  {
    RunSplits(start, limit, before, [1000.0, 0.0]);
    BackAndForth(After(start, limit, before), limit);
  }

  // ----- Retry-After -----

  /** The instant from which one whole token exists, for a bucket that refused. */
  function ReadyAt(refused: Bucket, limit: RateLimit): real
    requires Refills(limit)
  {
    refused.refilledAt + 1000.0 * ((1.0 - refused.tokens) / PerSecond(limit))
  }

  lemma {:induction false} ReadyWhenEarned(refused: Bucket, limit: RateLimit, now: real)
    requires Refills(limit)
    ensures now >= ReadyAt(refused, limit) <==> refused.tokens + Earned(limit, refused.refilledAt, now) >= 1.0
  {
    var r, d, e := PerSecond(limit), 1.0 - refused.tokens, (now - refused.refilledAt) / 1000.0;
    EarnedIsTheRate(limit, refused.refilledAt, now);
    assert d / r * r == d;
    if e >= d / r { assert e * r >= d / r * r; } else { assert e * r < d / r * r; }
  }

  /** The instant of the latest call, or of the refusal when nothing was called since. */
  function Latest(refused: Bucket, times: seq<real>): real {
    if times == [] then refused.refilledAt else times[|times| - 1]
  }

  ghost predicate Follows(refused: Bucket, times: seq<real>) {
    NonDecreasing(times) && (times != [] ==> refused.refilledAt <= times[0])
  }

  lemma {:induction false} LatestGrows(refused: Bucket, times: seq<real>)
    requires Follows(refused, times) && times != []
    ensures Follows(refused, times[..|times| - 1])
    ensures Latest(refused, times[..|times| - 1]) <= Latest(refused, times)
  {
    if |times| > 1 { assert times[|times| - 2] <= times[|times| - 1]; }
  }

  /** Refused polls change nothing: refilling in pieces equals refilling at once. */
  lemma {:induction false} RefusedPollsOnlyRefill(refused: Bucket, limit: RateLimit, times: seq<real>)
    requires Refills(limit) && 0.0 <= refused.tokens < 1.0 && Follows(refused, times)
    requires Allowed(refused, limit, times) == 0
    ensures After(refused, limit, times).refilledAt == Latest(refused, times)
    ensures After(refused, limit, times).tokens == refused.tokens + Earned(limit, refused.refilledAt, Latest(refused, times)) < 1.0
    ensures InRange(After(refused, limit, times), limit)
  {
    if times != [] {
      var front, now := times[..|times| - 1], times[|times| - 1];
      LatestGrows(refused, times);
      RefusedPollsOnlyRefill(refused, limit, front);
      OneCall(After(refused, limit, front), limit, now);
      StaysInRange(After(refused, limit, front), limit, now);
    }
  }

  /**
    After a refusal some later call is allowed exactly when the clock has reached the instant at
    which one token exists, however many refused polls came in between.
   */
  lemma {:induction false} AllowedExactlyWhenReady(refused: Bucket, limit: RateLimit, times: seq<real>)
    requires Refills(limit) && 0.0 <= refused.tokens < 1.0 && Follows(refused, times) && times != []
    ensures Allowed(refused, limit, times) > 0 <==> times[|times| - 1] >= ReadyAt(refused, limit)
  {
    var front, now := times[..|times| - 1], times[|times| - 1];
    LatestGrows(refused, times);
    if Allowed(refused, limit, front) > 0 {
      AllowedExactlyWhenReady(refused, limit, front);
    } else {
      RefusedPollsOnlyRefill(refused, limit, front);
      OneCall(After(refused, limit, front), limit, now);
      ReadyWhenEarned(refused, limit, now);
    }
  }

  /**
    `Retry-After` is honest and not longer than needed: waiting it out always succeeds, whatever is
    polled meanwhile, and waiting one second less never does.
   */
  lemma {:induction false} RetryAfterIsHonest(state: Bucket, limit: RateLimit, now: real, times: seq<real>)
    requires Refills(limit) && InRange(state, limit) && ConsumeToken(state, limit, now).1.Refuse?
    requires times != [] && NonDecreasing(times) && now <= times[0]
    ensures var (refused, decision) := ConsumeToken(state, limit, now);
            var seconds := decision.retryAfterSeconds;
            && seconds >= 1
            && (times[|times| - 1] >= now + 1000.0 * seconds as real ==> Allowed(refused, limit, times) > 0)
            && (seconds > 1 && times[|times| - 1] <= now + 1000.0 * (seconds - 1) as real ==> Allowed(refused, limit, times) == 0)
  {
    var refused := ConsumeToken(state, limit, now).0;
    StaysInRange(state, limit, now);
    AllowedExactlyWhenReady(refused, limit, times);
  }

  // ----- what a call is told, and what it leaves behind -----

  /** A refusal names its limit; an allowance says how many whole tokens are left. */
  lemma {:induction false} DecisionReports(state: Bucket, limit: RateLimit, now: real)
    requires Refills(limit) && InRange(state, limit)
    ensures var (next, decision) := ConsumeToken(state, limit, now);
            match decision
            case Refuse(_, l, scope) => l == limit.limit && scope == limit.scope
            case Allow(remaining) => remaining as real <= next.tokens < remaining as real + 1.0
  {
  }

  /** Calls at one moment to a bucket that starts full: exactly a burst of them is allowed. */
  function SameMoment(n: nat, at: real): seq<real> { seq(n, i => at) }

  lemma {:induction false} CallWithoutDelay(state: Bucket, limit: RateLimit)
    requires Refills(limit) && InRange(state, limit)
    ensures var (next, decision) := ConsumeToken(state, limit, state.refilledAt);
            && next.refilledAt == state.refilledAt
            && (state.tokens >= 1.0 ==> decision.Allow? && next.tokens == state.tokens - 1.0)
            && (state.tokens < 1.0 ==> decision.Refuse? && next.tokens == state.tokens)
  {
    OneCall(state, limit, state.refilledAt);
  }

  lemma {:induction false} FreshBucketServesItsBurst(limit: RateLimit, at: real, n: nat)
    requires Refills(limit)
    ensures Allowed(FreshBucket(limit, at), limit, SameMoment(n, at)) == if n < limit.burst then n else limit.burst
    ensures After(FreshBucket(limit, at), limit, SameMoment(n, at))
         == Bucket(if n < limit.burst then (limit.burst - n) as real else 0.0, at)
  {
    if n > 0 {
      var m := n - 1;
      FreshBucketServesItsBurst(limit, at, m);
      assert SameMoment(n, at)[..m] == SameMoment(m, at);
      CallWithoutDelay(After(FreshBucket(limit, at), limit, SameMoment(m, at)), limit);
    } else {
      assert SameMoment(0, at) == [];
    }
  }

  /**
    A stored bucket is the outcome of a call, so by its own limit it is never full, however long it has
    been idle.
   */
  lemma {:induction false} StoredBucketIsNeverFull(limit: RateLimit, created: real, times: seq<real>)
    requires Refills(limit) && times != []
    ensures After(FreshBucket(limit, created), limit, times).tokens < limit.burst as real
  {
    RunStaysInRange(FreshBucket(limit, created), limit, times[..|times| - 1]);
    StaysInRange(After(FreshBucket(limit, created), limit, times[..|times| - 1]), limit, times[|times| - 1]);
  }
}
