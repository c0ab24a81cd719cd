/**
  The in-process store of the rate limiter (apps/api/src/rate-limits/rate-limit.store.ts). One Map holds
  the buckets of users, tenants and providers, each under the limit of its own key, and every 2,000th
  call drops buckets that look idle by the limit of that call.
 */
module RateLimitStore {
  import opened TokenBucket

  const PRUNE_EVERY := 2_000

  datatype Store = Store(buckets: map<string, Bucket>, callsSincePrune: nat)

  const EMPTY := Store(map[], 0)

  /** Two of the pruner's windows, in milliseconds. */
  function IdleOf(pruner: RateLimit): real { (pruner.windowSeconds * 2_000) as real }

  /** The test of `maybePrune`, by the limit of the call that prunes. */
  predicate Stale(state: Bucket, pruner: RateLimit, now: real) {
    state.tokens >= pruner.burst as real && state.refilledAt < now - IdleOf(pruner)
  }

  function Prune(buckets: map<string, Bucket>, pruner: RateLimit, now: real): map<string, Bucket> {
    map key | key in buckets && !Stale(buckets[key], pruner, now) :: buckets[key]
  }

  /** One call against the Map: a missing bucket starts full. */
  function Serve(buckets: map<string, Bucket>, key: string, limit: RateLimit, now: real): (map<string, Bucket>, Decision)
    requires Refills(limit)
  {
    var state := if key in buckets then buckets[key] else FreshBucket(limit, now);
    var (next, decision) := ConsumeToken(state, limit, now);
    (buckets[key := next], decision)
  }

  function ConsumeAt(s: Store, key: string, limit: RateLimit, now: real): (Store, Decision)
    requires Refills(limit)
  {
    var due := s.callsSincePrune + 1 >= PRUNE_EVERY;
    var (buckets, decision) := Serve(if due then Prune(s.buckets, limit, now) else s.buckets, key, limit, now);
    (Store(buckets, if due then 0 else s.callsSincePrune + 1), decision)
  }

  class InProcessRateLimitStore {
    var buckets: map<string, Bucket>
    var callsSincePrune: nat

    constructor ()
      ensures Contents() == EMPTY
    {
      buckets, callsSincePrune := map[], 0;
    }

    function Contents(): Store
      reads this
    {
      Store(buckets, callsSincePrune)
    }

    method Consume(key: string, limit: RateLimit, now: real) returns (decision: Decision)
      requires Refills(limit)
      modifies this
      ensures (Contents(), decision) == ConsumeAt(old(Contents()), key, limit, now)
    {
      MaybePrune(limit, now);
      var state := if key in buckets then buckets[key] else FreshBucket(limit, now);
      var (next, made) := ConsumeToken(state, limit, now);
      buckets := buckets[key := next];
      decision := made;
    }

    method MaybePrune(pruner: RateLimit, now: real)
      modifies this
      ensures var due := old(callsSincePrune) + 1 >= PRUNE_EVERY;
              && buckets == (if due then Prune(old(buckets), pruner, now) else old(buckets))
              && callsSincePrune == if due then 0 else old(callsSincePrune) + 1
    {
      callsSincePrune := callsSincePrune + 1;
      if callsSincePrune < PRUNE_EVERY { return; }
      callsSincePrune := 0;
      var left := buckets.Keys;
      while left != {}
        invariant left <= buckets.Keys <= old(buckets).Keys
        invariant forall key :: key in buckets ==> buckets[key] == old(buckets)[key]
        invariant forall key :: key in old(buckets) && key !in left ==>
                    (key in buckets <==> !Stale(old(buckets)[key], pruner, now))
        invariant callsSincePrune == 0
        decreases |left|
      {
        var key :| key in left;
        left := left - {key};
        if Stale(buckets[key], pruner, now) { buckets := buckets - {key}; }
      }
    }
  }

  // ----- when dropping one bucket is invisible -----

  /** Dropping a bucket is invisible to its next call, in decision and in state, exactly when it would have been full by then. */
  lemma {:induction false} DropIsInvisibleExactlyWhen(state: Bucket, own: RateLimit, at: real)
    requires Refills(own)
    ensures ConsumeToken(state, own, at) == ConsumeToken(FreshBucket(own, at), own, at) <==> Refilled(state, own, at) == own.burst as real
  {
    var elapsed := MaxR(0.0, (at - at) / 1000.0);
    assert elapsed == 0.0 && elapsed * PerSecond(own) == 0.0;
    assert Refilled(FreshBucket(own, at), own, at) == own.burst as real;
  }

  /** What a call can leave in a bucket. */
  ghost predicate Stored(state: Bucket, own: RateLimit) {
    InRange(state, own) && (state.tokens <= own.burst as real - 1.0 || state.tokens < 1.0)
  }

  lemma {:induction false} CallStores(state: Bucket, own: RateLimit, at: real)
    requires Refills(own) && InRange(state, own)
    ensures Stored(ConsumeToken(state, own, at).0, own) && ConsumeToken(state, own, at).0.refilledAt == at
  {
    StaysInRange(state, own, at);
  }

  /** By then the bucket has earned all that it lacks. */
  ghost predicate FullBy(state: Bucket, own: RateLimit, at: real)
    requires Refills(own)
  {
    state.refilledAt <= at && state.tokens + Earned(own, state.refilledAt, at) >= own.burst as real
  }

  lemma {:induction false} FullByMeansFull(state: Bucket, own: RateLimit, at: real)
    requires Refills(own) && state.refilledAt <= at
    ensures FullBy(state, own, at) <==> Refilled(state, own, at) == own.burst as real
  {
    EarnedIsTheRate(own, state.refilledAt, at);
  }

  lemma {:induction false} DropShowsUnlessFull(state: Bucket, own: RateLimit, at: real)
    requires Refills(own) && state.refilledAt <= at
    ensures ConsumeToken(state, own, at) == ConsumeToken(FreshBucket(own, at), own, at) <==> FullBy(state, own, at)
  {
    FullByMeansFull(state, own, at);
    DropIsInvisibleExactlyWhen(state, own, at);
  }

  lemma {:induction false} EarnedAddsUp(own: RateLimit, from: real, to: real, later: real)
    requires Refills(own) && to <= later
    ensures Earned(own, from, later) >= Earned(own, from, to)
    ensures Earned(own, from, from) == 0.0
  {
    EarnedIsTheRate(own, to, later);
  }

  /** A bucket with as many tokens as the pruner's burst has refilled by its own limit after two of the pruner's windows. */
  predicate Harmless(own: RateLimit, pruner: RateLimit)
    requires Refills(own)
  {
    pruner.burst as real + Earned(own, 0.0, IdleOf(pruner)) >= own.burst as real
  }

  lemma {:induction false} StaleIsFull(state: Bucket, own: RateLimit, pruner: RateLimit, now: real)
    requires Refills(own) && Refills(pruner) && Harmless(own, pruner) && Stale(state, pruner, now)
    ensures FullBy(state, own, now)
  {
    var idle := IdleOf(pruner);
    EarnedIsTheRate(own, 0.0, idle);
    EarnedIsTheRate(own, state.refilledAt, state.refilledAt + idle);
    EarnedAddsUp(own, state.refilledAt, state.refilledAt + idle, now);
  }

  /** Whatever this pruner drops of a key with this limit, and whenever, the key's next call cannot tell. */
  ghost predicate NoDropShows(own: RateLimit, pruner: RateLimit)
    requires Refills(own)
  {
    forall state, now, at :: Stored(state, own) && Stale(state, pruner, now) && now <= at ==>
      ConsumeToken(state, own, at) == ConsumeToken(FreshBucket(own, at), own, at)
  }

  lemma {:induction false} StaleDropIsInvisible(state: Bucket, own: RateLimit, pruner: RateLimit, now: real, at: real)
    requires Refills(own) && Refills(pruner) && Harmless(own, pruner) && Stale(state, pruner, now) && now <= at
    ensures ConsumeToken(state, own, at) == ConsumeToken(FreshBucket(own, at), own, at)
  {
    StaleIsFull(state, own, pruner, now);
    EarnedAddsUp(own, state.refilledAt, now, at);
    DropShowsUnlessFull(state, own, at);
  }

  lemma {:induction false} EarnMore(own: RateLimit, from: real, more: real) returns (at: real)
    requires Refills(own) && more > 0.0
    ensures at > from && Earned(own, 0.0, at) == Earned(own, 0.0, from) + more
  {
    var rate := PerSecond(own);
    var seconds := more / rate;
    assert seconds > 0.0 && seconds * rate == more;
    at := from + 1000.0 * seconds;
    assert (from / 1000.0 + seconds) * rate == from / 1000.0 * rate + seconds * rate;
  }

  lemma {:induction false} WhatIsLacking(own: RateLimit, pruner: RateLimit) returns (short: real)
    requires Refills(own) && Refills(pruner) && !Harmless(own, pruner)
    ensures short > 0.0 && pruner.burst as real + Earned(own, 0.0, IdleOf(pruner)) + short == own.burst as real
    ensures pruner.burst < own.burst
  {
    EarnedAddsUp(own, 0.0, 0.0, IdleOf(pruner));
    short := own.burst as real - pruner.burst as real - Earned(own, 0.0, IdleOf(pruner));
  }

  /** A bucket just idle enough to be dropped, and still short of full. */
  lemma {:induction false} ShortBucket(own: RateLimit, pruner: RateLimit) returns (state: Bucket, now: real)
    requires Refills(own) && Refills(pruner) && !Harmless(own, pruner)
    ensures Stored(state, own) && Stale(state, pruner, now) && state.refilledAt <= now && !FullBy(state, own, now)
  {
    var short := WhatIsLacking(own, pruner);
    now := EarnMore(own, IdleOf(pruner), short / 2.0);
    state := Bucket(pruner.burst as real, 0.0);
    assert Earned(own, 0.0, now) == Earned(own, 0.0, IdleOf(pruner)) + short / 2.0;
    assert Stored(state, own);
    assert Stale(state, pruner, now);
  }

  /** The exact condition, between two limits, under which pruning is behaviour-preserving. */
  lemma {:induction false} PruningIsInvisibleExactlyWhen(own: RateLimit, pruner: RateLimit)
    requires Refills(own) && Refills(pruner)
    ensures NoDropShows(own, pruner) <==> Harmless(own, pruner)
  {
    if Harmless(own, pruner) {
      forall state, now, at | Stored(state, own) && Stale(state, pruner, now) && now <= at
        ensures ConsumeToken(state, own, at) == ConsumeToken(FreshBucket(own, at), own, at)
      {
        StaleDropIsInvisible(state, own, pruner, now, at);
      }
    } else {
      var state, now := ShortBucket(own, pruner);
      DropShowsUnlessFull(state, own, now);
      assert !NoDropShows(own, pruner);
    }
  }

  /** It holds for configurable limits whenever the bucket's window is at most twice the pruner's: for equal windows, say. */
  lemma {:induction false} SimilarWindowsAreHarmless(own: RateLimit, pruner: RateLimit)
    requires Refills(own) && Refills(pruner) && own.burst <= own.limit && own.windowSeconds <= 2 * pruner.windowSeconds
    ensures Harmless(own, pruner)
  {
    var rate, window, idle := PerSecond(own), own.windowSeconds as real, (2 * pruner.windowSeconds) as real;
    EarnedIsTheRate(own, 0.0, IdleOf(pruner));
    assert rate * window == own.limit as real;
    assert (idle - window) * rate >= 0.0;
    assert idle * rate >= own.limit as real;
  }

  /** Limits that nothing configures: with a tenant limit of a long window its bucket is dropped three seconds after a call, and the next call is given a token back. */
  lemma {:induction false} LongWindowIsForgotten()
    ensures var own, pruner := RateLimit(Tenant, 100, 600, 100), RateLimit(User, 10, 1, 10);
            var state := ConsumeToken(FreshBucket(own, 0.0), own, 0.0).0;
            && Refills(own) && own.burst <= own.limit && Refills(pruner) && pruner.burst <= pruner.limit && Stale(state, pruner, 3_000.0)
            && ConsumeToken(state, own, 3_000.0).1 == Allow(98)
            && ConsumeToken(FreshBucket(own, 3_000.0), own, 3_000.0).1 == Allow(99)
  {
    var own := RateLimit(Tenant, 100, 600, 100);
    assert PerSecond(own) == 1.0 / 6.0;
    assert ConsumeToken(FreshBucket(own, 0.0), own, 0.0).0 == Bucket(99.0, 0.0);
    assert Refilled(Bucket(99.0, 0.0), own, 3_000.0) == 99.5;
  }

  // ----- runs of the store -----

  /** A call with the limit that is in force for its key at the time. */
  datatype Call = Call(key: string, limit: RateLimit, now: real)

  ghost predicate InOrder(calls: seq<Call>) {
    forall i, j :: 0 <= i < j < |calls| ==> calls[i].now <= calls[j].now
  }

  ghost predicate AllRefill(calls: seq<Call>) {
    forall i :: 0 <= i < |calls| ==> Refills(calls[i].limit)
  }

  function StoreAfter(calls: seq<Call>): Store
    requires AllRefill(calls)
  {
    if calls == [] then EMPTY
    else
      var last := calls[|calls| - 1];
      ConsumeAt(StoreAfter(calls[..|calls| - 1]), last.key, last.limit, last.now).0
  }

  /** What the Map would hold if nothing were ever dropped. */
  function KeptAfter(calls: seq<Call>): map<string, Bucket>
    requires AllRefill(calls)
  {
    if calls == [] then map[]
    else
      var last := calls[|calls| - 1];
      Serve(KeptAfter(calls[..|calls| - 1]), last.key, last.limit, last.now).0
  }

  /** The store that prunes decides the next call as one would that never drops anything. */
  ghost predicate DecidesAlike(calls: seq<Call>, next: Call)
    requires AllRefill(calls) && Refills(next.limit)
  {
    ConsumeAt(StoreAfter(calls), next.key, next.limit, next.now).1 == Serve(KeptAfter(calls), next.key, next.limit, next.now).1
  }

  lemma {:induction false} InOrderFront(calls: seq<Call>, next: Call)
    requires InOrder(calls + [next])
    ensures InOrder(calls) && forall i :: 0 <= i < |calls| ==> calls[i].now <= next.now
  {
    forall i, j | 0 <= i < j < |calls| ensures calls[i].now <= calls[j].now {
      assert (calls + [next])[i].now <= (calls + [next])[j].now;
    }
    forall i | 0 <= i < |calls| ensures calls[i].now <= next.now {
      assert (calls + [next])[i].now <= (calls + [next])[|calls|].now;
    }
  }

  // ----- pruning happens -----

  /** The counter starts over with every 2,000th call. */
  lemma {:induction false} EveryTwoThousandthCallPrunes(calls: seq<Call>)
    requires AllRefill(calls)
    ensures StoreAfter(calls).callsSincePrune == |calls| % 2_000
  {
    if calls != [] {
      var front, last := calls[..|calls| - 1], calls[|calls| - 1];
      EveryTwoThousandthCallPrunes(front);
      CounterAfter(StoreAfter(front), last.key, last.limit, last.now);
      NextInTwoThousand(|front|);
    }
  }

  lemma {:induction false} CounterAfter(s: Store, key: string, limit: RateLimit, now: real)
    requires Refills(limit)
    ensures ConsumeAt(s, key, limit, now).0.callsSincePrune == if s.callsSincePrune + 1 >= 2_000 then 0 else s.callsSincePrune + 1
  {
  }

  lemma {:induction false} NextInTwoThousand(n: nat)
    ensures (n + 1) % 2_000 == if n % 2_000 + 1 >= 2_000 then 0 else n % 2_000 + 1
  {
  }

  /** That call leaves, next to its own bucket, exactly those that are short of its burst or were used within two of its windows. */
  lemma {:induction false} PruningLeavesNothingStale(calls: seq<Call>, next: Call, key: string)
    requires AllRefill(calls) && Refills(next.limit) && key != next.key
    ensures var before, after := StoreAfter(calls).buckets, ConsumeAt(StoreAfter(calls), next.key, next.limit, next.now).0.buckets;
            && (key in after ==> key in before && after[key] == before[key])
            && (key in before ==>
                  (key in after <==>
                     || |calls| % 2_000 != 1_999
                     || before[key].tokens < next.limit.burst as real
                     || next.now - before[key].refilledAt <= 2_000.0 * next.limit.windowSeconds as real))
  {
    EveryTwoThousandthCallPrunes(calls);
  }

  // ----- keys that keep their limits -----

  /** Every key has a limit, under which no other key's limit can drop a bucket too soon. */
  ghost predicate Compatible(limits: string -> RateLimit) {
    && (forall key :: Refills(limits(key)))
    && (forall own, pruner :: Harmless(limits(own), limits(pruner)))
  }

  ghost predicate Uses(limits: string -> RateLimit, calls: seq<Call>) {
    forall i :: 0 <= i < |calls| ==> calls[i].limit == limits(calls[i].key)
  }

  /** The Map lacks only buckets that have refilled meanwhile. */
  ghost predicate Tracks(limits: string -> RateLimit, buckets: map<string, Bucket>, kept: map<string, Bucket>, now: real)
    requires forall key :: Refills(limits(key))
  {
    && buckets.Keys <= kept.Keys
    && (forall key :: key in buckets ==> buckets[key] == kept[key])
    && (forall key :: key in kept ==> InRange(kept[key], limits(key)) && kept[key].refilledAt <= now)
    && (forall key :: key in kept && key !in buckets ==> FullBy(kept[key], limits(key), now))
  }

  lemma {:induction false} TracksLater(limits: string -> RateLimit, buckets: map<string, Bucket>, kept: map<string, Bucket>, now: real, later: real)
    requires (forall key :: Refills(limits(key))) && Tracks(limits, buckets, kept, now) && now <= later
    ensures Tracks(limits, buckets, kept, later)
  {
    forall key | key in kept && key !in buckets ensures FullBy(kept[key], limits(key), later) {
      EarnedAddsUp(limits(key), kept[key].refilledAt, now, later);
    }
  }

  lemma {:induction false} PruneTracks(limits: string -> RateLimit, buckets: map<string, Bucket>, kept: map<string, Bucket>, pruner: string, now: real)
    requires Compatible(limits) && Tracks(limits, buckets, kept, now)
    ensures Tracks(limits, Prune(buckets, limits(pruner), now), kept, now)
  {
    forall key | key in buckets && Stale(buckets[key], limits(pruner), now) ensures FullBy(kept[key], limits(key), now) {
      assert Harmless(limits(key), limits(pruner));
      StaleIsFull(buckets[key], limits(key), limits(pruner), now);
    }
  }

  lemma {:induction false} ServeTracks(limits: string -> RateLimit, buckets: map<string, Bucket>, kept: map<string, Bucket>, key: string, now: real)
    requires (forall key :: Refills(limits(key))) && Tracks(limits, buckets, kept, now)
    ensures Serve(buckets, key, limits(key), now).1 == Serve(kept, key, limits(key), now).1
    ensures Tracks(limits, Serve(buckets, key, limits(key), now).0, Serve(kept, key, limits(key), now).0, now)
  {
    var own := limits(key);
    if key in kept && key !in buckets {
      DropShowsUnlessFull(kept[key], own, now);
    }
    CallStores(if key in kept then kept[key] else FreshBucket(own, now), own, now);
  }

  lemma {:induction false} OneCallTracks(limits: string -> RateLimit, s: Store, kept: map<string, Bucket>, key: string, now: real)
    requires Compatible(limits) && Tracks(limits, s.buckets, kept, now)
    ensures ConsumeAt(s, key, limits(key), now).1 == Serve(kept, key, limits(key), now).1
    ensures Tracks(limits, ConsumeAt(s, key, limits(key), now).0.buckets, Serve(kept, key, limits(key), now).0, now)
  {
    PruneTracks(limits, s.buckets, kept, key, now);
    ServeTracks(limits, s.buckets, kept, key, now);
    ServeTracks(limits, Prune(s.buckets, limits(key), now), kept, key, now);
  }

  lemma {:induction false} RunTracks(limits: string -> RateLimit, calls: seq<Call>, now: real)
    requires Compatible(limits) && Uses(limits, calls) && InOrder(calls) && forall i :: 0 <= i < |calls| ==> calls[i].now <= now
    ensures AllRefill(calls) && Tracks(limits, StoreAfter(calls).buckets, KeptAfter(calls), now)
  {
    if calls != [] {
      var front, last := calls[..|calls| - 1], calls[|calls| - 1];
      RunTracks(limits, front, last.now);
      OneCallTracks(limits, StoreAfter(front), KeptAfter(front), last.key, last.now);
      TracksLater(limits, StoreAfter(calls).buckets, KeptAfter(calls), last.now, now);
    }
  }

  /**
    Under compatible limits and a clock that does not go back, the store that prunes decides every call
    of every run as a store that never drops anything would.
   */
  lemma {:induction false} PruningChangesNoDecision(limits: string -> RateLimit, calls: seq<Call>, next: Call)
    requires Compatible(limits) && Uses(limits, calls) && next.limit == limits(next.key) && InOrder(calls + [next])
    ensures AllRefill(calls) && DecidesAlike(calls, next)
  {
    InOrderFront(calls, next);
    RunTracks(limits, calls, next.now);
    OneCallTracks(limits, StoreAfter(calls), KeptAfter(calls), next.key, next.now);
  }

  // ----- limits by the minute, which may change from call to call -----

  predicate ByTheMinute(limit: RateLimit) { limit.windowSeconds == 60 && 1 <= limit.burst <= limit.limit }

  const TWO_MINUTES := 120_000.0

  /** A limit by the minute fills any bucket in two minutes, whatever limit it was used with before. */
  lemma {:induction false} TwoMinutesFill(state: Bucket, limit: RateLimit, at: real)
    requires ByTheMinute(limit) && state.tokens >= 0.0 && state.refilledAt + TWO_MINUTES <= at
    ensures Refills(limit) && Refilled(state, limit, at) == limit.burst as real
  {
    var l, seconds := limit.limit as real, (at - state.refilledAt) / 1000.0;
    assert PerSecond(limit) == l / 60.0 && seconds >= 120.0;
    assert (seconds - 120.0) * (l / 60.0) >= 0.0;
    assert seconds * PerSecond(limit) >= 2.0 * l;
  }

  /** The Map lacks only buckets that nobody has used for two minutes. */
  ghost predicate LacksOnlyIdle(buckets: map<string, Bucket>, kept: map<string, Bucket>, now: real) {
    && buckets.Keys <= kept.Keys
    && (forall key :: key in buckets ==> buckets[key] == kept[key])
    && (forall key :: key in kept ==> kept[key].tokens >= 0.0 && kept[key].refilledAt <= now)
    && (forall key :: key in kept && key !in buckets ==> kept[key].refilledAt + TWO_MINUTES <= now)
  }

  lemma {:induction false} CallLeavesTokens(state: Bucket, limit: RateLimit, at: real)
    requires Refills(limit) && state.tokens >= 0.0
    ensures ConsumeToken(state, limit, at).0.tokens >= 0.0 && ConsumeToken(state, limit, at).0.refilledAt == at
  {
    var elapsed := MaxR(0.0, (at - state.refilledAt) / 1000.0);
    assert elapsed * PerSecond(limit) >= 0.0;
  }

  lemma {:induction false} PruneLacksOnlyIdle(buckets: map<string, Bucket>, kept: map<string, Bucket>, pruner: RateLimit, now: real)
    requires ByTheMinute(pruner) && LacksOnlyIdle(buckets, kept, now)
    ensures LacksOnlyIdle(Prune(buckets, pruner, now), kept, now)
  {
  }

  lemma {:induction false} ServeLacksOnlyIdle(buckets: map<string, Bucket>, kept: map<string, Bucket>, key: string, limit: RateLimit, now: real)
    requires ByTheMinute(limit) && LacksOnlyIdle(buckets, kept, now)
    ensures Serve(buckets, key, limit, now).1 == Serve(kept, key, limit, now).1
    ensures LacksOnlyIdle(Serve(buckets, key, limit, now).0, Serve(kept, key, limit, now).0, now)
  {
    if key in kept && key !in buckets {
      TwoMinutesFill(kept[key], limit, now);
      DropIsInvisibleExactlyWhen(kept[key], limit, now);
    }
    CallLeavesTokens(if key in kept then kept[key] else FreshBucket(limit, now), limit, now);
  }

  lemma {:induction false} CallLacksOnlyIdle(s: Store, kept: map<string, Bucket>, call: Call)
    requires ByTheMinute(call.limit) && LacksOnlyIdle(s.buckets, kept, call.now)
    ensures ConsumeAt(s, call.key, call.limit, call.now).1 == Serve(kept, call.key, call.limit, call.now).1
    ensures LacksOnlyIdle(ConsumeAt(s, call.key, call.limit, call.now).0.buckets, Serve(kept, call.key, call.limit, call.now).0, call.now)
  {
    PruneLacksOnlyIdle(s.buckets, kept, call.limit, call.now);
    ServeLacksOnlyIdle(s.buckets, kept, call.key, call.limit, call.now);
    ServeLacksOnlyIdle(Prune(s.buckets, call.limit, call.now), kept, call.key, call.limit, call.now);
  }

  lemma {:induction false} RunLacksOnlyIdle(calls: seq<Call>, now: real)
    requires (forall i :: 0 <= i < |calls| ==> ByTheMinute(calls[i].limit)) && InOrder(calls)
    requires forall i :: 0 <= i < |calls| ==> calls[i].now <= now
    ensures AllRefill(calls) && LacksOnlyIdle(StoreAfter(calls).buckets, KeptAfter(calls), now)
  {
    if calls != [] {
      var front, last := calls[..|calls| - 1], calls[|calls| - 1];
      RunLacksOnlyIdle(front, last.now);
      CallLacksOnlyIdle(StoreAfter(front), KeptAfter(front), last);
    }
  }

  /**
    With limits by the minute pruning preserves behaviour outright: every call of every run is decided
    as by a store that never drops anything, even when limits change between calls.
   */
  lemma {:induction false} PruningByTheMinuteChangesNoDecision(calls: seq<Call>, next: Call)
    requires (forall i :: 0 <= i < |calls| ==> ByTheMinute(calls[i].limit)) && ByTheMinute(next.limit) && InOrder(calls + [next])
    ensures AllRefill(calls) && DecidesAlike(calls, next)
  {
    InOrderFront(calls, next);
    RunLacksOnlyIdle(calls, next.now);
    CallLacksOnlyIdle(StoreAfter(calls), KeptAfter(calls), next);
  }

  // ----- the limits that the services pass -----

  const DEFAULT_USER := RateLimit(User, 300, 60, 60)

  const DEFAULT_TENANT := RateLimit(Tenant, 3_000, 60, 300)

  function CeilFifth(n: int): int { -((-n) / 5) }

  /** `resolve` for a rate: a configured whole number with a burst of a fifth, or the default when that is not usable. */
  method ResolveLimit(configured: int, fallback: RateLimit) returns (limit: RateLimit)
    requires ByTheMinute(fallback) && fallback.scope != Runs
    ensures ByTheMinute(limit)
    ensures limit == fallback || (limit.limit == configured && limit.scope == fallback.scope)
    ensures 1 <= configured <= 100_000 ==> limit.limit == configured && 5 * (limit.burst - 1) < configured <= 5 * limit.burst
    ensures configured < 1 || configured > 100_000 ==> limit == fallback
  {
    var fifth := CeilFifth(configured);
    var smaller := if configured < fifth then configured else fifth;
    var candidate := fallback.(limit := configured, burst := if smaller < 1 then 1 else smaller);
    var problems := LimitProblems(candidate);
    if |problems| > 0 { return fallback; }
    return candidate;
  }

  lemma {:induction false} DefaultsAreByTheMinute()
    ensures ByTheMinute(DEFAULT_USER) && ByTheMinute(DEFAULT_TENANT)
  {
  }

  /** The limit of a provider model that has a quota. */
  function ProviderLimit(quota: int): (limit: RateLimit)
    requires quota >= 1
    ensures ByTheMinute(limit) && limit.limit == quota && 5 * (limit.burst - 1) < quota <= 5 * limit.burst
  {
    RateLimit(Provider, quota, 60, if CeilFifth(quota) < 1 then 1 else CeilFifth(quota))
  }
}
