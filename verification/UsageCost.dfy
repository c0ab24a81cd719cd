/**
  Estimates and charges in minor units (packages/types/src/cost.ts `estimateMinor`,
  packages/types/src/providers.ts `usageCostMinorUnits`). Rates are minor units per million tokens.
 */
module UsageCost {
  import opened Options

  datatype Pricing = Pricing(input: nat, output: nat, cachedInput: Option<nat>)

  datatype Usage = Usage(inputTokens: nat, outputTokens: nat, cachedInputTokens: nat)

  /** Math.ceil(n / 1_000_000) */
  function CeilMillion(n: int): int { -((-n) / 1_000_000) }

  function Max(a: nat, b: nat): nat { if a < b then b else a }

  function Dearest(pricing: Pricing): nat { Max(pricing.input, pricing.output) }

  function CachedRate(pricing: Pricing): nat {
    match pricing.cachedInput
    case None => pricing.input
    case Some(rate) => rate
  }

  function EstimateMinor(maxTokens: nat, pricing: Pricing): int { CeilMillion(maxTokens * Dearest(pricing)) }

  /** The exact cost, in millionths of a minor unit. */
  function ExactCost(usage: Usage, pricing: Pricing): nat {
    usage.inputTokens * pricing.input + usage.outputTokens * pricing.output + usage.cachedInputTokens * CachedRate(pricing)
  }

  function UsageCostMinorUnits(usage: Usage, pricing: Pricing): int { CeilMillion(ExactCost(usage, pricing)) }

  function Tokens(usage: Usage): nat { usage.inputTokens + usage.outputTokens + usage.cachedInputTokens }

  lemma {:induction false} CeilGrows(a: int, b: int)
    requires a <= b
    ensures CeilMillion(a) <= CeilMillion(b)
  {
  }

  lemma {:induction false} MulOrder(x: nat, a: int, b: int)
    requires a <= b
    ensures x * a <= x * b
  {
    assert x * (b - a) >= 0;
    assert x * b == x * a + x * (b - a);
  }

  lemma {:induction false} Distribute(x: nat, y: nat, z: nat, rate: nat)
    ensures (x + y + z) * rate == x * rate + y * rate + z * rate
  {
  }

  /** No usage within the token ceiling costs more than the whole ceiling at the dearest of the three rates. */
  lemma {:induction false} CostWithinCeiling(usage: Usage, pricing: Pricing, maxTokens: nat, rate: nat)
    requires Tokens(usage) <= maxTokens && Dearest(pricing) <= rate && CachedRate(pricing) <= rate
    ensures UsageCostMinorUnits(usage, pricing) <= CeilMillion(maxTokens * rate)
  {
    MulOrder(usage.inputTokens, pricing.input, rate);
    MulOrder(usage.outputTokens, pricing.output, rate);
    MulOrder(usage.cachedInputTokens, CachedRate(pricing), rate);
    Distribute(usage.inputTokens, usage.outputTokens, usage.cachedInputTokens, rate);
    MulOrder(rate, Tokens(usage), maxTokens);
    assert Tokens(usage) * rate == rate * Tokens(usage) && maxTokens * rate == rate * maxTokens;
    CeilGrows(ExactCost(usage, pricing), maxTokens * rate);
  }

  /** The estimate covers every call within its ceiling when cached input is no dearer than the rest. */
  lemma {:induction false} EstimateDominatesCharge(usage: Usage, pricing: Pricing, maxTokens: nat)
    requires Tokens(usage) <= maxTokens && CachedRate(pricing) <= Dearest(pricing)
    ensures UsageCostMinorUnits(usage, pricing) <= EstimateMinor(maxTokens, pricing)
  {
    CostWithinCeiling(usage, pricing, maxTokens, Dearest(pricing));
  }

  ghost predicate EstimateCoversAll(pricing: Pricing, maxTokens: nat) {
    forall usage: Usage :: Tokens(usage) <= maxTokens ==>
      UsageCostMinorUnits(usage, pricing) <= EstimateMinor(maxTokens, pricing)
  }

  /**
    Exactly when the estimate covers every call within the token ceiling: when it covers the call
    that spends the whole ceiling on cached input.
   */
  lemma {:induction false} EstimateCoversExactlyWhen(pricing: Pricing, maxTokens: nat)
    ensures EstimateCoversAll(pricing, maxTokens) <==>
            CeilMillion(maxTokens * CachedRate(pricing)) <= EstimateMinor(maxTokens, pricing)
  {
    var allCached := Usage(0, 0, maxTokens);
    assert ExactCost(allCached, pricing) == maxTokens * CachedRate(pricing);
    if EstimateCoversAll(pricing, maxTokens) {
      assert Tokens(allCached) <= maxTokens;
    } else {
      var usage: Usage :| Tokens(usage) <= maxTokens && UsageCostMinorUnits(usage, pricing) > EstimateMinor(maxTokens, pricing);
      CostWithinCeiling(usage, pricing, maxTokens, Max(Dearest(pricing), CachedRate(pricing)));
    }
  }

  /** Cached input dearer than both other rates, and enough of it, is charged above the estimate. */
  lemma {:induction false} DearCachedInputEscapesTheEstimate()
    ensures var pricing := Pricing(100, 200, Some(300));
            UsageCostMinorUnits(Usage(0, 0, 1_000_000), pricing) == 300 > EstimateMinor(1_000_000, pricing) == 200
  {
  }

  // ----- many calls -----

  lemma {:induction false} CeilIsClose(n: int)
    ensures n <= CeilMillion(n) * 1_000_000 < n + 1_000_000
  {
  }

  /** Each kind of token is billed at its own rate, cached input at the input rate where it has none, and the sum is rounded up once. */
  lemma {:induction false} ChargeIsTheSumRoundedUp(usage: Usage, pricing: Pricing)
    ensures var cached := if pricing.cachedInput.Some? then pricing.cachedInput.value else pricing.input;
            var exact := usage.inputTokens * pricing.input + usage.outputTokens * pricing.output + usage.cachedInputTokens * cached;
            exact <= UsageCostMinorUnits(usage, pricing) * 1_000_000 < exact + 1_000_000
  {
    CeilIsClose(ExactCost(usage, pricing));
  }

  /** The estimate is the whole token ceiling at the dearer of the two rates, rounded up, and no more. */
  lemma {:induction false} EstimateIsTheDearerRoundedUp(maxTokens: nat, pricing: Pricing)
    ensures var estimate := EstimateMinor(maxTokens, pricing) * 1_000_000;
            && maxTokens * pricing.input <= estimate && maxTokens * pricing.output <= estimate
            && (estimate < maxTokens * pricing.input + 1_000_000 || estimate < maxTokens * pricing.output + 1_000_000)
  {
    MulOrder(maxTokens, pricing.input, Dearest(pricing));
    MulOrder(maxTokens, pricing.output, Dearest(pricing));
    CeilIsClose(maxTokens * Dearest(pricing));
  }

  function TotalCharge(calls: seq<Usage>, pricing: Pricing): int {
    if calls == [] then 0
    else TotalCharge(calls[..|calls| - 1], pricing) + UsageCostMinorUnits(calls[|calls| - 1], pricing)
  }

  function TotalExact(calls: seq<Usage>, pricing: Pricing): nat {
    if calls == [] then 0
    else TotalExact(calls[..|calls| - 1], pricing) + ExactCost(calls[|calls| - 1], pricing)
  }

  /** A run of calls never bills less than it consumed, and less than one minor unit a call more. */
  lemma {:induction false} ChargesAreNeverShort(calls: seq<Usage>, pricing: Pricing)
    ensures TotalExact(calls, pricing) <= TotalCharge(calls, pricing) * 1_000_000
    ensures calls != [] ==> TotalCharge(calls, pricing) * 1_000_000 < TotalExact(calls, pricing) + |calls| * 1_000_000
  {
    if calls != [] {
      var front := calls[..|calls| - 1];
      ChargesAreNeverShort(front, pricing);
      CeilIsClose(ExactCost(calls[|calls| - 1], pricing));
      if front == [] { assert TotalCharge(front, pricing) == 0 && TotalExact(front, pricing) == 0; }
    }
  }
}
