/**
  Nearest-rank percentiles and the verdict that rests on them (packages/types/src/scale-validation.ts).
  Samples are latencies in milliseconds.
 */
module Percentile {
  import opened Options
  import opened StableSort

  function Value(x: real): real { x }

  function Least(s: seq<real>): (r: real)
    requires s != []
    ensures r in s && forall x :: x in s ==> r <= x
  {
    if |s| == 1 then s[0]
    else
      var rest := Least(s[1..]);
      assert s == [s[0]] + s[1..];
      if s[0] < rest then s[0] else rest
  }

  function Greatest(s: seq<real>): (r: real)
    requires s != []
    ensures r in s && forall x :: x in s ==> x <= r
  {
    if |s| == 1 then s[0]
    else
      var rest := Greatest(s[1..]);
      assert s == [s[0]] + s[1..];
      if s[0] > rest then s[0] else rest
  }

  function Ceil(x: real): (n: int)
    ensures n as real - 1.0 < x <= n as real
  {
    -((-x).Floor)
  }

  /** ceil(p / 100 * n), as a rank from 1. */
  function RankOf(p: real, n: nat): int { Ceil(p / 100.0 * n as real) }

  function Percentile(samples: seq<real>, p: real): Option<real> {
    if samples == [] then None
    else if p <= 0.0 then Some(Least(samples))
    else if p >= 100.0 then Some(Greatest(samples))
    else
      var sorted := Sort(samples, Value);
      var rank := RankOf(p, |sorted|);
      var atLeastOne := if rank < 1 then 1 else rank;
      var index := (if |sorted| < atLeastOne then |sorted| else atLeastOne) - 1;
      Some(sorted[index])
  }

  lemma {:induction false} RankInRange(p: real, n: nat)
    requires 0.0 < p < 100.0 && n > 0
    ensures 1 <= RankOf(p, n) <= n
  {
    var x := n as real;
    assert p / 100.0 * x <= x by { assert (1.0 - p / 100.0) * x >= 0.0; }
    assert p / 100.0 * x > 0.0;
  }

  lemma {:induction false} RankGrows(p: real, q: real, n: nat)
    requires p <= q
    ensures RankOf(p, n) <= RankOf(q, n)
  {
    assert (q / 100.0 - p / 100.0) * n as real >= 0.0;
    assert p / 100.0 * n as real <= q / 100.0 * n as real;
  }

  // ----- counting -----

  function CountAtMost(s: seq<real>, v: real): nat {
    if s == [] then 0 else (if s[0] <= v then 1 else 0) + CountAtMost(s[1..], v)
  }

  function CountBelow(s: seq<real>, v: real): nat {
    if s == [] then 0 else (if s[0] < v then 1 else 0) + CountBelow(s[1..], v)
  }

  lemma {:induction false} InsertCounts(x: real, s: seq<real>, v: real)
    ensures CountAtMost(Insert(x, s, Value), v) == CountAtMost(s, v) + if x <= v then 1 else 0
    ensures CountBelow(Insert(x, s, Value), v) == CountBelow(s, v) + if x < v then 1 else 0
  {
    if s == [] || Value(x) <= Value(s[0]) {
      assert ([x] + s)[1..] == s;
    } else {
      InsertCounts(x, s[1..], v);
      assert ([s[0]] + Insert(x, s[1..], Value))[1..] == Insert(x, s[1..], Value);
    }
  }

  lemma {:induction false} SortCounts(s: seq<real>, v: real)
    ensures CountAtMost(Sort(s, Value), v) == CountAtMost(s, v) && CountBelow(Sort(s, Value), v) == CountBelow(s, v)
  {
    if s != [] {
      SortCounts(s[1..], v);
      InsertCounts(s[0], Sort(s[1..], Value), v);
    }
  }

  lemma {:induction false} NoneAtMost(s: seq<real>, v: real)
    requires forall i :: 0 <= i < |s| ==> s[i] > v
    ensures CountAtMost(s, v) == 0
  {
    if s != [] { NoneAtMost(s[1..], v); }
  }

  lemma {:induction false} NoneBelow(s: seq<real>, v: real)
    requires forall i :: 0 <= i < |s| ==> s[i] >= v
    ensures CountBelow(s, v) == 0
  {
    if s != [] { NoneBelow(s[1..], v); }
  }

  /** In ascending order the i-th entry is at most v exactly when more than i entries are. */
  lemma {:induction false} AscendingCounts(s: seq<real>, v: real, i: nat)
    requires Ascending(s, Value) && i < |s|
    ensures s[i] <= v <==> i < CountAtMost(s, v)
    ensures s[i] < v <==> i < CountBelow(s, v)
  {
    forall k | 0 < k < |s| ensures s[0] <= s[k] { assert Value(s[0]) <= Value(s[k]); }
    if s[0] > v { NoneAtMost(s[1..], v); }
    if s[0] >= v { NoneBelow(s[1..], v); }
    if i > 0 { AscendingCounts(s[1..], v, i - 1); }
  }

  // ----- percentiles -----

  lemma {:induction false} PercentileByRank(samples: seq<real>, p: real)
    requires samples != [] && 0.0 < p < 100.0
    ensures 1 <= RankOf(p, |samples|) <= |samples|
    ensures Percentile(samples, p) == Some(Sort(samples, Value)[RankOf(p, |samples|) - 1])
  {
    RankInRange(p, |samples|);
  }

  /** A percentile is a sample that was really observed; there is none exactly when there are no samples. */
  lemma {:induction false} PercentileIsObserved(samples: seq<real>, p: real)
    ensures Percentile(samples, p) == None <==> samples == []
    ensures samples != [] ==> Percentile(samples, p).value in samples
  {
    MembersOfSort(samples, Value);
    if samples != [] && 0.0 < p < 100.0 { PercentileByRank(samples, p); }
  }

  lemma {:induction false} SampleOfRank(samples: seq<real>, rank: nat, v: real)
    requires 1 <= rank <= |Sort(samples, Value)|
    ensures Sort(samples, Value)[rank - 1] <= v <==> rank <= CountAtMost(samples, v)
    ensures Sort(samples, Value)[rank - 1] < v <==> rank <= CountBelow(samples, v)
  {
    SortIsStable(samples, Value);
    SortCounts(samples, v);
    AscendingCounts(Sort(samples, Value), v, rank - 1);
  }

  lemma {:induction false} RankIsTheNextWhole(p: real, n: nat, count: int)
    ensures RankOf(p, n) <= count <==> p * n as real <= 100.0 * count as real
  {
    assert p / 100.0 * n as real * 100.0 == p * n as real;
  }

  /** Nearest rank: at least p percent of the samples do not exceed the percentile, and less than p percent lie below it. */
  lemma {:induction false} PercentileIsNearestRank(samples: seq<real>, p: real)
    requires samples != [] && 0.0 < p < 100.0
    ensures var v, n := Percentile(samples, p).value, |samples| as real;
            100.0 * CountBelow(samples, v) as real < p * n <= 100.0 * CountAtMost(samples, v) as real
  {
    var v := Percentile(samples, p).value;
    PercentileByRank(samples, p);
    SampleOfRank(samples, RankOf(p, |samples|), v);
    RankIsTheNextWhole(p, |samples|, CountBelow(samples, v));
    RankIsTheNextWhole(p, |samples|, CountAtMost(samples, v));
  }

  /** At 0 and below it is the least sample, at 100 and above the greatest. */
  lemma {:induction false} PercentileAtTheEnds(samples: seq<real>, p: real, x: real)
    requires x in samples
    ensures p <= 0.0 ==> Percentile(samples, p).value <= x
    ensures p >= 100.0 ==> x <= Percentile(samples, p).value
  {
  }

  lemma {:induction false} ExtremesIgnoreOrder(a: seq<real>, b: seq<real>)
    requires multiset(a) == multiset(b) && a != [] && b != []
    ensures Least(a) == Least(b) && Greatest(a) == Greatest(b)
  {
    forall x ensures x in a <==> x in b {
      assert x in a <==> x in multiset(a);
    }
  }

  lemma {:induction false} PercentileIgnoresOrder(a: seq<real>, b: seq<real>, p: real)
    requires multiset(a) == multiset(b)
    ensures Percentile(a, p) == Percentile(b, p)
  {
    assert |a| == |multiset(a)| == |multiset(b)| == |b|;
    if a != [] {
      ExtremesIgnoreOrder(a, b);
      SortIsCanonical(a, b, Value);
    }
  }

  lemma {:induction false} RankedGrow(samples: seq<real>, i: nat, j: nat)
    requires 1 <= i <= j <= |Sort(samples, Value)|
    ensures Sort(samples, Value)[i - 1] <= Sort(samples, Value)[j - 1]
  {
    SortIsStable(samples, Value);
    assert i == j || Value(Sort(samples, Value)[i - 1]) <= Value(Sort(samples, Value)[j - 1]);
  }

  lemma {:induction false} PercentileGrows(samples: seq<real>, p: real, q: real)
    requires samples != [] && p <= q
    ensures Percentile(samples, p).value <= Percentile(samples, q).value
  {
    PercentileIsObserved(samples, p);
    PercentileIsObserved(samples, q);
    if 0.0 < p && q < 100.0 {
      PercentileByRank(samples, p);
      PercentileByRank(samples, q);
      RankGrows(p, q, |samples|);
      RankedGrow(samples, RankOf(p, |samples|), RankOf(q, |samples|));
    }
  }

  // ----- the verdict -----

  function ErrorRate(errors: nat, runs: nat): real {
    if runs == 0 then 0.0 else errors as real / runs as real
  }

  lemma {:induction false} ErrorRateIsTheShare(errors: nat, runs: nat)
    requires errors <= runs
    ensures ErrorRate(errors, runs) * runs as real == errors as real
  {
  }

  datatype Verdict = Pass | OverBudget | Failed | NotMeasured

  datatype Result = Result(
    runs: nat, errorRate: real, p50: Option<real>, p95: Option<real>, p99: Option<real>,
    budgetMs: real, withinBudget: bool, verdict: Verdict)

  /** The budget of a scenario, 0 for one that is not listed. */
  function BudgetOf(budgets: seq<(string, real)>, scenario: string): real {
    if budgets == [] then 0.0
    else if budgets[0].0 == scenario then budgets[0].1
    else BudgetOf(budgets[1..], scenario)
  }

  /** The budget is that of the first entry for the scenario, and 0 when there is none. */
  lemma {:induction false} BudgetIsTheFirstListed(budgets: seq<(string, real)>, scenario: string, i: nat)
    requires i <= |budgets| && forall j :: 0 <= j < i ==> budgets[j].0 != scenario
    requires i == |budgets| || budgets[i].0 == scenario
    ensures BudgetOf(budgets, scenario) == if i < |budgets| then budgets[i].1 else 0.0
  {
    if i > 0 { BudgetIsTheFirstListed(budgets[1..], scenario, i - 1); }
  }

  /**
    A scenario passes exactly when it was measured, nothing failed, and at least 95% of the samples,
    rounded up, are within budget.
   */
  method Summarise(scenario: string, samples: seq<real>, errors: nat, budgets: seq<(string, real)>) returns (result: Result)
    ensures result.runs == |samples| + errors && result.budgetMs == BudgetOf(budgets, scenario)
    ensures result.errorRate == ErrorRate(errors, result.runs)
    ensures result.p50 == Percentile(samples, 50.0) && result.p95 == Percentile(samples, 95.0) && result.p99 == Percentile(samples, 99.0)
    ensures result.withinBudget <==> EnoughWithin(samples, BudgetOf(budgets, scenario))
    ensures result.verdict == NotMeasured <==> samples == []
    ensures result.verdict == Failed <==> samples != [] && errors > 0
    ensures result.verdict == Pass <==> errors == 0 && EnoughWithin(samples, BudgetOf(budgets, scenario))
  {
    var budgetMs := BudgetOf(budgets, scenario);
    var runs := |samples| + errors;
    var p50 := Percentile(samples, 50.0);
    var p95 := Percentile(samples, 95.0);
    var p99 := Percentile(samples, 99.0);
    var errorRate := ErrorRate(errors, runs);
    var withinBudget := p95.Some? && p95.value <= budgetMs;
    WithinBudgetMeansRank(samples, budgetMs);
    assert withinBudget <==> EnoughWithin(samples, budgetMs);
    var verdict;
    if |samples| == 0 {
      verdict := NotMeasured;
    } else if errors > 0 {
      verdict := Failed;
    } else if !withinBudget {
      verdict := OverBudget;
    } else {
      verdict := Pass;
    }
    result := Result(runs, errorRate, p50, p95, p99, budgetMs, withinBudget, verdict);
  }

  /** There are samples, and at least 95% of them are within the budget. */
  ghost predicate EnoughWithin(samples: seq<real>, budget: real) {
    samples != [] && 100 * CountAtMost(samples, budget) >= 95 * |samples|
  }

  lemma {:induction false} WithinBudgetMeansRank(samples: seq<real>, budget: real)
    ensures var p95 := Percentile(samples, 95.0);
            && (p95.Some? && p95.value <= budget <==> EnoughWithin(samples, budget))
            && (samples == [] <==> p95 == None)
  {
    if samples != [] {
      PercentileByRank(samples, 95.0);
      SampleOfRank(samples, RankOf(95.0, |samples|), budget);
      RankIsTheNextWhole(95.0, |samples|, CountAtMost(samples, budget));
    }
  }
}
