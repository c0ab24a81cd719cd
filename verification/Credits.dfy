/**
  Credits (packages/types/src/credits.ts): pro-rating an allowance over a plan change, and moving
  allowance between budgets without creating any.
 */
module Credits {
  import opened Options

  // ----- plan changes -----

  datatype PlanChangePolicy = NextCycle | ImmediateFull | ProRate

  datatype PlanChange = PlanChange(allowance: int, appliesNow: bool)

  function AllowanceAfterPlanChange(
    policy: PlanChangePolicy, current: int, newPlan: int, periodStart: int, periodEnd: int, at: int
  ): PlanChange {
    match policy
    case NextCycle => PlanChange(current, false)
    case ImmediateFull => PlanChange(newPlan, true)
    case ProRate =>
      var total := periodEnd - periodStart;
      if total <= 0 then PlanChange(newPlan, true)
      else
        var remaining := if periodEnd - at < 0 then 0 else periodEnd - at;
        PlanChange(ProRated(current, newPlan, total - remaining, remaining, total), true)
  }

  /** What was earned at the old rate plus what will be earned at the new one, each rounded down. */
  function ProRated(current: int, newPlan: int, elapsed: int, remaining: int, total: int): int
    requires total > 0
  {
    current * elapsed / total + newPlan * remaining / total
  }

  /** From the next cycle nothing changes now; in full, or over a period without length, the new allowance applies at once. */
  lemma {:induction false} OtherPoliciesAreWhole(current: int, newPlan: int, periodStart: int, periodEnd: int, at: int)
    ensures AllowanceAfterPlanChange(NextCycle, current, newPlan, periodStart, periodEnd, at) == PlanChange(current, false)
    ensures AllowanceAfterPlanChange(ImmediateFull, current, newPlan, periodStart, periodEnd, at) == PlanChange(newPlan, true)
    ensures periodEnd <= periodStart ==>
              AllowanceAfterPlanChange(ProRate, current, newPlan, periodStart, periodEnd, at) == PlanChange(newPlan, true)
    ensures AllowanceAfterPlanChange(ProRate, current, newPlan, periodStart, periodEnd, at).appliesNow
  {
  }

  function Min(a: int, b: int): int { if a < b then a else b }

  function Max(a: int, b: int): int { if a < b then b else a }

  lemma {:induction false} MulOrder(a: int, b: int, x: nat)
    requires a <= b
    ensures a * x <= b * x
  {
    assert (b - a) * x >= 0;
    assert b * x == a * x + (b - a) * x;
  }

  lemma {:induction false} QuotientsOfSum(a: int, b: int, d: int)
    requires d > 0
    ensures a / d * d <= a < (a / d + 1) * d
    ensures (a / d + b / d) * d <= a + b < (a / d + b / d + 2) * d
  {
    assert a == a / d * d + a % d;
    assert b == b / d * d + b % d;
    assert (a / d + b / d) * d == a / d * d + b / d * d;
  }

  lemma {:induction false} CancelFactor(a: int, b: int, d: int)
    requires d > 0
    ensures a * d < b * d ==> a < b
    ensures a * d <= b * d ==> a <= b
  {
    if b <= a { MulOrder(b, a, d); }
    if b < a { MulOrder(b + 1, a, d); assert (b + 1) * d == b * d + d; }
  }

  lemma {:induction false} WeightedBetween(x: nat, y: nat, e: nat, r: nat)
    requires e + r > 0
    ensures Min(x, y) * (e + r) <= x * e + y * r <= Max(x, y) * (e + r)
  {
    MulOrder(Min(x, y), x, e);
    MulOrder(Min(x, y), y, r);
    MulOrder(x, Max(x, y), e);
    MulOrder(y, Max(x, y), r);
    assert Min(x, y) * (e + r) == Min(x, y) * e + Min(x, y) * r;
    assert Max(x, y) * (e + r) == Max(x, y) * e + Max(x, y) * r;
  }

  /**
    From the start of a period on, the pro-rated allowance lies between the two allowances, short by
    at most one minor unit. At the start it is the new one and from the end on the old one, exactly.
   */
  lemma {:induction false} ProRatedBetween(current: nat, newPlan: nat, periodStart: int, periodEnd: int, at: int)
    requires periodStart < periodEnd && periodStart <= at
    ensures var allowance := AllowanceAfterPlanChange(ProRate, current, newPlan, periodStart, periodEnd, at).allowance;
            && Min(current, newPlan) - 1 <= allowance <= Max(current, newPlan)
            && (at == periodStart ==> allowance == newPlan)
            && (at >= periodEnd ==> allowance == current)
  {
    var total := periodEnd - periodStart;
    var remaining := if periodEnd - at < 0 then 0 else periodEnd - at;
    var elapsed := total - remaining;
    WeightedBetween(current, newPlan, elapsed, remaining);
    QuotientsOfSum(current * elapsed, newPlan * remaining, total);
    var allowance := current * elapsed / total + newPlan * remaining / total;
    CancelFactor(allowance, Max(current, newPlan), total);
    CancelFactor(Min(current, newPlan), allowance + 2, total);
    ExactQuotient(current, total);
    ExactQuotient(newPlan, total);
  }

  lemma {:induction false} ExactQuotient(a: int, d: int)
    requires d > 0
    ensures a * d / d == a && 0 * a / d == 0 && a * 0 / d == 0
  {
    QuotientsOfSum(a * d, 0, d);
    CancelFactor(a * d / d, a, d);
    CancelFactor(a, a * d / d + 1, d);
  }

  lemma {:induction false} RemaindersAddUp(s: int, x: nat, y: nat, d: nat)
    requires x < d && y < d && x + y == s * d
    ensures s == if x == 0 then 0 else 1
  {
    CancelFactor(s, 2, d);
    CancelFactor(-1, s, d);
    CancelFactor(0, s, d);
    CancelFactor(s, 1, d);
  }

  /** Two quotients whose dividends add up to k * d add up to k, or to k - 1 when there are remainders. */
  lemma {:induction false} QuotientsOfMultiple(a: int, b: int, k: int, d: int)
    requires d > 0 && a + b == k * d
    ensures a / d + b / d == if a % d == 0 then k else k - 1
  {
    var x, y := a / d, b / d;
    assert a == x * d + a % d;
    assert b == y * d + b % d;
    assert (k - x - y) * d == k * d - x * d - y * d;
    RemaindersAddUp(k - x - y, a % d, b % d, d);
  }

  lemma {:induction false} SameRateBothWays(amount: nat, e: nat, r: nat, d: nat)
    requires d > 0 && e + r == d
    ensures ProRated(amount, amount, e, r, d) == if amount * e % d == 0 then amount else amount - 1
  {
    assert amount * e + amount * r == amount * (e + r);
    QuotientsOfMultiple(amount * e, amount * r, amount, d);
  }

  /** Changing to a plan of the same size loses a unit exactly when the elapsed share is not a whole amount. */
  lemma {:induction false} SamePlanLosesAUnitExactlyWhen(amount: nat, periodStart: int, periodEnd: int, at: int)
    requires periodStart < periodEnd && periodStart <= at <= periodEnd
    ensures AllowanceAfterPlanChange(ProRate, amount, amount, periodStart, periodEnd, at).allowance
         == if amount * (at - periodStart) % (periodEnd - periodStart) == 0 then amount else amount - 1
  {
    SameRateBothWays(amount, at - periodStart, periodEnd - at, periodEnd - periodStart);
    assert periodEnd - periodStart - (periodEnd - at) == at - periodStart;
  }

  // ----- reallocation -----

  datatype Wallet = Wallet(allowance: int, used: int, reserved: int)

  function Remaining(w: Wallet): int { w.allowance - w.used - w.reserved }

  datatype Refusal = NotPositive | SameWallet | NotUncommitted

  /** `validateReallocation`; None is approval. */
  function ValidateReallocation(amount: int, fromRemaining: int, from: nat, to: nat): Option<Refusal> {
    if amount <= 0 then Some(NotPositive)
    else if from == to then Some(SameWallet)
    else if amount > fromRemaining then Some(NotUncommitted)
    else None
  }

  datatype Move = Move(from: nat, to: nat, amount: int)

  /** Out of one budget and into another; a destination that does not exist yet is created. */
  function Reallocate(wallets: seq<Wallet>, m: Move): seq<Wallet> {
    if m.from >= |wallets| || m.to > |wallets| then wallets
    else if ValidateReallocation(m.amount, Remaining(wallets[m.from]), m.from, m.to).Some? then wallets
    else
      var out := wallets[m.from := wallets[m.from].(allowance := wallets[m.from].allowance - m.amount)];
      if m.to == |wallets| then out + [Wallet(m.amount, 0, 0)]
      else out[m.to := out[m.to].(allowance := out[m.to].allowance + m.amount)]
  }

  function ReallocateAll(wallets: seq<Wallet>, moves: seq<Move>): seq<Wallet> {
    if moves == [] then wallets else Reallocate(ReallocateAll(wallets, moves[..|moves| - 1]), moves[|moves| - 1])
  }

  function TotalAllowance(wallets: seq<Wallet>): int {
    if wallets == [] then 0 else TotalAllowance(wallets[..|wallets| - 1]) + wallets[|wallets| - 1].allowance
  }

  lemma {:induction false} TotalAfterUpdate(wallets: seq<Wallet>, i: nat, w: Wallet)
    requires i < |wallets|
    ensures TotalAllowance(wallets[i := w]) == TotalAllowance(wallets) - wallets[i].allowance + w.allowance
  {
    var front := wallets[..|wallets| - 1];
    if i == |wallets| - 1 {
      assert wallets[i := w][..|wallets| - 1] == front;
    } else {
      TotalAfterUpdate(front, i, w);
      assert wallets[i := w][..|wallets| - 1] == front[i := w];
    }
  }

  /**
    A move is made exactly when its amount is positive, its ends differ and its source has that much
    uncommitted. Then it takes the amount from the one and gives it to the other, and to nobody else.
   */
  lemma {:induction false} MoveIsExact(wallets: seq<Wallet>, m: Move)
    requires m.from < |wallets| && m.to <= |wallets|
    ensures var w, after := wallets[m.from], Reallocate(wallets, m);
            if 0 < m.amount <= w.allowance - w.used - w.reserved && m.from != m.to then
              && |after| == (if m.to == |wallets| then |wallets| + 1 else |wallets|)
              && after[m.from] == w.(allowance := w.allowance - m.amount)
              && after[m.to] == (if m.to == |wallets| then Wallet(m.amount, 0, 0)
                                 else wallets[m.to].(allowance := wallets[m.to].allowance + m.amount))
              && forall i :: 0 <= i < |wallets| && i != m.from && i != m.to ==> after[i] == wallets[i]
            else after == wallets
  {
  }

  lemma {:induction false} OneMoveConserves(wallets: seq<Wallet>, m: Move)
    ensures TotalAllowance(Reallocate(wallets, m)) == TotalAllowance(wallets)
    ensures |wallets| <= |Reallocate(wallets, m)|
    ensures forall i :: 0 <= i < |wallets| ==>
              var w, after := wallets[i], Reallocate(wallets, m)[i];
              after.used == w.used && after.reserved == w.reserved && (Remaining(w) >= 0 ==> Remaining(after) >= 0)
    ensures forall i :: |wallets| <= i < |Reallocate(wallets, m)| ==> Remaining(Reallocate(wallets, m)[i]) >= 0
    ensures Reallocate(wallets, m) != wallets ==> m.from < |wallets| && Remaining(Reallocate(wallets, m)[m.from]) >= 0
  {
    if m.from < |wallets| && m.to <= |wallets| && ValidateReallocation(m.amount, Remaining(wallets[m.from]), m.from, m.to) == None {
      var paid := wallets[m.from].(allowance := wallets[m.from].allowance - m.amount);
      var out := wallets[m.from := paid];
      TotalAfterUpdate(wallets, m.from, paid);
      if m.to == |wallets| {
        assert (out + [Wallet(m.amount, 0, 0)])[..|out|] == out;
      } else {
        TotalAfterUpdate(out, m.to, out[m.to].(allowance := out[m.to].allowance + m.amount));
      }
    }
  }

  /**
    Any sequence of validated moves keeps the total allowance, and no budget that was within its
    allowance is taken past it.
   */
  lemma {:induction false} ReallocationConserves(wallets: seq<Wallet>, moves: seq<Move>)
    ensures TotalAllowance(ReallocateAll(wallets, moves)) == TotalAllowance(wallets)
    ensures |wallets| <= |ReallocateAll(wallets, moves)|
    ensures forall i :: 0 <= i < |wallets| && Remaining(wallets[i]) >= 0 ==> Remaining(ReallocateAll(wallets, moves)[i]) >= 0
  {
    if moves != [] {
      ReallocationConserves(wallets, moves[..|moves| - 1]);
      OneMoveConserves(ReallocateAll(wallets, moves[..|moves| - 1]), moves[|moves| - 1]);
    }
  }
}
