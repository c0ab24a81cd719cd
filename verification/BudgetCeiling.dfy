/**
  No overspend (packages/types/src/cost.ts): how far past its hard-stop ceiling a wallet can ever be,
  counted from its opening or from any reservation that it accepted.
 */
module BudgetCeiling {
  import opened Options
  import opened SpendCheck
  import opened BudgetProtocol
  import opened BudgetSafety
  import Ledger

  // ----- what is counted -----

  function Positive(x: int): int { if x > 0 then x else 0 }

  function Committed(b: Ledger.Balance): int { b.used + b.reserved }

  /**
    What an entry makes of the cuts so far: raising the ceiling takes them back, and lowering it adds to
    them, but never more than what was committed above the lowered ceiling at that moment.
   */
  function CutBy(cuts: int, allowance: int, e: Ledger.Entry, cap: int -> int): int {
    var moved := Positive(cuts + cap(allowance) - cap(e.after.allowance));
    var stranded := Positive(Committed(e.after) - cap(e.after.allowance));
    if cap(e.after.allowance) < cap(allowance) && stranded < moved then stranded else moved
  }

  /** How much of what is committed the entries after the first ones may have left above a lowered ceiling. */
  function CutsSince(ledger: seq<Ledger.Entry>, first: nat, cap: int -> int): int {
    if |ledger| <= first then 0
    else
      var front := ledger[..|ledger| - 1];
      CutBy(CutsSince(front, first, cap), Ledger.AllowanceAfter(front), ledger[|ledger| - 1], cap)
  }

  function Cuts(ledger: seq<Ledger.Entry>, cap: int -> int): int { CutsSince(ledger, 0, cap) }

  /** From where on overruns and cuts are counted. */
  datatype Mark = Mark(entries: nat, overruns: int)

  const OPENING := Mark(0, 0)

  function Overruns(rs: seq<Reservation>, level: Level): int { SumOver(rs, OverrunOn(level)) }

  /** The committed total is within the ceiling, but for overruns and cuts since the mark. */
  ghost predicate Within(acc: Account, level: Level, rs: seq<Reservation>, cap: int -> int, m: Mark) {
    && m.entries <= |acc.ledger| && 0 <= m.overruns <= Overruns(rs, level)
    && Committed(acc.stored) <= cap(acc.stored.allowance) + Overruns(rs, level) - m.overruns + CutsSince(acc.ledger, m.entries, cap)
  }

  ghost predicate StaysWithin(s: State, level: Level, cap: int -> int, m: Mark) {
    if level in s.accounts then Within(s.accounts[level], level, s.reservations, cap, m) else m == OPENING
  }

  /** cap is at least every ceiling that a reservation of this event is checked against. */
  ghost predicate Caps(cap: int -> int, e: Event) {
    e.Reserve? ==> forall a :: a >= 0 ==> Ceiling(a, e.hardStopPercent) <= cap(a)
  }

  lemma {:induction false} CutsAppend(ledger: seq<Ledger.Entry>, e: Ledger.Entry, first: nat, cap: int -> int)
    requires first <= |ledger|
    ensures CutsSince(ledger + [e], first, cap) == CutBy(CutsSince(ledger, first, cap), Ledger.AllowanceAfter(ledger), e, cap)
  {
    assert (ledger + [e])[..|ledger|] == ledger;
  }

  lemma {:induction false} CutsNonNegative(ledger: seq<Ledger.Entry>, first: nat, cap: int -> int)
    ensures CutsSince(ledger, first, cap) >= 0
  {
    if |ledger| > first { CutsNonNegative(ledger[..|ledger| - 1], first, cap); }
  }

  /** An entry that leaves the allowance alone cuts nothing. */
  lemma {:induction false} SameAllowanceSameCuts(acc: Account, e: Ledger.Entry, first: nat, cap: int -> int)
    requires Sound(acc) && first <= |acc.ledger| && e.after.allowance == acc.stored.allowance
    ensures CutsSince(acc.ledger + [e], first, cap) == CutsSince(acc.ledger, first, cap)
  {
    CutsAppend(acc.ledger, e, first, cap);
    CutsNonNegative(acc.ledger, first, cap);
  }

  // ----- a wallet that opens -----

  lemma {:induction false} OpenedStaysWithin(s: State, level: Level, cap: int -> int)
    requires level !in s.accounts && cap(0) >= 0
    ensures Within(OPENED, level, s.reservations, cap, OPENING)
  {
    OverrunsNonNegative(s.reservations, level);
    assert CutsSince([], 0, cap) == 0;
  }

  lemma {:induction false} OverrunsNonNegative(rs: seq<Reservation>, level: Level)
    ensures Overruns(rs, level) >= 0
  {
    SumNonNegative(rs, OverrunOn(level));
  }

  lemma {:induction false} CompanyStaysWithin(s: State, level: Level, cap: int -> int, m: Mark)
    requires StaysWithin(s, level, cap, m) && cap(0) >= 0
    ensures StaysWithin(s.(accounts := WithCompany(s.accounts)), level, cap, m)
  {
    if level !in s.accounts { OpenedStaysWithin(s, level, cap); }
  }

  // ----- reservations -----

  function ReserveEntry(acc: Account, estimate: nat, id: nat): Ledger.Entry {
    Entry(Ledger.Reserve, estimate, Some(id), ReserveOn(acc, estimate, id).stored)
  }

  /** An accepted reservation leaves its wallet within the ceiling, so counting can start afresh. */
  lemma {:induction false} TakenStaysWithin(acc: Account, level: Level, rs: seq<Reservation>, r: Reservation, cap: int -> int, m: Mark)
    requires Sound(acc) && r.state == Held && Committed(acc.stored) + r.estimate <= cap(acc.stored.allowance)
    requires m.entries <= |acc.ledger| + 1 && 0 <= m.overruns <= Overruns(rs, level)
    ensures Within(ReserveOn(acc, r.estimate, |rs|), level, rs + [r], cap, m)
  {
    SumSnoc(rs, r, OverrunOn(level));
    CutsNonNegative(ReserveOn(acc, r.estimate, |rs|).ledger, m.entries, cap);
  }

  lemma {:induction false} TakeStaysWithin(s: State, r: Reservation, level: Level, cap: int -> int, m: Mark)
    requires Books(s) && StaysWithin(s, level, cap, m) && r.state == Held && r.holds <= s.accounts.Keys
    requires level in r.holds ==> Committed(s.accounts[level].stored) + r.estimate <= cap(s.accounts[level].stored.allowance)
    ensures StaysWithin(Take(s, r), level, cap, m)
  {
    if level in r.holds {
      TakenStaysWithin(s.accounts[level], level, s.reservations, r, cap, m);
    } else {
      SumSnoc(s.reservations, r, OverrunOn(level));
    }
  }

  lemma {:induction false} ReserveStaysWithin(s: State, e: Event, level: Level, cap: int -> int, m: Mark)
    requires Books(s) && StaysWithin(s, level, cap, m) && e.Reserve? && Caps(cap, e) && cap(0) >= 0
    ensures StaysWithin(ReserveStep(s, e), level, cap, m)
  {
    CompanyBooks(s);
    CompanyStaysWithin(s, level, cap, m);
    var locked := s.(accounts := WithCompany(s.accounts));
    if CombineLevels(Checks(locked.accounts, e)).decision != HardStopped {
      var r := Reservation(Held, e.estimate, Locked(locked.accounts, e.ctx), e.at, 0);
      if level in r.holds { AcceptedMeansNotStopped(locked.accounts, e, level); }
      TakeStaysWithin(locked, r, level, cap, m);
    }
  }

  // ----- closing -----

  lemma {:induction false} ReleasedCutsNothing(acc: Account, hold: nat, id: nat, first: nat, cap: int -> int)
    requires Sound(acc) && first <= |acc.ledger|
    ensures CutsSince(ReleaseOn(acc, hold, id).ledger, first, cap) == CutsSince(acc.ledger, first, cap)
  {
    ReleaseWritesOneEntry(acc, hold, id);
    SameAllowanceSameCuts(acc, ReleaseEntry(acc, hold, id), first, cap);
  }

  lemma {:induction false} ClosedCutsNothing(acc: Account, closed: Reservation, id: nat, first: nat, cap: int -> int)
    requires Sound(acc) && first <= |acc.ledger| && closed.estimate <= acc.stored.reserved
    ensures CutsSince(ClosedOn(acc, closed, id).ledger, first, cap) == CutsSince(acc.ledger, first, cap)
    ensures |acc.ledger| <= |ClosedOn(acc, closed, id).ledger|
  {
    var hold := closed.estimate;
    ReleasedCutsNothing(acc, hold, id, first, cap);
    if closed.state == Settled {
      SettleIsReleaseThenCharge(acc, hold, closed.charged, id);
      ReleaseIsSound(acc, hold, id);
      SameAllowanceSameCuts(ReleaseOn(acc, hold, id), ChargeEntry(acc, hold, closed.charged, id), first, cap);
    }
  }

  function OverrunOf(closed: Reservation): int {
    if closed.state == Settled then Positive(closed.charged - closed.estimate) else 0
  }

  lemma {:induction false} OverrunsAfterClosing(rs: seq<Reservation>, id: nat, closed: Reservation, level: Level)
    requires id < |rs| && Closes(closed, rs[id])
    ensures Overruns(rs[id := closed], level) == Overruns(rs, level) + if level in closed.holds then OverrunOf(closed) else 0
  {
    SumUpdate(rs, id, closed, OverrunOn(level));
  }

  lemma {:induction false} HeldCovers(acc: Account, level: Level, rs: seq<Reservation>, id: nat)
    requires AccountBooks(acc, level, rs) && id < |rs| && rs[id].state == Held && level in rs[id].holds
    ensures rs[id].estimate <= acc.stored.reserved
  {
    SumContains(rs, id, HeldOn(level));
  }

  lemma {:induction false} CommittedAfterClosing(acc: Account, closed: Reservation, id: nat)
    ensures Committed(ClosedOn(acc, closed, id).stored) <= Committed(acc.stored) + OverrunOf(closed)
    ensures ClosedOn(acc, closed, id).stored.allowance == acc.stored.allowance
  {
  }

  lemma {:induction false} ClosedStaysWithin(acc: Account, level: Level, rs: seq<Reservation>, id: nat, closed: Reservation, cap: int -> int, m: Mark)
    requires AccountBooks(acc, level, rs) && Within(acc, level, rs, cap, m) && id < |rs| && Closes(closed, rs[id])
    ensures Within(if level in closed.holds then ClosedOn(acc, closed, id) else acc, level, rs[id := closed], cap, m)
  {
    OverrunsAfterClosing(rs, id, closed, level);
    if level in closed.holds {
      HeldCovers(acc, level, rs, id);
      ClosedCutsNothing(acc, closed, id, m.entries, cap);
      CommittedAfterClosing(acc, closed, id);
    }
  }

  lemma {:induction false} CloseStepStaysWithin(s: State, id: nat, e: Event, level: Level, cap: int -> int, m: Mark)
    requires Books(s) && StaysWithin(s, level, cap, m)
    ensures StaysWithin(CloseStep(s, id, e), level, cap, m)
  {
    if id < |s.reservations| && Closing(s.reservations[id], e).Some? {
      var closed := Closing(s.reservations[id], e).value;
      if level in s.accounts { ClosedStaysWithin(s.accounts[level], level, s.reservations, id, closed, cap, m); }
    }
  }

  // ----- movements of the allowance -----

  /** Whatever moves the allowance only moves the ceiling, and what it strands is on record. */
  ghost predicate MovesOnlyTheCeiling(acc: Account, after: Account, cap: int -> int, over: int, first: nat) {
    && SameUse(acc, after) && |acc.ledger| <= |after.ledger|
    && (Committed(acc.stored) <= cap(acc.stored.allowance) + over + CutsSince(acc.ledger, first, cap) ==>
          Committed(after.stored) <= cap(after.stored.allowance) + over + CutsSince(after.ledger, first, cap))
  }

  /** What a cut records is enough: the bound that held before the entry holds after it. */
  lemma {:induction false} CutCovers(cuts: int, allowance: int, e: Ledger.Entry, cap: int -> int, over: nat)
    requires Committed(e.after) <= cap(allowance) + over + cuts
    ensures Committed(e.after) <= cap(e.after.allowance) + over + CutBy(cuts, allowance, e, cap)
  {
  }

  lemma {:induction false} OneMovement(acc: Account, e: Ledger.Entry, cap: int -> int, over: nat, first: nat)
    requires Sound(acc) && e.after.used == acc.stored.used && e.after.reserved == acc.stored.reserved && first <= |acc.ledger|
    ensures MovesOnlyTheCeiling(acc, Account(e.after, acc.ledger + [e]), cap, over, first)
  {
    CutsAppend(acc.ledger, e, first, cap);
    if Committed(acc.stored) <= cap(acc.stored.allowance) + over + CutsSince(acc.ledger, first, cap) {
      CutCovers(CutsSince(acc.ledger, first, cap), acc.stored.allowance, e, cap, over);
    }
  }

  lemma {:induction false} PeriodMovesOnlyTheCeiling(
    acc: Account, expiry: bool, amount: int, read: int, cap: int -> int, over: nat, first: nat)
    requires Sound(acc) && first <= |acc.ledger|
    ensures MovesOnlyTheCeiling(acc, PeriodMovementFrom(acc, expiry, amount, read), cap, over, first)
  {
    if amount > 0 { OneMovement(acc, PeriodEntry(acc, expiry, amount, read), cap, over, first); }
  }

  lemma {:induction false} ResetMovesOnlyTheCeiling(acc: Account, grant: int, cap: int -> int, over: nat, first: nat)
    requires Sound(acc) && first <= |acc.ledger|
    ensures MovesOnlyTheCeiling(acc, ResetOn(acc, grant), cap, over, first)
  {
    var left, allowance := Remaining(acc), acc.stored.allowance;
    PeriodMovementIsSound(acc, true, left, allowance);
    PeriodMovesOnlyTheCeiling(acc, true, left, allowance, cap, over, first);
    var lapsed := RecordPeriodMovement(acc, true, left);
    PeriodMovesOnlyTheCeiling(lapsed, false, grant, lapsed.stored.allowance, cap, over, first);
  }

  lemma {:induction false} ResetsMoveOnlyTheCeiling(acc: Account, grant: int, periods: nat, cap: int -> int, over: nat, first: nat)
    requires Sound(acc) && first <= |acc.ledger|
    ensures MovesOnlyTheCeiling(acc, ResetsOn(acc, grant, periods), cap, over, first)
  {
    if periods > 0 {
      var n := periods - 1;
      ResetsMoveOnlyTheCeiling(acc, grant, n, cap, over, first);
      ResetsAreSound(acc, grant, n);
      ResetMovesOnlyTheCeiling(ResetsOn(acc, grant, n), grant, cap, over, first);
    }
  }

  lemma {:induction false} FirstPeriodMovesOnlyTheCeiling(
    acc: Account, leftover: int, read: nat, grant: int, cap: int -> int, over: nat, first: nat)
    requires Sound(acc) && first <= |acc.ledger|
    ensures MovesOnlyTheCeiling(acc, FirstPeriod(acc, leftover, read, grant), cap, over, first)
  {
    if leftover > 0 {
      PeriodMovementIsSound(acc, true, leftover, read);
      PeriodMovesOnlyTheCeiling(acc, true, leftover, read, cap, over, first);
      var lapsed := PeriodMovementFrom(acc, true, leftover, read);
      PeriodMovesOnlyTheCeiling(lapsed, false, grant, lapsed.stored.allowance, cap, over, first);
    } else {
      PeriodMovesOnlyTheCeiling(acc, false, grant, read, cap, over, first);
    }
  }

  lemma {:induction false} FinishMovesOnlyTheCeiling(
    acc: Account, leftover: int, read: nat, grant: int, more: nat, cap: int -> int, over: nat, first: nat)
    requires Sound(acc) && first <= |acc.ledger|
    ensures MovesOnlyTheCeiling(acc, FinishReset(acc, leftover, read, grant, more), cap, over, first)
  {
    FirstPeriodMovesOnlyTheCeiling(acc, leftover, read, grant, cap, over, first);
    FirstPeriodIsSound(acc, leftover, read, grant);
    ResetsMoveOnlyTheCeiling(FirstPeriod(acc, leftover, read, grant), grant, more, cap, over, first);
    FinishIsFirstThenMore(acc, leftover, read, grant, more);
  }

  lemma {:induction false} SetMovesOnlyTheCeiling(acc: Account, level: Level, allowance: int, cap: int -> int, over: nat, first: nat)
    requires Sound(acc) && first <= |acc.ledger|
    ensures MovesOnlyTheCeiling(acc, SetAllowanceOn(acc, level, allowance), cap, over, first)
  {
    SetWritesOneEntry(acc, level, allowance);
    if allowance != acc.stored.allowance { OneMovement(acc, SetEntry(acc, level, allowance), cap, over, first); }
  }

  lemma {:induction false} MovedMovesOnlyTheCeiling(acc: Account, e: Event, cap: int -> int, over: nat, first: nat)
    requires Sound(acc) && first <= |acc.ledger| && Moved(acc, e).Some?
    ensures MovesOnlyTheCeiling(acc, Moved(acc, e).value, cap, over, first)
  {
    match e
    case MoveAllowance(_, kind, delta) => OneMovement(acc, Entry(kind, delta, None, MoveAllowanceOn(acc, kind, delta).stored), cap, over, first);
    case SetAllowance(level, allowance) => SetMovesOnlyTheCeiling(acc, level, allowance, cap, over, first);
  }

  lemma {:induction false} AllowanceStepStaysWithin(s: State, at: Level, e: Event, level: Level, cap: int -> int, m: Mark)
    requires Books(s) && StaysWithin(s, level, cap, m) && cap(0) >= 0
    ensures StaysWithin(AllowanceStep(s, at, e), level, cap, m)
  {
    var acc := if at in s.accounts then s.accounts[at] else OPENED;
    if Moved(acc, e).Some? && at == level {
      if at !in s.accounts { OpenedStaysWithin(s, level, cap); }
      MovedStaysWithin(acc, e, level, s.reservations, cap, m);
    }
  }

  lemma {:induction false} MovedStaysWithin(acc: Account, e: Event, level: Level, rs: seq<Reservation>, cap: int -> int, m: Mark)
    requires Sound(acc) && Moved(acc, e).Some? && Within(acc, level, rs, cap, m)
    ensures Within(Moved(acc, e).value, level, rs, cap, m)
  {
    MovedMovesOnlyTheCeiling(acc, e, cap, Overruns(rs, level) - m.overruns, m.entries);
  }

  lemma {:induction false} CommitStaysWithin(s: State, i: nat, grant: int, more: nat, level: Level, cap: int -> int, m: Mark)
    requires Books(s) && StaysWithin(s, level, cap, m)
    ensures StaysWithin(CommitStep(s, i, grant, more), level, cap, m)
  {
    if MayCommit(s, i) && s.resets[i].level == level {
      var r := s.resets[i];
      FinishMovesOnlyTheCeiling(s.accounts[level], r.leftover, r.read.value, grant, more, cap,
                                Overruns(s.reservations, level) - m.overruns, m.entries);
    }
  }

  // ----- runs -----

  lemma {:induction false} StepStaysWithin(s: State, e: Event, level: Level, cap: int -> int, m: Mark)
    requires Books(s) && StaysWithin(s, level, cap, m) && Caps(cap, e) && cap(0) >= 0
    ensures StaysWithin(Step(s, e), level, cap, m)
  {
    match e
    case Reserve(_, _, _, _, _) => ReserveStaysWithin(s, e, level, cap, m);
    case Settle(id, _) => CloseStepStaysWithin(s, id, e, level, cap, m);
    case Release(id) => CloseStepStaysWithin(s, id, e, level, cap, m);
    case Expire(id, _, _) => CloseStepStaysWithin(s, id, e, level, cap, m);
    case MoveAllowance(at, _, _) => AllowanceStepStaysWithin(s, at, e, level, cap, m);
    case SetAllowance(at, _) =>
      CompanyBooks(s);
      CompanyStaysWithin(s, level, cap, m);
      AllowanceStepStaysWithin(s.(accounts := WithCompany(s.accounts), resets := EndResets(s.resets, at)), at, e, level, cap, m);
    case BeginReset(_) =>
    case ReadForReset(_) =>
    case CommitReset(i, grant, more) => CommitStaysWithin(s, i, grant, more, level, cap, m);
  }

  lemma {:induction false} RunStaysWithin(before: seq<Event>, more: seq<Event>, level: Level, cap: int -> int, m: Mark)
    requires StaysWithin(Run(before), level, cap, m)
    requires (forall i :: 0 <= i < |more| ==> Caps(cap, more[i])) && cap(0) >= 0
    ensures StaysWithin(Run(before + more), level, cap, m)
  {
    if more == [] {
      assert before + more == before;
    } else {
      var front, last := more[..|more| - 1], more[|more| - 1];
      RunStaysWithin(before, front, level, cap, m);
      EveryRunKeepsBooks(before + front);
      RunMore(before, more);
      StepStaysWithin(Run(before + front), last, level, cap, m);
    }
  }

  function CeilingAt(hardStopPercent: int): int -> int {
    (allowance: int) => Ceiling(allowance, hardStopPercent)
  }

  ghost predicate HardStopsAtMost(events: seq<Event>, h: nat) {
    forall i :: 0 <= i < |events| && events[i].Reserve? ==> events[i].hardStopPercent <= h
  }

  lemma {:induction false} CeilingCaps(e: Event, h: nat)
    requires e.Reserve? ==> e.hardStopPercent <= h
    ensures Caps(CeilingAt(h), e)
  {
    if e.Reserve? {
      forall a | a >= 0 ensures Ceiling(a, e.hardStopPercent) <= CeilingAt(h)(a) {
        CeilingGrows(a, e.hardStopPercent, h);
      }
    }
  }

  /**
    No overspend. Under every interleaving, with hard stops of at most h percent, what a wallet has
    used and reserved is at most h percent of its allowance, rounded down, plus what settled
    reservations were charged past their estimates, plus what was cut from the ceiling afterwards.
   */
  lemma {:induction false} NoOverspend(events: seq<Event>, h: nat, level: Level)
    requires HardStopsAtMost(events, h) && level in Run(events).accounts
    ensures var s := Run(events);
            var acc := s.accounts[level];
            Committed(acc.stored) <= Ceiling(acc.stored.allowance, h) + Overruns(s.reservations, level) + Cuts(acc.ledger, CeilingAt(h))
  {
    forall i | 0 <= i < |events| ensures Caps(CeilingAt(h), events[i]) { CeilingCaps(events[i], h); }
    RunStaysWithin([], events, level, CeilingAt(h), OPENING);
    assert [] + events == events;
  }

  /** The wallet accepted the reservation that ends this run. */
  ghost predicate JustAccepted(events: seq<Event>, level: Level) {
    && events != [] && events[|events| - 1].Reserve?
    && |Run(events).reservations| == |Run(events[..|events| - 1]).reservations| + 1
    && level in Run(events).reservations[|Run(events).reservations| - 1].holds
  }

  function MarkAt(s: State, level: Level): Mark
    requires level in s.accounts
  {
    Mark(|s.accounts[level].ledger|, Overruns(s.reservations, level))
  }

  lemma {:induction false} AcceptedWithin(events: seq<Event>, level: Level, cap: int -> int)
    requires JustAccepted(events, level) && Caps(cap, events[|events| - 1])
    ensures level in Run(events).accounts && StaysWithin(Run(events), level, cap, MarkAt(Run(events), level))
  {
    var s, e := Run(events[..|events| - 1]), events[|events| - 1];
    EveryRunKeepsBooks(events[..|events| - 1]);
    CompanyBooks(s);
    var locked := s.(accounts := WithCompany(s.accounts));
    AcceptedMeansNotStopped(locked.accounts, e, level);
    var r := Reservation(Held, e.estimate, Locked(locked.accounts, e.ctx), e.at, 0);
    SumSnoc(s.reservations, r, OverrunOn(level));
    OverrunsNonNegative(s.reservations, level);
    TakenStaysWithin(locked.accounts[level], level, s.reservations, r, cap,
                     Mark(|locked.accounts[level].ledger| + 1, Overruns(s.reservations, level)));
  }

  /**
    The next call's hard stop is where an overspend is caught: an accepted reservation re-checks all
    that is committed, so only overruns and cuts since the last one that a wallet accepted can count.
   */
  lemma {:induction false} NoOverspendSinceAccepted(before: seq<Event>, more: seq<Event>, h: nat, level: Level)
    requires JustAccepted(before, level) && HardStopsAtMost(before + more, h)
    ensures level in Run(before).accounts && level in Run(before + more).accounts
    ensures var accepted, now := Run(before), Run(before + more);
            var acc := now.accounts[level];
            Committed(acc.stored) <= Ceiling(acc.stored.allowance, h)
                                     + Overruns(now.reservations, level) - Overruns(accepted.reservations, level)
                                     + CutsSince(acc.ledger, |accepted.accounts[level].ledger|, CeilingAt(h))
  {
    var last := before[|before| - 1];
    assert (before + more)[|before| - 1] == last;
    CeilingCaps(last, h);
    AcceptedWithin(before, level, CeilingAt(h));
    forall i | 0 <= i < |more| ensures Caps(CeilingAt(h), more[i]) {
      assert (before + more)[|before| + i] == more[i];
      CeilingCaps(more[i], h);
    }
    RunStaysWithin(before, more, level, CeilingAt(h), MarkAt(Run(before), level));
    AccountsStay(before, more, level);
  }

  lemma {:induction false} AccountStays(s: State, e: Event, level: Level)
    requires level in s.accounts
    ensures level in Step(s, e).accounts
  {
  }

  lemma {:induction false} AccountsStay(before: seq<Event>, more: seq<Event>, level: Level)
    requires level in Run(before).accounts
    ensures level in Run(before + more).accounts
  {
    if more == [] {
      assert before + more == before;
    } else {
      var front, last := more[..|more| - 1], more[|more| - 1];
      AccountsStay(before, front, level);
      RunMore(before, more);
      AccountStays(Run(before + front), last, level);
    }
  }

  lemma {:induction false} CeilingGrows(allowance: nat, low: int, high: int)
    requires low <= high
    ensures Ceiling(allowance, low) <= Ceiling(allowance, high)
  {
    MulOrder(low, high, allowance);
    assert allowance * low == low * allowance && allowance * high == high * allowance;
  }

  lemma {:induction false} CeilingGrowsWithAllowance(less: int, more: int, h: nat)
    requires less <= more
    ensures Ceiling(less, h) <= Ceiling(more, h)
  {
    MulOrder(less, more, h);
  }

  // ----- when nothing is past the ceiling -----

  /** Whenever an entry lowered the ceiling, the lowered ceiling still covered what was committed. */
  ghost predicate LoweringsLeaveRoom(ledger: seq<Ledger.Entry>, cap: int -> int) {
    ledger == [] ||
    var front, e := ledger[..|ledger| - 1], ledger[|ledger| - 1];
    LoweringsLeaveRoom(front, cap) && LeavesRoom(Ledger.AllowanceAfter(front), e, cap)
  }

  ghost predicate LeavesRoom(allowance: int, e: Ledger.Entry, cap: int -> int) {
    cap(e.after.allowance) < cap(allowance) ==> Committed(e.after) <= cap(e.after.allowance)
  }

  lemma {:induction false} LoweringsAppend(ledger: seq<Ledger.Entry>, e: Ledger.Entry, cap: int -> int)
    ensures LoweringsLeaveRoom(ledger + [e], cap) <==>
            LoweringsLeaveRoom(ledger, cap) && LeavesRoom(Ledger.AllowanceAfter(ledger), e, cap)
  {
    assert (ledger + [e])[..|ledger|] == ledger;
  }

  lemma {:induction false} NoCuts(ledger: seq<Ledger.Entry>, cap: int -> int)
    requires LoweringsLeaveRoom(ledger, cap)
    ensures Cuts(ledger, cap) == 0
  {
    if ledger != [] { NoCuts(ledger[..|ledger| - 1], cap); }
  }

  /** When estimates cover the charges and no ceiling was put below what was committed, it is never passed. */
  lemma {:induction false} NoOverspendWhenEstimatesCover(events: seq<Event>, h: nat, level: Level)
    requires HardStopsAtMost(events, h)
    requires level in Run(events).accounts && LoweringsLeaveRoom(Run(events).accounts[level].ledger, CeilingAt(h))
    requires forall i :: 0 <= i < |Run(events).reservations| ==> Run(events).reservations[i].charged <= Run(events).reservations[i].estimate
    ensures var b := Run(events).accounts[level].stored; Committed(b) <= Ceiling(b.allowance, h)
  {
    NoOverspend(events, h, level);
    NoCuts(Run(events).accounts[level].ledger, CeilingAt(h));
    SumOfNothing(Run(events).reservations, OverrunOn(level));
  }
}
