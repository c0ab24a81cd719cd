/**
  What every run of the reservation protocol keeps: the books agree with the ledger, every
  reservation is charged at most once, and no budget is overspent.
 */
module BudgetSafety {
  import opened Options
  import opened SpendCheck
  import opened BudgetProtocol
  import Ledger

  // ----- sums over the reservations -----

  function SumOver(rs: seq<Reservation>, f: Reservation -> int): int {
    if rs == [] then 0 else SumOver(rs[..|rs| - 1], f) + f(rs[|rs| - 1])
  }

  lemma {:induction false} SumSnoc(rs: seq<Reservation>, r: Reservation, f: Reservation -> int)
    ensures SumOver(rs + [r], f) == SumOver(rs, f) + f(r)
  {
    assert (rs + [r])[..|rs|] == rs;
  }

  lemma {:induction false} SumUpdate(rs: seq<Reservation>, i: nat, r: Reservation, f: Reservation -> int)
    requires i < |rs|
    ensures SumOver(rs[i := r], f) == SumOver(rs, f) - f(rs[i]) + f(r)
  {
    var front := rs[..|rs| - 1];
    if i == |rs| - 1 {
      assert rs[i := r][..|rs| - 1] == front;
    } else {
      SumUpdate(front, i, r, f);
      assert rs[i := r][..|rs| - 1] == front[i := r];
    }
  }

  lemma {:induction false} SumContains(rs: seq<Reservation>, i: nat, f: Reservation -> int)
    requires i < |rs| && forall r :: f(r) >= 0
    ensures 0 <= f(rs[i]) <= SumOver(rs, f)
  {
    SumNonNegative(rs[..|rs| - 1], f);
    if i < |rs| - 1 {
      SumContains(rs[..|rs| - 1], i, f);
      assert rs[..|rs| - 1][i] == rs[i];
    }
  }

  lemma {:induction false} SumNonNegative(rs: seq<Reservation>, f: Reservation -> int)
    requires forall r :: f(r) >= 0
    ensures SumOver(rs, f) >= 0
  {
    if rs != [] { SumNonNegative(rs[..|rs| - 1], f); }
  }

  lemma {:induction false} SumOfNothing(rs: seq<Reservation>, f: Reservation -> int)
    requires forall i :: 0 <= i < |rs| ==> f(rs[i]) == 0
    ensures SumOver(rs, f) == 0
  {
    if rs != [] { SumOfNothing(rs[..|rs| - 1], f); }
  }

  /** What a reservation sets aside at a level: its estimate while it is held. */
  function HeldOn(level: Level): Reservation -> int {
    (r: Reservation) => if r.state == Held && level in r.holds then r.estimate else 0
  }

  /** What a reservation has charged at a level: the actual amount once it is settled. */
  function ChargedOn(level: Level): Reservation -> int {
    (r: Reservation) => if r.state == Settled && level in r.holds then r.charged else 0
  }

  /** How far a settled reservation was charged past its estimate. */
  function OverrunOn(level: Level): Reservation -> int {
    (r: Reservation) => if r.state == Settled && level in r.holds && r.charged > r.estimate then r.charged - r.estimate else 0
  }

  // ----- one account -----

  /**
    The stored balance is the one that the latest entry recorded, used and reserved are the replay of
    the ledger and recorded rightly all along, and nothing is negative.
   */
  ghost predicate Sound(acc: Account) {
    var replayed := Ledger.Replay(Ledger.Movements(acc.ledger));
    && acc.stored == Ledger.Balance(Ledger.AllowanceAfter(acc.ledger), replayed.used, replayed.reserved)
    && Ledger.RecordsUse(acc.ledger)
    && acc.stored.allowance >= 0 && acc.stored.used >= 0 && acc.stored.reserved >= 0
  }

  /** An entry that records the use it leads to keeps balance and ledger together, whatever allowance it records. */
  lemma {:induction false} EntryIsSound(acc: Account, e: Ledger.Entry)
    requires Sound(acc)
    requires e.after.used == Ledger.Apply(acc.stored, e.move).used && e.after.reserved == Ledger.Apply(acc.stored, e.move).reserved
    requires e.after.allowance >= 0 && e.after.used >= 0 && e.after.reserved >= 0
    ensures Sound(Account(e.after, acc.ledger + [e]))
  {
    Ledger.AppendEntry(acc.ledger, e);
  }

  lemma {:induction false} ReserveIsSound(acc: Account, estimate: nat, id: nat)
    requires Sound(acc)
    ensures Sound(ReserveOn(acc, estimate, id))
  {
    Ledger.KindsMove(acc.stored, estimate);
    EntryIsSound(acc, Entry(Ledger.Reserve, estimate, Some(id), ReserveOn(acc, estimate, id).stored));
  }

  function ReleaseEntry(acc: Account, hold: nat, id: nat): Ledger.Entry {
    Entry(Ledger.ReleaseReserve, hold, Some(id), ReleaseOn(acc, hold, id).stored)
  }

  lemma {:induction false} ReleaseWritesOneEntry(acc: Account, hold: nat, id: nat)
    ensures ReleaseOn(acc, hold, id) == Account(ReleaseEntry(acc, hold, id).after, acc.ledger + [ReleaseEntry(acc, hold, id)])
    ensures ReleaseEntry(acc, hold, id).after == Ledger.Apply(acc.stored, ReleaseEntry(acc, hold, id).move)
  {
  }

  lemma {:induction false} ReleaseIsSound(acc: Account, hold: nat, id: nat)
    requires Sound(acc) && hold <= acc.stored.reserved
    ensures Sound(ReleaseOn(acc, hold, id))
  {
    ReleaseWritesOneEntry(acc, hold, id);
    EntryIsSound(acc, ReleaseEntry(acc, hold, id));
  }

  function ChargeEntry(acc: Account, hold: nat, actual: nat, id: nat): Ledger.Entry {
    Entry(Ledger.Settle, actual, Some(id), SettleOn(acc, hold, actual, id).stored)
  }

  /** A settlement is a release followed by a charge, one entry each. */
  lemma {:induction false} SettleIsReleaseThenCharge(acc: Account, hold: nat, actual: nat, id: nat)
    ensures SettleOn(acc, hold, actual, id).ledger == ReleaseOn(acc, hold, id).ledger + [ChargeEntry(acc, hold, actual, id)]
    ensures SettleOn(acc, hold, actual, id).stored
         == ReleaseOn(acc, hold, id).stored.(used := ReleaseOn(acc, hold, id).stored.used + actual)
  {
  }

  lemma {:induction false} SettleIsSound(acc: Account, hold: nat, actual: nat, id: nat)
    requires Sound(acc) && hold <= acc.stored.reserved
    ensures Sound(SettleOn(acc, hold, actual, id))
  {
    SettleIsReleaseThenCharge(acc, hold, actual, id);
    ReleaseIsSound(acc, hold, id);
    EntryIsSound(ReleaseOn(acc, hold, id), ChargeEntry(acc, hold, actual, id));
  }

  lemma {:induction false} MoveIsSound(acc: Account, kind: Ledger.Kind, delta: int)
    requires Sound(acc) && MayMoveAllowance(acc, kind, delta)
    ensures Sound(MoveAllowanceOn(acc, kind, delta))
  {
    EntryIsSound(acc, Entry(kind, delta, None, MoveAllowanceOn(acc, kind, delta).stored));
  }

  function SetEntry(acc: Account, level: Level, allowance: int): Ledger.Entry {
    Entry(if level.scope == Company then Ledger.Adjustment else Ledger.Reallocation,
          allowance - acc.stored.allowance, None, acc.stored.(allowance := allowance))
  }

  lemma {:induction false} SetWritesOneEntry(acc: Account, level: Level, allowance: int)
    ensures SetAllowanceOn(acc, level, allowance)
         == if allowance == acc.stored.allowance then acc
            else Account(SetEntry(acc, level, allowance).after, acc.ledger + [SetEntry(acc, level, allowance)])
  {
  }

  lemma {:induction false} SetIsSound(acc: Account, level: Level, allowance: nat)
    requires Sound(acc)
    ensures Sound(SetAllowanceOn(acc, level, allowance))
  {
    SetWritesOneEntry(acc, level, allowance);
    if allowance != acc.stored.allowance { EntryIsSound(acc, SetEntry(acc, level, allowance)); }
  }

  function PeriodEntry(acc: Account, expiry: bool, amount: int, read: int): Ledger.Entry {
    Entry(if expiry then Ledger.Expiry else Ledger.Adjustment, amount, None, PeriodMovementFrom(acc, expiry, amount, read).stored)
  }

  lemma {:induction false} PeriodMovementIsSound(acc: Account, expiry: bool, amount: int, read: nat)
    requires Sound(acc)
    ensures Sound(PeriodMovementFrom(acc, expiry, amount, read))
  {
    if amount > 0 { EntryIsSound(acc, PeriodEntry(acc, expiry, amount, read)); }
  }

  lemma {:induction false} ResetIsSound(acc: Account, grant: int)
    requires Sound(acc)
    ensures Sound(ResetOn(acc, grant)) && SameUse(acc, ResetOn(acc, grant))
  {
    PeriodMovementIsSound(acc, true, Remaining(acc), acc.stored.allowance);
    var lapsed := RecordPeriodMovement(acc, true, Remaining(acc));
    PeriodMovementIsSound(lapsed, false, grant, lapsed.stored.allowance);
  }

  ghost predicate SameUse(acc: Account, after: Account) {
    after.stored.used == acc.stored.used && after.stored.reserved == acc.stored.reserved
  }

  lemma {:induction false} ResetsAreSound(acc: Account, grant: int, periods: nat)
    requires Sound(acc)
    ensures Sound(ResetsOn(acc, grant, periods)) && SameUse(acc, ResetsOn(acc, grant, periods))
  {
    if periods > 0 {
      var n := periods - 1;
      ResetsAreSound(acc, grant, n);
      ResetIsSound(ResetsOn(acc, grant, n), grant);
    }
  }

  /** The first period of a reset, from what it read. */
  function FirstPeriod(acc: Account, leftover: int, read: int, grant: int): Account { FinishReset(acc, leftover, read, grant, 0) }

  lemma {:induction false} FirstPeriodIsSound(acc: Account, leftover: int, read: nat, grant: int)
    requires Sound(acc)
    ensures Sound(FirstPeriod(acc, leftover, read, grant)) && SameUse(acc, FirstPeriod(acc, leftover, read, grant))
  {
    if leftover > 0 {
      PeriodMovementIsSound(acc, true, leftover, read);
      var lapsed := PeriodMovementFrom(acc, true, leftover, read);
      PeriodMovementIsSound(lapsed, false, grant, lapsed.stored.allowance);
    } else {
      PeriodMovementIsSound(acc, false, grant, read);
    }
  }

  lemma {:induction false} FinishIsFirstThenMore(acc: Account, leftover: int, read: int, grant: int, more: nat)
    ensures FinishReset(acc, leftover, read, grant, more) == ResetsOn(FirstPeriod(acc, leftover, read, grant), grant, more)
  {
  }

  lemma {:induction false} FinishIsSound(acc: Account, leftover: int, read: nat, grant: int, more: nat)
    requires Sound(acc)
    ensures Sound(FinishReset(acc, leftover, read, grant, more)) && SameUse(acc, FinishReset(acc, leftover, read, grant, more))
  {
    FirstPeriodIsSound(acc, leftover, read, grant);
    ResetsAreSound(FirstPeriod(acc, leftover, read, grant), grant, more);
    FinishIsFirstThenMore(acc, leftover, read, grant, more);
  }

  // ----- the books -----

  ghost predicate AccountBooks(acc: Account, level: Level, rs: seq<Reservation>) {
    && Sound(acc)
    && acc.stored.reserved == SumOver(rs, HeldOn(level))
    && acc.stored.used == SumOver(rs, ChargedOn(level))
  }

  /** Every wallet's totals are what its reservations add up to, and its ledger explains them. */
  ghost predicate Books(s: State) {
    && (forall level :: level in s.accounts ==> AccountBooks(s.accounts[level], level, s.reservations))
    && (forall i :: 0 <= i < |s.reservations| ==> s.reservations[i].holds <= s.accounts.Keys)
    && (forall i :: 0 <= i < |s.resets| && s.resets[i].read.Some? ==> s.resets[i].read.value >= 0)
  }

  lemma {:induction false} OpenedBooks(s: State, level: Level)
    requires Books(s) && level !in s.accounts
    ensures AccountBooks(OPENED, level, s.reservations)
  {
    SumOfNothing(s.reservations, HeldOn(level));
    SumOfNothing(s.reservations, ChargedOn(level));
  }

  lemma {:induction false} CompanyBooks(s: State)
    requires Books(s)
    ensures Books(s.(accounts := WithCompany(s.accounts)))
  {
    if COMPANY !in s.accounts { OpenedBooks(s, COMPANY); }
  }

  lemma {:induction false} TakenBooks(acc: Account, level: Level, rs: seq<Reservation>, r: Reservation)
    requires AccountBooks(acc, level, rs) && r.state == Held
    ensures AccountBooks(if level in r.holds then ReserveOn(acc, r.estimate, |rs|) else acc, level, rs + [r])
  {
    SumSnoc(rs, r, HeldOn(level));
    SumSnoc(rs, r, ChargedOn(level));
    ReserveIsSound(acc, r.estimate, |rs|);
  }

  lemma {:induction false} TakeKeepsBooks(s: State, r: Reservation)
    requires Books(s) && r.state == Held && r.holds <= s.accounts.Keys
    ensures Books(Take(s, r))
  {
    forall level | level in s.accounts ensures AccountBooks(Take(s, r).accounts[level], level, s.reservations + [r]) {
      TakenBooks(s.accounts[level], level, s.reservations, r);
    }
  }

  lemma {:induction false} ReserveKeepsBooks(s: State, e: Event)
    requires Books(s) && e.Reserve?
    ensures Books(ReserveStep(s, e))
  {
    var locked := s.(accounts := WithCompany(s.accounts));
    CompanyBooks(s);
    TakeKeepsBooks(locked, Reservation(Held, e.estimate, Locked(locked.accounts, e.ctx), e.at, 0));
  }

  /** r, which was held, as it is once settled, released or expired. */
  ghost predicate Closes(closed: Reservation, r: Reservation) {
    r.state == Held && closed.state != Held && closed == r.(state := closed.state, charged := closed.charged)
  }

  lemma {:induction false} ClosedBooks(acc: Account, level: Level, rs: seq<Reservation>, id: nat, closed: Reservation)
    requires AccountBooks(acc, level, rs) && id < |rs| && Closes(closed, rs[id])
    ensures AccountBooks(if level in closed.holds then ClosedOn(acc, closed, id) else acc, level, rs[id := closed])
  {
    SumUpdate(rs, id, closed, HeldOn(level));
    SumUpdate(rs, id, closed, ChargedOn(level));
    if level in closed.holds {
      SumContains(rs, id, HeldOn(level));
      if closed.state == Settled {
        SettleIsSound(acc, closed.estimate, closed.charged, id);
      } else {
        ReleaseIsSound(acc, closed.estimate, id);
      }
    }
  }

  lemma {:induction false} CloseKeepsBooks(s: State, id: nat, closed: Reservation)
    requires Books(s) && id < |s.reservations| && Closes(closed, s.reservations[id])
    ensures Books(Close(s, id, closed))
  {
    var next := Close(s, id, closed);
    forall level | level in next.accounts ensures AccountBooks(next.accounts[level], level, next.reservations) {
      ClosedBooks(s.accounts[level], level, s.reservations, id, closed);
    }
  }

  lemma {:induction false} CloseStepKeepsBooks(s: State, id: nat, e: Event)
    requires Books(s)
    ensures Books(CloseStep(s, id, e))
  {
    if id < |s.reservations| && Closing(s.reservations[id], e).Some? {
      CloseKeepsBooks(s, id, Closing(s.reservations[id], e).value);
    }
  }

  /** A movement of the allowance leaves what is used and reserved alone. */
  lemma {:induction false} MovedIsSound(acc: Account, e: Event)
    requires Sound(acc) && Moved(acc, e).Some? && (e.SetAllowance? ==> e.allowance >= 0)
    ensures Sound(Moved(acc, e).value)
    ensures Moved(acc, e).value.stored.used == acc.stored.used && Moved(acc, e).value.stored.reserved == acc.stored.reserved
  {
    match e
    case MoveAllowance(_, kind, delta) => MoveIsSound(acc, kind, delta);
    case SetAllowance(level, allowance) => SetIsSound(acc, level, allowance);
  }

  lemma {:induction false} MovedBooks(acc: Account, e: Event, level: Level, rs: seq<Reservation>)
    requires AccountBooks(acc, level, rs) && Moved(acc, e).Some? && (e.SetAllowance? ==> e.allowance >= 0)
    ensures AccountBooks(Moved(acc, e).value, level, rs)
  {
    MovedIsSound(acc, e);
  }

  lemma {:induction false} BooksWith(s: State, level: Level, acc: Account)
    requires Books(s) && AccountBooks(acc, level, s.reservations)
    ensures Books(s.(accounts := s.accounts[level := acc]))
  {
  }

  lemma {:induction false} AllowanceStepKeepsBooks(s: State, level: Level, e: Event)
    requires Books(s) && (e.SetAllowance? ==> e.allowance >= 0)
    ensures Books(AllowanceStep(s, level, e))
  {
    var acc := if level in s.accounts then s.accounts[level] else OPENED;
    if level !in s.accounts { OpenedBooks(s, level); }
    if Moved(acc, e).Some? {
      MovedBooks(acc, e, level, s.reservations);
      BooksWith(s, level, Moved(acc, e).value);
    }
  }

  lemma {:induction false} EndedResetsBooks(s: State, level: Level)
    requires Books(s)
    ensures Books(s.(resets := EndResets(s.resets, level)))
  {
  }

  lemma {:induction false} CommitKeepsBooks(s: State, i: nat, grant: int, more: nat)
    requires Books(s)
    ensures Books(CommitStep(s, i, grant, more))
  {
    if MayCommit(s, i) {
      var r := s.resets[i];
      var acc := s.accounts[r.level];
      FinishIsSound(acc, r.leftover, r.read.value, grant, more);
      BooksWith(s, r.level, FinishReset(acc, r.leftover, r.read.value, grant, more));
      EndedResetsBooks(s.(accounts := s.accounts[r.level := FinishReset(acc, r.leftover, r.read.value, grant, more)]), r.level);
    }
  }

  lemma {:induction false} StepKeepsBooks(s: State, e: Event)
    requires Books(s)
    ensures Books(Step(s, e))
  {
    match e
    case Reserve(_, _, _, _, _) => ReserveKeepsBooks(s, e);
    case Settle(id, _) => CloseStepKeepsBooks(s, id, e);
    case Release(id) => CloseStepKeepsBooks(s, id, e);
    case Expire(id, _, _) => CloseStepKeepsBooks(s, id, e);
    case MoveAllowance(level, _, _) => AllowanceStepKeepsBooks(s, level, e);
    case SetAllowance(level, allowance) =>
      EndedResetsBooks(s, level);
      CompanyBooks(s.(resets := EndResets(s.resets, level)));
      if allowance >= 0 {
        AllowanceStepKeepsBooks(s.(accounts := WithCompany(s.accounts), resets := EndResets(s.resets, level)), level, e);
      }
    case BeginReset(_) =>
    case ReadForReset(_) =>
    case CommitReset(i, grant, more) => CommitKeepsBooks(s, i, grant, more);
  }

  /** In every run each wallet's reserved total is the sum of its held estimates, and its used total of its charges. */
  lemma {:induction false} EveryRunKeepsBooks(events: seq<Event>)
    ensures Books(Run(events))
  {
    if events != [] {
      EveryRunKeepsBooks(events[..|events| - 1]);
      StepKeepsBooks(Run(events[..|events| - 1]), events[|events| - 1]);
    }
  }

  // ----- reservations move once -----

  /** A step moves reservations only as permitted, and a closed one not at all. */
  lemma {:induction false} StepMovesAsPermitted(s: State, e: Event, i: nat)
    requires i < |s.reservations|
    ensures i < |Step(s, e).reservations|
    ensures var r, after := s.reservations[i], Step(s, e).reservations[i];
            && MayMoveReservation(r.state, after.state)
            && (r.state != Held ==> after == r)
            && after.estimate == r.estimate && after.holds == r.holds && after.heldAt == r.heldAt
  {
  }

  lemma {:induction false} RunMore(events: seq<Event>, more: seq<Event>)
    requires more != []
    ensures Run(events + more) == Step(Run(events + more[..|more| - 1]), more[|more| - 1])
  {
    SplitLast(events, more);
    RunUnfolds(events + more);
  }

  lemma {:induction false} RunUnfolds(events: seq<Event>)
    requires events != []
    ensures Run(events) == Step(Run(events[..|events| - 1]), events[|events| - 1])
  {
  }

  lemma {:induction false} SplitLast<T>(a: seq<T>, b: seq<T>)
    requires b != []
    ensures (a + b)[..|a + b| - 1] == a + b[..|b| - 1] && (a + b)[|a + b| - 1] == b[|b| - 1]
  {
  }

  lemma {:induction false} ClosedForGood(events: seq<Event>, more: seq<Event>, i: nat)
    requires i < |Run(events).reservations| && Run(events).reservations[i].state != Held
    ensures i < |Run(events + more).reservations| && Run(events + more).reservations[i] == Run(events).reservations[i]
  {
    if more == [] {
      assert events + more == events;
    } else {
      var front, last := more[..|more| - 1], more[|more| - 1];
      ClosedForGood(events, front, i);
      RunMore(events, more);
      StepMovesAsPermitted(Run(events + front), last, i);
    }
  }

  /** What a reservation has left in the ledger of a level: its reserve, its release, its charge, each once. */
  ghost predicate TrailAt(acc: Account, level: Level, rs: seq<Reservation>, i: nat) {
    var held := i < |rs| && level in rs[i].holds;
    && Ledger.Amounts(acc.ledger, Ledger.Reserve, i) == (if held then [rs[i].estimate] else [])
    && Ledger.Amounts(acc.ledger, Ledger.ReleaseReserve, i) == (if held && rs[i].state != Held then [rs[i].estimate] else [])
    && Ledger.Amounts(acc.ledger, Ledger.Settle, i) == (if held && rs[i].state == Settled then [rs[i].charged] else [])
  }

  ghost predicate Trails(s: State) {
    && (forall i :: 0 <= i < |s.reservations| ==> s.reservations[i].holds <= s.accounts.Keys)
    && (forall level, i: nat :: level in s.accounts ==> TrailAt(s.accounts[level], level, s.reservations, i))
  }

  lemma {:induction false} OneEntryTrail(ledger: seq<Ledger.Entry>, e: Ledger.Entry, i: nat)
    ensures forall kind :: Ledger.Amounts(ledger + [e], kind, i)
              == Ledger.Amounts(ledger, kind, i) + if e.move.kind == kind && e.reservation == Some(i) then [e.move.amount] else []
  {
    forall kind
      ensures Ledger.Amounts(ledger + [e], kind, i)
           == Ledger.Amounts(ledger, kind, i) + if e.move.kind == kind && e.reservation == Some(i) then [e.move.amount] else []
    {
      Ledger.AmountsAppend(ledger, e, kind, i);
    }
  }

  lemma {:induction false} TakenTrail(acc: Account, level: Level, rs: seq<Reservation>, r: Reservation, i: nat)
    requires TrailAt(acc, level, rs, i) && r.state == Held
    ensures TrailAt(if level in r.holds then ReserveOn(acc, r.estimate, |rs|) else acc, level, rs + [r], i)
  {
    var e := Entry(Ledger.Reserve, r.estimate, Some(|rs|), ReserveOn(acc, r.estimate, |rs|).stored);
    Ledger.AmountsAppend(acc.ledger, e, Ledger.Reserve, i);
    Ledger.AmountsAppend(acc.ledger, e, Ledger.ReleaseReserve, i);
    Ledger.AmountsAppend(acc.ledger, e, Ledger.Settle, i);
    assert i < |rs| ==> (rs + [r])[i] == rs[i];
  }

  lemma {:induction false} ReserveKeepsTrails(s: State, e: Event)
    requires Trails(s) && e.Reserve?
    ensures Trails(ReserveStep(s, e))
  {
    var locked := s.(accounts := WithCompany(s.accounts));
    CompanyKeepsTrails(s);
    TakeKeepsTrails(locked, Reservation(Held, e.estimate, Locked(locked.accounts, e.ctx), e.at, 0));
  }

  lemma {:induction false} CompanyKeepsTrails(s: State)
    requires Trails(s)
    ensures Trails(s.(accounts := WithCompany(s.accounts)))
  {
    assert COMPANY !in s.accounts ==> forall i: nat :: TrailAt(OPENED, COMPANY, s.reservations, i);
  }

  lemma {:induction false} TakeKeepsTrails(s: State, r: Reservation)
    requires Trails(s) && r.state == Held && r.holds <= s.accounts.Keys
    ensures Trails(Take(s, r))
  {
    forall level, i: nat | level in s.accounts ensures TrailAt(Take(s, r).accounts[level], level, s.reservations + [r], i) {
      assert TrailAt(s.accounts[level], level, s.reservations, i);
      TakenTrail(s.accounts[level], level, s.reservations, r, i);
    }
  }

  lemma {:induction false} ClosedAmounts(acc: Account, closed: Reservation, id: nat, i: nat)
    ensures var after := ClosedOn(acc, closed, id).ledger;
            && Ledger.Amounts(after, Ledger.Reserve, i) == Ledger.Amounts(acc.ledger, Ledger.Reserve, i)
            && Ledger.Amounts(after, Ledger.ReleaseReserve, i)
               == Ledger.Amounts(acc.ledger, Ledger.ReleaseReserve, i) + (if i == id then [closed.estimate] else [])
            && Ledger.Amounts(after, Ledger.Settle, i)
               == Ledger.Amounts(acc.ledger, Ledger.Settle, i) + (if i == id && closed.state == Settled then [closed.charged] else [])
  {
    var hold := closed.estimate;
    OneEntryTrail(acc.ledger, ReleaseOn(acc, hold, id).ledger[|acc.ledger|], i);
    if closed.state == Settled {
      SettleIsReleaseThenCharge(acc, hold, closed.charged, id);
      OneEntryTrail(ReleaseOn(acc, hold, id).ledger, ChargeEntry(acc, hold, closed.charged, id), i);
    }
  }

  lemma {:induction false} ClosedTrail(acc: Account, level: Level, rs: seq<Reservation>, id: nat, closed: Reservation, i: nat)
    requires TrailAt(acc, level, rs, i) && id < |rs| && Closes(closed, rs[id])
    ensures TrailAt(if level in closed.holds then ClosedOn(acc, closed, id) else acc, level, rs[id := closed], i)
  {
    ClosedAmounts(acc, closed, id, i);
  }

  lemma {:induction false} CloseKeepsTrails(s: State, id: nat, closed: Reservation)
    requires Trails(s) && id < |s.reservations| && Closes(closed, s.reservations[id])
    ensures Trails(Close(s, id, closed))
  {
    var next := Close(s, id, closed);
    forall level, i: nat | level in next.accounts ensures TrailAt(next.accounts[level], level, next.reservations, i) {
      assert TrailAt(s.accounts[level], level, s.reservations, i);
      ClosedTrail(s.accounts[level], level, s.reservations, id, closed, i);
    }
  }

  /** after appends only entries that belong to no reservation. */
  ghost predicate LeavesNoTrail(acc: Account, after: Account) {
    forall kind, i: nat :: Ledger.Amounts(after.ledger, kind, i) == Ledger.Amounts(acc.ledger, kind, i)
  }

  lemma {:induction false} UntiedEntry(acc: Account, after: Account)
    requires |after.ledger| == |acc.ledger| + 1 && after.ledger[..|acc.ledger|] == acc.ledger
    requires after.ledger[|acc.ledger|].reservation == None
    ensures LeavesNoTrail(acc, after)
  {
    var e := after.ledger[|acc.ledger|];
    assert after.ledger == acc.ledger + [e];
    forall kind, i: nat ensures Ledger.Amounts(after.ledger, kind, i) == Ledger.Amounts(acc.ledger, kind, i) {
      Ledger.AmountsAppend(acc.ledger, e, kind, i);
    }
  }

  lemma {:induction false} AllowanceLeavesNoTrail(acc: Account, level: Level, kind: Ledger.Kind, amount: int)
    ensures LeavesNoTrail(acc, MoveAllowanceOn(acc, kind, amount))
    ensures LeavesNoTrail(acc, SetAllowanceOn(acc, level, amount))
  {
    UntiedEntry(acc, MoveAllowanceOn(acc, kind, amount));
    if amount != acc.stored.allowance { UntiedEntry(acc, SetAllowanceOn(acc, level, amount)); }
  }

  lemma {:induction false} PeriodLeavesNoTrail(acc: Account, expiry: bool, amount: int, read: int)
    ensures LeavesNoTrail(acc, PeriodMovementFrom(acc, expiry, amount, read))
  {
    if amount > 0 { UntiedEntry(acc, PeriodMovementFrom(acc, expiry, amount, read)); }
  }

  lemma {:induction false} ResetsLeaveNoTrail(acc: Account, grant: int, periods: nat)
    ensures LeavesNoTrail(acc, ResetsOn(acc, grant, periods))
  {
    if periods > 0 {
      var before := ResetsOn(acc, grant, periods - 1);
      ResetsLeaveNoTrail(acc, grant, periods - 1);
      PeriodLeavesNoTrail(before, true, Remaining(before), before.stored.allowance);
      var lapsed := RecordPeriodMovement(before, true, Remaining(before));
      PeriodLeavesNoTrail(lapsed, false, grant, lapsed.stored.allowance);
    }
  }

  lemma {:induction false} FinishLeavesNoTrail(acc: Account, leftover: int, read: int, grant: int, more: nat)
    ensures LeavesNoTrail(acc, FinishReset(acc, leftover, read, grant, more))
  {
    PeriodLeavesNoTrail(acc, false, grant, read);
    PeriodLeavesNoTrail(acc, true, leftover, read);
    var lapsed := PeriodMovementFrom(acc, true, leftover, read);
    PeriodLeavesNoTrail(lapsed, false, grant, lapsed.stored.allowance);
    ResetsLeaveNoTrail(FirstPeriod(acc, leftover, read, grant), grant, more);
    FinishIsFirstThenMore(acc, leftover, read, grant, more);
  }

  lemma {:induction false} MovedLeavesNoTrail(acc: Account, e: Event)
    requires Moved(acc, e).Some?
    ensures LeavesNoTrail(acc, Moved(acc, e).value)
  {
    match e
    case MoveAllowance(level, kind, delta) => AllowanceLeavesNoTrail(acc, level, kind, delta);
    case SetAllowance(level, allowance) => AllowanceLeavesNoTrail(acc, level, Ledger.TopUp, allowance);
  }

  lemma {:induction false} AllowanceStepKeepsTrails(s: State, level: Level, e: Event)
    requires Trails(s)
    ensures Trails(AllowanceStep(s, level, e))
  {
    var acc := if level in s.accounts then s.accounts[level] else OPENED;
    if Moved(acc, e).Some? {
      var after := Moved(acc, e).value;
      MovedLeavesNoTrail(acc, e);
      forall i: nat ensures TrailAt(after, level, s.reservations, i) {
        assert TrailAt(acc, level, s.reservations, i);
      }
    }
  }

  lemma {:induction false} CommitKeepsTrails(s: State, i: nat, grant: int, more: nat)
    requires Trails(s)
    ensures Trails(CommitStep(s, i, grant, more))
  {
    if MayCommit(s, i) {
      var r := s.resets[i];
      var acc := s.accounts[r.level];
      var after := FinishReset(acc, r.leftover, r.read.value, grant, more);
      FinishLeavesNoTrail(acc, r.leftover, r.read.value, grant, more);
      forall k: nat ensures TrailAt(after, r.level, s.reservations, k) {
        assert TrailAt(acc, r.level, s.reservations, k);
      }
    }
  }

  lemma {:induction false} CloseStepKeepsTrails(s: State, id: nat, e: Event)
    requires Trails(s)
    ensures Trails(CloseStep(s, id, e))
  {
    if id < |s.reservations| && Closing(s.reservations[id], e).Some? {
      CloseKeepsTrails(s, id, Closing(s.reservations[id], e).value);
    }
  }

  lemma {:induction false} StepKeepsTrails(s: State, e: Event)
    requires Trails(s)
    ensures Trails(Step(s, e))
  {
    match e
    case Reserve(_, _, _, _, _) => ReserveKeepsTrails(s, e);
    case Settle(id, _) => CloseStepKeepsTrails(s, id, e);
    case Release(id) => CloseStepKeepsTrails(s, id, e);
    case Expire(id, _, _) => CloseStepKeepsTrails(s, id, e);
    case MoveAllowance(level, _, _) => AllowanceStepKeepsTrails(s, level, e);
    case SetAllowance(level, _) =>
      CompanyKeepsTrails(s);
      AllowanceStepKeepsTrails(s.(accounts := WithCompany(s.accounts), resets := EndResets(s.resets, level)), level, e);
    case BeginReset(_) =>
    case ReadForReset(_) =>
    case CommitReset(i, grant, more) => CommitKeepsTrails(s, i, grant, more);
  }

  /**
    In every run, in every wallet that a reservation holds, the ledger shows it reserved exactly once,
    released exactly once if it is closed, and charged exactly once if it is settled; in every other
    wallet it has left nothing.
   */
  lemma {:induction false} ChargedAtMostOnce(events: seq<Event>)
    ensures Trails(Run(events))
  {
    if events == [] {
      assert Trails(START);
    } else {
      ChargedAtMostOnce(events[..|events| - 1]);
      StepKeepsTrails(Run(events[..|events| - 1]), events[|events| - 1]);
    }
  }

  // ----- what one step does -----

  /** What an accepted reservation was checked against. */
  lemma {:induction false} AcceptedMeansNotStopped(accounts: map<Level, Account>, e: Event, level: Level)
    requires e.Reserve? && CombineLevels(Checks(accounts, e)).decision != HardStopped
    requires level in Locked(accounts, e.ctx)
    ensures var b := accounts[level].stored; b.used + b.reserved + e.estimate <= Ceiling(b.allowance, e.hardStopPercent)
  {
    StrictestOutermostBinds(Checks(accounts, e));
    var i :| 0 <= i < |LevelsOf(e.ctx)| && LevelsOf(e.ctx)[i] == level;
    assert Checks(accounts, e)[i] == CheckAt(accounts, level, e);
    assert Severity(CheckAt(accounts, level, e).decision) < 2;
  }

  /** A reservation is all or nothing: refused, it moves no balance; taken, it is held at every locked wallet. */
  lemma {:induction false} ReservationIsAllOrNothing(s: State, e: Event)
    requires e.Reserve?
    ensures var next := ReserveStep(s, e);
            if |next.reservations| == |s.reservations|
            then next.reservations == s.reservations && forall level :: level in s.accounts ==> next.accounts[level] == s.accounts[level]
            else
              && next.reservations == s.reservations + [next.reservations[|s.reservations|]]
              && COMPANY in next.reservations[|s.reservations|].holds
              && forall level :: level in s.accounts ==>
                   next.accounts[level].stored.reserved == s.accounts[level].stored.reserved
                     + (if level in LevelsOf(e.ctx) then e.estimate else 0)
                   && next.accounts[level].stored.used == s.accounts[level].stored.used
                   && next.accounts[level].stored.allowance == s.accounts[level].stored.allowance
  {
    LevelsComeOutermostFirst(e.ctx);
    assert LevelsOf(e.ctx)[0] in LevelsOf(e.ctx);
  }

  /** A reservation is taken exactly when every wallet on its way has room for the whole estimate. */
  lemma {:induction false} TakenExactlyWhenEveryWalletHasRoom(s: State, e: Event)
    requires e.Reserve?
    ensures var accounts := WithCompany(s.accounts);
            |ReserveStep(s, e).reservations| == |s.reservations| + 1 <==>
            forall level :: level in LevelsOf(e.ctx) && level in accounts ==>
              var b := accounts[level].stored; b.used + b.reserved + e.estimate <= Ceiling(b.allowance, e.hardStopPercent)
  {
    var accounts := WithCompany(s.accounts);
    var checks := Checks(accounts, e);
    StrictestOutermostBinds(checks);
    if CombineLevels(checks).decision == HardStopped {
      var i :| 0 <= i < |checks| && checks[i].decision == HardStopped;
      assert checks[i] == CheckAt(accounts, LevelsOf(e.ctx)[i], e);
    } else {
      forall level | level in Locked(accounts, e.ctx)
        ensures var b := accounts[level].stored; b.used + b.reserved + e.estimate <= Ceiling(b.allowance, e.hardStopPercent)
      {
        AcceptedMeansNotStopped(accounts, e, level);
      }
    }
  }

  /** A reservation that is taken is held from its own moment, for its whole estimate and with nothing charged. */
  lemma {:induction false} ReservationRecords(s: State, e: Event)
    requires e.Reserve? && |ReserveStep(s, e).reservations| == |s.reservations| + 1
    ensures var r := ReserveStep(s, e).reservations[|s.reservations|];
            r.state == Held && r.estimate == e.estimate && r.heldAt == e.at && r.charged == 0
  {
  }

  /** So a sweep expires it exactly from the given minutes after that moment on. */
  lemma {:induction false} ExpiresExactlyWhenDue(s: State, e: Event, now: int, minutes: int)
    requires e.Reserve? && |ReserveStep(s, e).reservations| == |s.reservations| + 1
    ensures var i, taken := |s.reservations|, ReserveStep(s, e);
            var swept := Step(taken, Expire(i, now, minutes));
            if now - e.at >= minutes * 60_000 then swept.reservations == taken.reservations[i := taken.reservations[i].(state := Expired)]
            else swept == taken
  {
    ReservationRecords(s, e);
  }

  /** The permitted moves: none at all, or any out of Held. */
  lemma {:induction false} OnlyHeldMoves(from: ReservationState, to: ReservationState)
    ensures MayMoveReservation(from, to) <==> from == to || from == Held
  {
  }

  /** A company without a wallet gets an empty one, which refuses every spend. */
  lemma {:induction false} NoCompanyWalletNoSpend(s: State, e: Event)
    requires e.Reserve? && e.estimate > 0 && COMPANY !in s.accounts
    ensures ReserveStep(s, e) == s.(accounts := s.accounts[COMPANY := Account(Ledger.Balance(0, 0, 0), [])])
  {
    LevelsComeOutermostFirst(e.ctx);
    assert LevelsOf(e.ctx)[0] in LevelsOf(e.ctx);
    TakenExactlyWhenEveryWalletHasRoom(s, e);
    assert Ceiling(0, e.hardStopPercent) == 0;
  }

  /** The one way in which an event closes the reservation it names. */
  ghost predicate ClosedBy(e: Event, i: nat, r: Reservation, after: Reservation) {
    match e
    case Settle(id, actual) => id == i && actual >= 0 && after == r.(state := Settled, charged := actual)
    case Release(id) => id == i && after == r.(state := Released)
    case Expire(id, now, minutes) => id == i && now >= r.heldAt + minutes * 60_000 && after == r.(state := Expired)
    case _ => false
  }

  /** A held reservation is closed exactly by its own settlement, release or due expiry, and as that says. */
  lemma {:induction false} ClosedOnlyByItsOwn(s: State, e: Event, i: nat)
    requires i < |s.reservations| && s.reservations[i].state == Held
    ensures var r, after := s.reservations[i], Step(s, e).reservations[i];
            && (after == r || ClosedBy(e, i, r, after))
            && (after == r ==> !exists closed :: ClosedBy(e, i, r, closed))
  {
  }

  lemma {:induction false} NewIsUncharged(s: State, e: Event, i: nat)
    requires |s.reservations| <= i < |Step(s, e).reservations|
    ensures Step(s, e).reservations[i].charged == 0
  {
  }

  lemma {:induction false} HeldStaysAsItWas(s: State, e: Event, i: nat)
    requires i < |s.reservations| && i < |Step(s, e).reservations| && Step(s, e).reservations[i].state == Held
    ensures Step(s, e).reservations[i] == s.reservations[i]
  {
  }

  lemma {:induction false} HeldIsUncharged(events: seq<Event>, i: nat)
    requires i < |Run(events).reservations| && Run(events).reservations[i].state == Held
    ensures Run(events).reservations[i].charged == 0
  {
    if events != [] {
      var front, e := events[..|events| - 1], events[|events| - 1];
      RunUnfolds(events);
      if i < |Run(front).reservations| {
        HeldStaysAsItWas(Run(front), e, i);
        HeldIsUncharged(front, i);
      } else {
        NewIsUncharged(Run(front), e, i);
      }
    }
  }

  lemma {:induction false} CloseReturnsTheRest(s: State, e: Event, i: nat, level: Level)
    requires i < |s.reservations| && level in s.accounts && ClosedBy(e, i, s.reservations[i], Step(s, e).reservations[i])
    requires s.reservations[i].state == Held && s.reservations[i].charged == 0
    ensures var r, acc, after := Step(s, e).reservations[i], s.accounts[level], Step(s, e).accounts[level];
            if level in r.holds
            then Remaining(after) == Remaining(acc) + r.estimate - r.charged && after.stored.allowance == acc.stored.allowance
            else after == acc
  {
  }

  /** After any run, closing gives every held wallet back what was set aside and not charged; no other wallet changes. */
  lemma {:induction false} ClosingReturnsTheRest(events: seq<Event>, e: Event, i: nat, level: Level)
    requires i < |Run(events).reservations| && Run(events).reservations[i].state == Held && level in Run(events).accounts
    requires Step(Run(events), e).reservations[i].state != Held
    ensures var s, next := Run(events), Step(Run(events), e);
            var r, acc, after := next.reservations[i], s.accounts[level], next.accounts[level];
            if level in r.holds
            then Remaining(after) == Remaining(acc) + r.estimate - r.charged && after.stored.allowance == acc.stored.allowance
            else after == acc
  {
    HeldIsUncharged(events, i);
    ClosedOnlyByItsOwn(Run(events), e, i);
    CloseReturnsTheRest(Run(events), e, i, level);
  }

  /** A release undoes a reservation: every wallet has the balance it had before. */
  lemma {:induction false} ReleaseUndoesReserve(s: State, e: Event, level: Level)
    requires e.Reserve? && level in s.accounts
    requires |ReserveStep(s, e).reservations| == |s.reservations| + 1
    ensures var undone := Step(Step(s, e), Release(|s.reservations|));
            && level in undone.accounts && undone.accounts[level].stored == s.accounts[level].stored
            && undone.reservations[..|s.reservations|] == s.reservations
  {
  }

  /** The event is an allowance movement of this level, or writes a reset of it. */
  predicate MovesAllowanceOf(s: State, e: Event, level: Level) {
    || (e.MoveAllowance? && e.level == level) || (e.SetAllowance? && e.level == level)
    || (e.CommitReset? && e.i < |s.resets| && s.resets[e.i].level == level)
  }

  /** What an administrator or a reset moves is one wallet's allowance, and nothing of any other wallet. */
  lemma {:induction false} AllowanceMovesInOneWallet(s: State, e: Event, level: Level, other: Level)
    requires MovesAllowanceOf(s, e, level) && other in s.accounts && other != level
    ensures var next := Step(s, e);
            next.reservations == s.reservations && other in next.accounts && next.accounts[other] == s.accounts[other]
  {
  }

  /** It leaves what is used and reserved alone, and setting an allowance makes it what was asked for. */
  lemma {:induction false} AllowanceIsWhatMoves(s: State, e: Event, level: Level)
    requires MovesAllowanceOf(s, e, level)
    ensures var next := Step(s, e);
            && (e.SetAllowance? && e.allowance >= 0 && (level.scope == Company || level.subject.Some?) ==>
                  level in next.accounts && next.accounts[level].stored.allowance == e.allowance)
            && (level in next.accounts ==>
                  var was := if level in s.accounts then s.accounts[level] else OPENED;
                  && next.accounts[level].stored.used == was.stored.used
                  && next.accounts[level].stored.reserved == was.stored.reserved)
  {
    if e.CommitReset? && MayCommit(s, e.i) {
      var r := s.resets[e.i];
      FinishKeepsUse(s.accounts[level], r.leftover, r.read.value, e.grant, e.more);
    }
  }

  /**
    Which movements of an allowance are accepted: top-ups and expiries by a positive amount, adjustments
    and reallocations either way, none of which may take the allowance below zero; and what they write.
   */
  lemma {:induction false} MovementAcceptedExactlyWhen(acc: Account, level: Level, kind: Ledger.Kind, delta: int)
    requires acc.stored.allowance >= 0
    ensures var accepted := match kind
              case TopUp => delta > 0
              case Adjustment => delta != 0 && acc.stored.allowance + delta >= 0
              case Reallocation => delta != 0 && acc.stored.allowance + delta >= 0
              case Expiry => 0 < delta <= acc.stored.allowance
              case _ => false;
            var after := Moved(acc, MoveAllowance(level, kind, delta));
            && (after.Some? <==> accepted)
            && (after.Some? ==>
                  && after.value.stored.allowance == acc.stored.allowance + (if kind == Ledger.Expiry then -delta else delta)
                  && SameUse(acc, after.value)
                  && Ledger.Movements(after.value.ledger) == Ledger.Movements(acc.ledger) + [Ledger.Movement(kind, delta)])
  {
    Ledger.AppendEntry(acc.ledger, Entry(kind, delta, None, MoveAllowanceOn(acc, kind, delta).stored));
  }

  /** Setting an allowance leaves one entry of the difference, an adjustment for the company and a reallocation below it, or none. */
  lemma {:induction false} SettingLeavesItsEntry(acc: Account, level: Level, allowance: int)
    ensures var delta := allowance - acc.stored.allowance;
            Ledger.Movements(SetAllowanceOn(acc, level, allowance).ledger) == Ledger.Movements(acc.ledger)
              + if delta == 0 then []
                else if level.scope == Company then [Ledger.Movement(Ledger.Adjustment, delta)]
                else [Ledger.Movement(Ledger.Reallocation, delta)]
  {
    SetWritesOneEntry(acc, level, allowance);
    Ledger.AppendEntry(acc.ledger, SetEntry(acc, level, allowance));
  }

  lemma {:induction false} ResetsKeepUse(acc: Account, grant: int, periods: nat)
    ensures SameUse(acc, ResetsOn(acc, grant, periods))
  {
    if periods > 0 { ResetsKeepUse(acc, grant, periods - 1); }
  }

  lemma {:induction false} FinishKeepsUse(acc: Account, leftover: int, read: int, grant: int, more: nat)
    ensures SameUse(acc, FinishReset(acc, leftover, read, grant, more))
  {
    FinishIsFirstThenMore(acc, leftover, read, grant, more);
    ResetsKeepUse(FirstPeriod(acc, leftover, read, grant), grant, more);
  }
}
