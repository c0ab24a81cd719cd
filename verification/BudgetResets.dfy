/**
  Period resets (apps/api/src/cost/budget-reset.runner.ts): what a reset makes available, and what it
  writes when other transactions come between its reads and its first write.
 */
module BudgetResets {
  import opened Options
  import opened SpendCheck
  import opened BudgetProtocol
  import opened BudgetSafety
  import opened BudgetCeiling
  import Ledger

  // ----- a reset that nothing comes between -----

  /** With nothing in between the three steps of a reset do what one does on a locked row. */
  lemma {:induction false} UninterruptedReset(acc: Account, grant: int, more: nat)
    ensures FinishReset(acc, Remaining(acc), acc.stored.allowance, grant, more) == ResetsOn(acc, grant, more + 1)
  {
    FinishIsFirstThenMore(acc, Remaining(acc), acc.stored.allowance, grant, more);
    assert FirstPeriod(acc, Remaining(acc), acc.stored.allowance, grant) == ResetOn(acc, grant);
    ResetsUnfold(acc, grant, more);
  }

  lemma {:induction false} ResetsUnfold(acc: Account, grant: int, periods: nat)
    ensures ResetsOn(ResetOn(acc, grant), grant, periods) == ResetsOn(acc, grant, periods + 1)
  {
    if periods == 0 {
      assert ResetsOn(acc, grant, 1) == ResetOn(ResetsOn(acc, grant, 0), grant);
    } else {
      ResetsUnfold(acc, grant, periods - 1);
    }
  }

  /** After a reset exactly the grant is available; an overdraft is carried into the new period. */
  lemma {:induction false} ResetRestoresTheGrant(acc: Account, grant: nat)
    requires Sound(acc)
    ensures Remaining(ResetOn(acc, grant)) == if Remaining(acc) > 0 then grant else Remaining(acc) + grant
    ensures SameUse(acc, ResetOn(acc, grant))
  {
  }

  function Least(a: int, b: int): int { if a < b then a else b }

  lemma {:induction false} OneMorePeriod(acc: Account, grant: nat, periods: nat)
    requires Sound(acc)
    ensures Remaining(ResetsOn(acc, grant, periods + 1)) == Least(grant, Remaining(ResetsOn(acc, grant, periods)) + grant)
  {
    ResetsAreSound(acc, grant, periods);
    ResetRestoresTheGrant(ResetsOn(acc, grant, periods), grant);
  }

  lemma {:induction false} TimesNext(n: nat, x: int)
    ensures (n + 1) * x == n * x + x
  {
  }

  /**
    Catching up does not add up: after any number of periods at most one grant is available, because
    each earlier one lapses. Only an overdraft takes in more.
   */
  lemma {:induction false} CatchingUpGrantsOnce(acc: Account, grant: nat, periods: nat)
    requires Sound(acc) && periods > 0
    ensures Remaining(ResetsOn(acc, grant, periods)) == Least(grant, Remaining(acc) + periods * grant)
  {
    var n := periods - 1;
    OneMorePeriod(acc, grant, n);
    TimesNext(n, grant);
    if n > 0 { CatchingUpGrantsOnce(acc, grant, n); }
  }

  // ----- the steps of a reset together -----

  /** A reset reads what is left of the allowance, later the allowance itself, and stays open. */
  lemma {:induction false} ResetReads(s: State, level: Level)
    requires level in s.accounts
    ensures var n, b := |s.resets|, s.accounts[level].stored;
            var read := Step(Step(s, BeginReset(level)), ReadForReset(n));
            && read == s.(resets := read.resets)
            && read.resets == s.resets + [Reset(level, b.allowance - b.used - b.reserved, Some(b.allowance), true)]
  {
  }

  ghost predicate OnlyAccountMoves(s: State, after: State, level: Level) {
    && after.reservations == s.reservations && after.accounts.Keys == s.accounts.Keys
    && forall other :: other in s.accounts && other != level ==> after.accounts[other] == s.accounts[other]
  }

  lemma {:induction false} CommitWrites(s: State, i: nat, grant: int, more: nat)
    requires MayCommit(s, i)
    ensures var r, after := s.resets[i], Step(s, CommitReset(i, grant, more));
            && OnlyAccountMoves(s, after, r.level)
            && after.accounts[r.level] == FinishReset(s.accounts[r.level], r.leftover, r.read.value, grant, more)
            && i < |after.resets| && !after.resets[i].open
  {
  }

  lemma {:induction false} ClosedResetDoesNothing(s: State, i: nat, grant: int, more: nat)
    requires i < |s.resets| && !s.resets[i].open
    ensures Step(s, CommitReset(i, grant, more)) == s
  {
  }

  /** Begin, read and commit with nothing in between, whatever else is under way. */
  function WholeReset(s: State, level: Level, grant: int, more: nat): State {
    var n := |s.resets|;
    Step(Step(Step(s, BeginReset(level)), ReadForReset(n)), CommitReset(n, grant, more))
  }

  lemma {:induction false} WholeResetWrites(s: State, level: Level, grant: int, more: nat)
    requires level in s.accounts
    ensures var n, after := |s.resets|, WholeReset(s, level, grant, more);
            && OnlyAccountMoves(s, after, level) && after.accounts[level] == ResetsOn(s.accounts[level], grant, more + 1)
            && n < |after.resets| && !after.resets[n].open
  {
    var n := |s.resets|;
    var read := Step(Step(s, BeginReset(level)), ReadForReset(n));
    ResetReads(s, level);
    CommitWrites(read, n, grant, more);
    UninterruptedReset(s.accounts[level], grant, more);
  }

  /** Used and reserved stay, no other wallet and no reservation moves, and a second commit does nothing. */
  lemma {:induction false} WholeResetMovesOneAllowance(s: State, level: Level, grant: int, more: nat, g: int, m: nat)
    requires level in s.accounts
    ensures var after := WholeReset(s, level, grant, more);
            && OnlyAccountMoves(s, after, level) && SameUse(s.accounts[level], after.accounts[level])
            && Step(after, CommitReset(|s.resets|, g, m)) == after
  {
    WholeResetWrites(s, level, grant, more);
    ResetsKeepUse(s.accounts[level], grant, more + 1);
    ClosedResetDoesNothing(WholeReset(s, level, grant, more), |s.resets|, g, m);
  }

  /** What was left lapses and each period that is due is granted, so at most one grant remains. */
  lemma {:induction false} WholeResetGrantsOnce(s: State, level: Level, grant: nat, more: nat)
    requires Books(s) && level in s.accounts
    ensures level in WholeReset(s, level, grant, more).accounts
    ensures Remaining(WholeReset(s, level, grant, more).accounts[level]) == Least(grant, Remaining(s.accounts[level]) + (more + 1) * grant)
  {
    WholeResetWrites(s, level, grant, more);
    CatchingUpGrantsOnce(s.accounts[level], grant, more + 1);
  }

  /** Once a wallet's boundary has moved, by a reset or by setting its allowance, no reset of it that was under way writes anything. */
  lemma {:induction false} BoundaryGuardsResets(s: State, e: Event, i: nat, level: Level, grant: int, more: nat)
    requires i < |s.resets| && s.resets[i].level == level
    requires (e.SetAllowance? && e.level == level && e.allowance >= 0 && (level.scope == Company || level.subject.Some?))
             || (e.CommitReset? && MayCommit(s, e.i) && s.resets[e.i].level == level)
    ensures Step(Step(s, e), CommitReset(i, grant, more)) == Step(s, e)
  {
    ClosedResetDoesNothing(Step(s, e), i, grant, more);
  }

  /** And a reset that is no longer open stays so. */
  lemma {:induction false} ClosedResetStaysClosed(s: State, e: Event, i: nat)
    requires i < |s.resets| && !s.resets[i].open
    ensures i < |Step(s, e).resets| && !Step(s, e).resets[i].open
  {
  }

  lemma {:induction false} PeriodLeavesItsEntry(acc: Account, expiry: bool, amount: int, read: int)
    ensures Ledger.Movements(PeriodMovementFrom(acc, expiry, amount, read).ledger) == Ledger.Movements(acc.ledger)
              + if amount > 0 then [Ledger.Movement(if expiry then Ledger.Expiry else Ledger.Adjustment, amount)] else []
  {
    if amount > 0 { Ledger.AppendEntry(acc.ledger, PeriodEntry(acc, expiry, amount, read)); }
  }

  /** What a period leaves in the ledger: an expiry of what was left, and an adjustment of the grant. */
  lemma {:induction false} ResetLeavesItsEntries(acc: Account, grant: int)
    ensures var left := Remaining(acc);
            Ledger.Movements(ResetOn(acc, grant).ledger) == Ledger.Movements(acc.ledger)
              + (if left > 0 then [Ledger.Movement(Ledger.Expiry, left)] else [])
              + (if grant > 0 then [Ledger.Movement(Ledger.Adjustment, grant)] else [])
  {
    var left := Remaining(acc);
    var lapsed := RecordPeriodMovement(acc, true, left);
    PeriodLeavesItsEntry(acc, true, left, acc.stored.allowance);
    PeriodLeavesItsEntry(lapsed, false, grant, lapsed.stored.allowance);
  }

  // ----- how much room a reset gives -----

  /** What may still be reserved before the hard stop of h percent. */
  function Room(b: Ledger.Balance, h: nat): int { Ceiling(b.allowance, h) - Committed(b) }

  /** After a reset, with c committed and leftovers lapsed, the allowance is c + grant, of which h percent may be committed. */
  lemma {:induction false} RoomAfterReset(acc: Account, grant: nat, h: nat)
    requires Sound(acc) && Remaining(acc) > 0
    ensures Room(ResetOn(acc, grant).stored, h) == RoomFor(Committed(acc.stored), grant, h)
  {
  }

  function RoomFor(committed: nat, grant: nat, h: nat): int { Ceiling(committed + grant, h) - committed }

  /** Every hundred units that are committed change the room by h - 100: it shrinks below 100 percent and grows above. */
  lemma {:induction false} RoomDrifts(committed: nat, grant: nat, h: nat)
    ensures RoomFor(committed + 100, grant, h) == RoomFor(committed, grant, h) + h - 100
  {
    var whole := (committed + grant) * h;
    assert (committed + 100 + grant) * h == whole + 100 * h;
    assert (whole + 100 * h) / 100 == whole / 100 + h;
  }

  /** So a reset makes room for exactly the grant, whatever was spent before, only with a hard stop of 100 percent. */
  lemma {:induction false} RoomIsTheGrantExactlyWhen(grant: nat, h: nat)
    ensures (forall committed: nat :: RoomFor(committed, grant, h) == grant) <==> h == 100
  {
    RoomDrifts(0, grant, h);
    assert RoomFor(100, grant, h) == RoomFor(0, grant, h) + h - 100;
  }

  // ----- what a reservation in between does to the ceiling -----

  lemma {:induction false} PeriodLeavesRoomExactlyWhen(acc: Account, expiry: bool, amount: int, read: int, cap: int -> int)
    requires Sound(acc) && amount > 0
    ensures LoweringsLeaveRoom(PeriodMovementFrom(acc, expiry, amount, read).ledger, cap) <==>
            && LoweringsLeaveRoom(acc.ledger, cap)
            && LeavesRoom(acc.stored.allowance, PeriodEntry(acc, expiry, amount, read), cap)
  {
    LoweringsAppend(acc.ledger, PeriodEntry(acc, expiry, amount, read), cap);
  }

  lemma {:induction false} GrantLeavesRoom(acc: Account, grant: int, h: nat)
    requires Sound(acc)
    ensures LoweringsLeaveRoom(RecordPeriodMovement(acc, false, grant).ledger, CeilingAt(h)) <==> LoweringsLeaveRoom(acc.ledger, CeilingAt(h))
  {
    if grant > 0 {
      PeriodLeavesRoomExactlyWhen(acc, false, grant, acc.stored.allowance, CeilingAt(h));
      CeilingGrowsWithAllowance(acc.stored.allowance, acc.stored.allowance + grant, h);
    }
  }

  /**
    A reset that read some amount as left over, and the allowance it is about to overwrite, lets that
    much lapse whatever was committed since. It puts no ceiling below what is committed exactly when
    the rest of the allowance, which was committed when the leftover was read, still covers it.
   */
  lemma {:induction false} ResetLeavesRoomExactlyWhen(acc: Account, leftover: int, grant: int, h: nat)
    requires Sound(acc) && LoweringsLeaveRoom(acc.ledger, CeilingAt(h)) && 0 < leftover <= acc.stored.allowance
    ensures var rest := acc.stored.allowance - leftover;
            LoweringsLeaveRoom(FirstPeriod(acc, leftover, acc.stored.allowance, grant).ledger, CeilingAt(h)) <==>
            Ceiling(rest, h) == Ceiling(acc.stored.allowance, h) || Committed(acc.stored) <= Ceiling(rest, h)
  {
    var allowance := acc.stored.allowance;
    var lapsed := PeriodMovementFrom(acc, true, leftover, allowance);
    PeriodMovementIsSound(acc, true, leftover, allowance);
    PeriodLeavesRoomExactlyWhen(acc, true, leftover, allowance, CeilingAt(h));
    GrantLeavesRoom(lapsed, grant, h);
    CeilingGrowsWithAllowance(allowance - leftover, allowance, h);
  }

  lemma {:induction false} CeilingCovers(committed: nat, h: nat)
    requires h >= 100
    ensures Ceiling(committed, h) >= committed
  {
    CeilingGrows(committed, 100, h);
  }

  lemma {:induction false} ResetLeavesRoom(acc: Account, grant: int, h: nat)
    requires Sound(acc) && h >= 100 && LoweringsLeaveRoom(acc.ledger, CeilingAt(h))
    ensures LoweringsLeaveRoom(ResetOn(acc, grant).ledger, CeilingAt(h))
  {
    if Remaining(acc) > 0 {
      CeilingCovers(Committed(acc.stored), h);
      ResetLeavesRoomExactlyWhen(acc, Remaining(acc), grant, h);
      assert ResetOn(acc, grant) == FirstPeriod(acc, Remaining(acc), acc.stored.allowance, grant);
    } else {
      GrantLeavesRoom(acc, grant, h);
    }
  }

  /** With a hard stop of 100 percent or more, resets that nothing comes between never do. */
  lemma {:induction false} ResetsLeaveRoom(acc: Account, grant: int, periods: nat, h: nat)
    requires Sound(acc) && h >= 100 && LoweringsLeaveRoom(acc.ledger, CeilingAt(h))
    ensures LoweringsLeaveRoom(ResetsOn(acc, grant, periods).ledger, CeilingAt(h))
  {
    if periods > 0 {
      var n := periods - 1;
      ResetsLeaveRoom(acc, grant, n, h);
      ResetsAreSound(acc, grant, n);
      ResetLeavesRoom(ResetsOn(acc, grant, n), grant, h);
    }
  }

  lemma {:induction false} HundredPercent(n: int)
    ensures Ceiling(n, 100) == n
  {
  }

  /** A reservation of any amount between the read of the leftover and its expiry puts a ceiling of 100 percent below what is committed. */
  lemma {:induction false} ReservationBetweenIsStranded(acc: Account, estimate: nat, id: nat, grant: int)
    requires Sound(acc) && LoweringsLeaveRoom(acc.ledger, CeilingAt(100)) && Remaining(acc) > 0 && estimate > 0
    ensures var reserved := ReserveOn(acc, estimate, id);
            !LoweringsLeaveRoom(FirstPeriod(reserved, Remaining(acc), acc.stored.allowance, grant).ledger, CeilingAt(100))
  {
    var reserved := ReserveOn(acc, estimate, id);
    var e := ReserveEntry(acc, estimate, id);
    ReserveIsSound(acc, estimate, id);
    LoweringsAppend(acc.ledger, e, CeilingAt(100));
    ResetLeavesRoomExactlyWhen(reserved, Remaining(acc), grant, 100);
    HundredPercent(acc.stored.allowance - Remaining(acc));
    HundredPercent(acc.stored.allowance);
  }

  // ----- what an allowance movement in between does to the ledger -----

  /** By how much the first write of a reset misses what others made of the allowance since it was read, and its clamp at zero. */
  function SlipOfReset(allowance: int, leftover: int, read: int, grant: int): int {
    if leftover > 0 then read - allowance + Positive(leftover - read)
    else if grant > 0 then read - allowance
    else 0
  }

  lemma {:induction false} EntrySlip(acc: Account, expiry: bool, amount: int, read: int)
    requires amount > 0
    ensures Ledger.Slip(acc.stored.allowance, PeriodEntry(acc, expiry, amount, read))
         == read - acc.stored.allowance + if expiry then Positive(amount - read) else 0
  {
    Ledger.KindsMove(Ledger.Balance(acc.stored.allowance, 0, 0), amount);
  }

  lemma {:induction false} PeriodSlips(acc: Account, expiry: bool, amount: int, read: int)
    requires Sound(acc)
    ensures Ledger.Slips(PeriodMovementFrom(acc, expiry, amount, read).ledger) == Ledger.Slips(acc.ledger) +
              (if amount <= 0 then 0 else if expiry then read - acc.stored.allowance + Positive(amount - read) else read - acc.stored.allowance)
  {
    if amount > 0 {
      Ledger.SlipsAppend(acc.ledger, PeriodEntry(acc, expiry, amount, read));
      EntrySlip(acc, expiry, amount, read);
    }
  }

  lemma {:induction false} ResetSlipsNothing(acc: Account, grant: int)
    requires Sound(acc)
    ensures Ledger.Slips(ResetOn(acc, grant).ledger) == Ledger.Slips(acc.ledger)
  {
    var left := Remaining(acc);
    PeriodSlips(acc, true, left, acc.stored.allowance);
    PeriodMovementIsSound(acc, true, left, acc.stored.allowance);
    var lapsed := RecordPeriodMovement(acc, true, left);
    PeriodSlips(lapsed, false, grant, lapsed.stored.allowance);
  }

  lemma {:induction false} ResetsSlipNothing(acc: Account, grant: int, periods: nat)
    requires Sound(acc)
    ensures Ledger.Slips(ResetsOn(acc, grant, periods).ledger) == Ledger.Slips(acc.ledger)
  {
    if periods > 0 {
      var n := periods - 1;
      ResetsSlipNothing(acc, grant, n);
      ResetsAreSound(acc, grant, n);
      ResetSlipsNothing(ResetsOn(acc, grant, n), grant);
    }
  }

  lemma {:induction false} FirstPeriodSlips(acc: Account, leftover: int, read: nat, grant: int)
    requires Sound(acc)
    ensures Ledger.Slips(FirstPeriod(acc, leftover, read, grant).ledger)
         == Ledger.Slips(acc.ledger) + SlipOfReset(acc.stored.allowance, leftover, read, grant)
  {
    if leftover > 0 {
      PeriodSlips(acc, true, leftover, read);
      PeriodMovementIsSound(acc, true, leftover, read);
      var lapsed := PeriodMovementFrom(acc, true, leftover, read);
      PeriodSlips(lapsed, false, grant, lapsed.stored.allowance);
    } else {
      PeriodSlips(acc, false, grant, read);
    }
  }

  /** A reset moves the drift between balance and ledger by exactly that, however many periods it catches up. */
  lemma {:induction false} FinishSlips(acc: Account, leftover: int, read: nat, grant: int, more: nat)
    requires Sound(acc)
    ensures Ledger.Slips(FinishReset(acc, leftover, read, grant, more).ledger)
         == Ledger.Slips(acc.ledger) + SlipOfReset(acc.stored.allowance, leftover, read, grant)
  {
    FirstPeriodSlips(acc, leftover, read, grant);
    FirstPeriodIsSound(acc, leftover, read, grant);
    ResetsSlipNothing(FirstPeriod(acc, leftover, read, grant), grant, more);
    FinishIsFirstThenMore(acc, leftover, read, grant, more);
  }

  // ----- drift over runs -----

  function LedgerOf(s: State, level: Level): seq<Ledger.Entry> {
    if level in s.accounts then s.accounts[level].ledger else []
  }

  /** What a step adds to a wallet's drift: only the commit of a reset can, by what came between its read and its write. */
  function SlipOf(s: State, e: Event, level: Level): int {
    if e.CommitReset? && MayCommit(s, e.i) && s.resets[e.i].level == level then
      SlipOfReset(s.accounts[level].stored.allowance, s.resets[e.i].leftover, s.resets[e.i].read.value, e.grant)
    else 0
  }

  lemma {:induction false} ExactEntry(acc: Account, e: Ledger.Entry)
    requires Sound(acc) && e.after.allowance == Ledger.Apply(acc.stored, e.move).allowance
    ensures Ledger.Slips(acc.ledger + [e]) == Ledger.Slips(acc.ledger)
  {
    Ledger.SlipsAppend(acc.ledger, e);
  }

  lemma {:induction false} TakenSlipsNothing(acc: Account, estimate: nat, id: nat)
    requires Sound(acc)
    ensures Ledger.Slips(ReserveOn(acc, estimate, id).ledger) == Ledger.Slips(acc.ledger)
  {
    ExactEntry(acc, ReserveEntry(acc, estimate, id));
  }

  lemma {:induction false} ReleaseSlipsNothing(acc: Account, hold: nat, id: nat)
    requires Sound(acc)
    ensures Ledger.Slips(ReleaseOn(acc, hold, id).ledger) == Ledger.Slips(acc.ledger)
  {
    ReleaseWritesOneEntry(acc, hold, id);
    ExactEntry(acc, ReleaseEntry(acc, hold, id));
  }

  lemma {:induction false} ChargeSlipsNothing(acc: Account, hold: nat, actual: nat, id: nat)
    requires Sound(acc) && hold <= acc.stored.reserved
    ensures Ledger.Slips(ReleaseOn(acc, hold, id).ledger + [ChargeEntry(acc, hold, actual, id)])
         == Ledger.Slips(ReleaseOn(acc, hold, id).ledger)
  {
    ReleaseIsSound(acc, hold, id);
    ExactEntry(ReleaseOn(acc, hold, id), ChargeEntry(acc, hold, actual, id));
  }

  lemma {:induction false} ClosedSlipsNothing(acc: Account, closed: Reservation, id: nat)
    requires Sound(acc) && closed.estimate <= acc.stored.reserved
    ensures Ledger.Slips(ClosedOn(acc, closed, id).ledger) == Ledger.Slips(acc.ledger)
  {
    var hold := closed.estimate;
    ReleaseSlipsNothing(acc, hold, id);
    if closed.state == Settled {
      SettleIsReleaseThenCharge(acc, hold, closed.charged, id);
      ChargeSlipsNothing(acc, hold, closed.charged, id);
    }
  }

  lemma {:induction false} MovedSlipsNothing(acc: Account, e: Event)
    requires Sound(acc) && Moved(acc, e).Some?
    ensures Ledger.Slips(Moved(acc, e).value.ledger) == Ledger.Slips(acc.ledger)
  {
    match e
    case MoveAllowance(_, kind, delta) => ExactEntry(acc, Entry(kind, delta, None, MoveAllowanceOn(acc, kind, delta).stored));
    case SetAllowance(level, allowance) =>
      SetWritesOneEntry(acc, level, allowance);
      if allowance != acc.stored.allowance { ExactEntry(acc, SetEntry(acc, level, allowance)); }
  }

  lemma {:induction false} CloseStepSlipsNothing(s: State, id: nat, e: Event, level: Level)
    requires Books(s)
    ensures Ledger.Slips(LedgerOf(CloseStep(s, id, e), level)) == Ledger.Slips(LedgerOf(s, level))
  {
    if id < |s.reservations| && Closing(s.reservations[id], e).Some? && level in s.accounts {
      var closed := Closing(s.reservations[id], e).value;
      if level in closed.holds {
        SumContains(s.reservations, id, HeldOn(level));
        ClosedSlipsNothing(s.accounts[level], closed, id);
      }
    }
  }

  lemma {:induction false} AllowanceStepSlipsNothing(s: State, at: Level, e: Event, level: Level)
    requires Books(s)
    ensures Ledger.Slips(LedgerOf(AllowanceStep(s, at, e), level)) == Ledger.Slips(LedgerOf(s, level))
  {
    var acc := if at in s.accounts then s.accounts[at] else OPENED;
    if Moved(acc, e).Some? && at == level {
      if at !in s.accounts { OpenedBooks(s, at); }
      MovedSlipsNothing(acc, e);
    }
  }

  lemma {:induction false} CompanySlipsNothing(s: State, level: Level)
    ensures Ledger.Slips(LedgerOf(s.(accounts := WithCompany(s.accounts)), level)) == Ledger.Slips(LedgerOf(s, level))
  {
  }

  lemma {:induction false} TakeSlipsNothing(s: State, r: Reservation, level: Level)
    requires Books(s)
    ensures Ledger.Slips(LedgerOf(Take(s, r), level)) == Ledger.Slips(LedgerOf(s, level))
  {
    if level in s.accounts && level in r.holds { TakenSlipsNothing(s.accounts[level], r.estimate, |s.reservations|); }
  }

  lemma {:induction false} ReserveSlipsNothing(s: State, e: Event, level: Level)
    requires Books(s) && e.Reserve?
    ensures Ledger.Slips(LedgerOf(ReserveStep(s, e), level)) == Ledger.Slips(LedgerOf(s, level))
  {
    var locked := s.(accounts := WithCompany(s.accounts));
    CompanyBooks(s);
    CompanySlipsNothing(s, level);
    TakeSlipsNothing(locked, Reservation(Held, e.estimate, Locked(locked.accounts, e.ctx), e.at, 0), level);
  }

  lemma {:induction false} SetSlipsNothing(s: State, at: Level, e: Event, level: Level)
    requires Books(s)
    ensures var ready := s.(accounts := WithCompany(s.accounts), resets := EndResets(s.resets, at));
            Ledger.Slips(LedgerOf(AllowanceStep(ready, at, e), level)) == Ledger.Slips(LedgerOf(s, level))
  {
    EndedResetsBooks(s, at);
    CompanyBooks(s.(resets := EndResets(s.resets, at)));
    var ready := s.(accounts := WithCompany(s.accounts), resets := EndResets(s.resets, at));
    assert Ledger.Slips(LedgerOf(ready, level)) == Ledger.Slips(LedgerOf(s, level));
    AllowanceStepSlipsNothing(ready, at, e, level);
  }

  lemma {:induction false} CommitSlips(s: State, e: Event, level: Level)
    requires Books(s) && e.CommitReset?
    ensures Ledger.Slips(LedgerOf(Step(s, e), level)) == Ledger.Slips(LedgerOf(s, level)) + SlipOf(s, e, level)
  {
    if MayCommit(s, e.i) && s.resets[e.i].level == level {
      FinishSlips(s.accounts[level], s.resets[e.i].leftover, s.resets[e.i].read.value, e.grant, e.more);
    }
  }

  lemma {:induction false} StepSlips(s: State, e: Event, level: Level)
    requires Books(s)
    ensures Ledger.Slips(LedgerOf(Step(s, e), level)) == Ledger.Slips(LedgerOf(s, level)) + SlipOf(s, e, level)
  {
    match e
    case Reserve(_, _, _, _, _) => ReserveSlipsNothing(s, e, level);
    case Settle(id, _) => CloseStepSlipsNothing(s, id, e, level);
    case Release(id) => CloseStepSlipsNothing(s, id, e, level);
    case Expire(id, _, _) => CloseStepSlipsNothing(s, id, e, level);
    case MoveAllowance(at, _, _) => AllowanceStepSlipsNothing(s, at, e, level);
    case SetAllowance(at, _) => SetSlipsNothing(s, at, e, level);
    case BeginReset(_) =>
    case ReadForReset(_) =>
    case CommitReset(_, _, _) => CommitSlips(s, e, level);
  }

  /** What all the resets of a run have added to a wallet's drift. */
  function SlipsOfRun(events: seq<Event>, level: Level): int {
    if events == [] then 0
    else
      var front := events[..|events| - 1];
      SlipsOfRun(front, level) + SlipOf(Run(front), events[|events| - 1], level)
  }

  lemma {:induction false} RunSlips(events: seq<Event>, level: Level)
    ensures Ledger.Slips(LedgerOf(Run(events), level)) == SlipsOfRun(events, level)
  {
    if events != [] {
      RunSlips(events[..|events| - 1], level);
      EveryRunKeepsBooks(events[..|events| - 1]);
      StepSlips(Run(events[..|events| - 1]), events[|events| - 1], level);
    }
  }

  /**
    After any run used and reserved agree with the ledger, and the allowance differs from it by exactly
    what its resets have missed between their reads and their writes.
   */
  lemma {:induction false} DriftIsWhatResetsMissed(events: seq<Event>, level: Level)
    requires level in Run(events).accounts
    ensures var acc := Run(events).accounts[level];
            var replayed := Ledger.Replay(Ledger.Movements(acc.ledger));
            && acc.stored.used == replayed.used && acc.stored.reserved == replayed.reserved
            && acc.stored.allowance - replayed.allowance == SlipsOfRun(events, level)
  {
    EveryRunKeepsBooks(events);
    RunSlips(events, level);
    Ledger.SlipsAreTheDrift(Run(events).accounts[level].ledger);
  }

  /** Every reset of the wallet found the allowance as it had read it, and no less than it had read as left over. */
  ghost predicate NothingMissed(events: seq<Event>, level: Level) {
    forall k :: 0 <= k < |events| ==> SlipOf(Run(events[..k]), events[k], level) == 0
  }

  lemma {:induction false} NoSlips(events: seq<Event>, level: Level)
    requires NothingMissed(events, level)
    ensures SlipsOfRun(events, level) == 0
  {
    if events != [] {
      var front, last := events[..|events| - 1], events[|events| - 1];
      forall k | 0 <= k < |front| ensures SlipOf(Run(front[..k]), front[k], level) == 0 {
        assert front[..k] == events[..k];
        assert SlipOf(Run(events[..k]), events[k], level) == 0;
      }
      NoSlips(front, level);
      assert SlipOf(Run(events[..|front|]), events[|front|], level) == 0;
    }
  }

  /** So reconciliation finds nothing after any run in which no reset missed a movement of the allowance. */
  lemma {:induction false} NothingToReconcile(events: seq<Event>, level: Level)
    requires level in Run(events).accounts && NothingMissed(events, level)
    ensures var acc := Run(events).accounts[level]; acc.stored == Ledger.Replay(Ledger.Movements(acc.ledger))
  {
    DriftIsWhatResetsMissed(events, level);
    NoSlips(events, level);
  }

  /** A top-up between the read and the write of a reset is lost: the ledger shows it and the balance does not. */
  lemma {:induction false} TopUpBetweenIsLost(acc: Account, amount: int, grant: int)
    requires Sound(acc) && Remaining(acc) > 0 && amount > 0
    ensures var toppedUp := MoveAllowanceOn(acc, Ledger.TopUp, amount);
            var after := FirstPeriod(toppedUp, Remaining(acc), acc.stored.allowance, grant);
            && after.stored.allowance == FirstPeriod(acc, Remaining(acc), acc.stored.allowance, grant).stored.allowance
            && Ledger.Slips(after.ledger) == Ledger.Slips(acc.ledger) - amount
  {
    MoveIsSound(acc, Ledger.TopUp, amount);
    MovedSlipsNothing(acc, MoveAllowance(COMPANY, Ledger.TopUp, amount));
    FirstPeriodSlips(MoveAllowanceOn(acc, Ledger.TopUp, amount), Remaining(acc), acc.stored.allowance, grant);
  }
}
