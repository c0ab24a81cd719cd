/**
  The reservation protocol: check, estimate, reserve, execute, settle or release
  (packages/types/src/cost.ts, as apps/api/src/cost/cost-engine.service.ts and
  apps/api/src/cost/budget-reset.runner.ts apply it). A transaction that locks the rows of its wallets
  before it reads them is one step. A reset does not: it reads what is left over and reads the
  allowance without a lock, and only its first write locks the row, so it is three steps. A run is any
  interleaving of steps by any number of agents, sweeps, runners and administrators.
 */
module BudgetProtocol {
  import opened Options
  import opened SpendCheck
  import Ledger

  // ----- state -----

  datatype ReservationState = Held | Settled | Released | Expired

  /** A self-move is allowed and changes nothing; otherwise only out of Held. */
  predicate MayMoveReservation(from: ReservationState, to: ReservationState) {
    from == to || (from == Held && to != Held)
  }

  datatype Reservation = Reservation(state: ReservationState, estimate: nat, holds: set<Level>, heldAt: int, charged: nat)

  /** A wallet row with the ledger entries that name it. */
  datatype Account = Account(stored: Ledger.Balance, ledger: seq<Ledger.Entry>)

  /** A reset under way: what it read as left over and, later, as allowance. It is open until the wallet's boundary moves. */
  datatype Reset = Reset(level: Level, leftover: int, read: Option<int>, open: bool)

  /** Wallets by level; reservations and resets by identity, in order of creation. */
  datatype State = State(accounts: map<Level, Account>, reservations: seq<Reservation>, resets: seq<Reset>)

  const START := State(map[], [], [])

  const OPENED := Account(Ledger.ZERO, [])

  // ----- what one transaction writes to one wallet -----

  function Entry(kind: Ledger.Kind, amount: int, reservation: Option<nat>, after: Ledger.Balance): Ledger.Entry {
    Ledger.Entry(Ledger.Movement(kind, amount), reservation, after)
  }

  function ReserveOn(acc: Account, estimate: nat, id: nat): Account {
    var updated := acc.stored.(reserved := acc.stored.reserved + estimate);
    Account(updated, acc.ledger + [Entry(Ledger.Reserve, estimate, Some(id), updated)])
  }

  /** The whole hold is released and the actual amount charged: two entries, one update. */
  function SettleOn(acc: Account, hold: nat, actual: nat, id: nat): Account {
    var updated := acc.stored.(reserved := acc.stored.reserved - hold, used := acc.stored.used + actual);
    Account(updated,
            acc.ledger
            + [Entry(Ledger.ReleaseReserve, hold, Some(id), updated.(used := updated.used - actual))]
            + [Entry(Ledger.Settle, actual, Some(id), updated)])
  }

  function ReleaseOn(acc: Account, hold: nat, id: nat): Account {
    var updated := acc.stored.(reserved := acc.stored.reserved - hold);
    Account(updated, acc.ledger + [Entry(Ledger.ReleaseReserve, hold, Some(id), updated)])
  }

  /** `adjustAllowance`: refused, leaving the wallet as it was, unless kind and sign allow the movement. */
  function MayMoveAllowance(acc: Account, kind: Ledger.Kind, delta: int): bool {
    && delta != 0
    && Ledger.Effect(kind).allowance != 0
    && (kind == Ledger.Adjustment || kind == Ledger.Reallocation || delta > 0)
    && acc.stored.allowance + Ledger.Signed(Ledger.Effect(kind).allowance, delta) >= 0
  }

  function MoveAllowanceOn(acc: Account, kind: Ledger.Kind, delta: int): Account {
    var updated := acc.stored.(allowance := acc.stored.allowance + Ledger.Signed(Ledger.Effect(kind).allowance, delta));
    Account(updated, acc.ledger + [Entry(kind, delta, None, updated)])
  }

  /** `setAllowance`: one entry for the difference, none when there is no difference. */
  function SetAllowanceOn(acc: Account, level: Level, allowance: int): Account {
    var delta := allowance - acc.stored.allowance;
    if delta == 0 then acc
    else
      var updated := acc.stored.(allowance := allowance);
      var kind := if level.scope == Company then Ledger.Adjustment else Ledger.Reallocation;
      Account(updated, acc.ledger + [Entry(kind, delta, None, updated)])
  }

  /** `recordPeriodMovement`, with its clamp of an expiry at zero, writing over whatever the allowance is by now. */
  function PeriodMovementFrom(acc: Account, expiry: bool, amount: int, read: int): Account {
    if amount <= 0 then acc
    else
      var allowance := if !expiry then read + amount else if read - amount < 0 then 0 else read - amount;
      var updated := acc.stored.(allowance := allowance);
      Account(updated, acc.ledger + [Entry(if expiry then Ledger.Expiry else Ledger.Adjustment, amount, None, updated)])
  }

  /** The same when the row is locked already. */
  function RecordPeriodMovement(acc: Account, expiry: bool, amount: int): Account {
    PeriodMovementFrom(acc, expiry, amount, acc.stored.allowance)
  }

  function Remaining(acc: Account): int {
    RemainingMinor(acc.stored.allowance, acc.stored.used, acc.stored.reserved)
  }

  /** One period on a locked row: what was not spent lapses, then the new grant is added. */
  function ResetOn(acc: Account, grant: int): Account {
    RecordPeriodMovement(RecordPeriodMovement(acc, true, Remaining(acc)), false, grant)
  }

  function ResetsOn(acc: Account, grant: int, periods: nat): Account {
    if periods == 0 then acc else ResetOn(ResetsOn(acc, grant, periods - 1), grant)
  }

  /** The writes of a reset, from what it read: the first one locks the row, and further periods that are due follow. */
  function FinishReset(acc: Account, leftover: int, read: int, grant: int, more: nat): Account {
    ResetsOn(if leftover > 0 then RecordPeriodMovement(PeriodMovementFrom(acc, true, leftover, read), false, grant)
             else PeriodMovementFrom(acc, false, grant, read),
             grant, more)
  }

  // ----- the transactions -----

  datatype Event =
    | Reserve(ctx: Context, estimate: nat, approvalPercent: int, hardStopPercent: int, at: int)
    | Settle(id: nat, actual: int)
    | Release(id: nat)
    | Expire(id: nat, now: int, expiryMinutes: int)
    | MoveAllowance(level: Level, kind: Ledger.Kind, delta: int)
    | SetAllowance(level: Level, allowance: int)
    | BeginReset(level: Level)
    | ReadForReset(i: nat)
    | CommitReset(i: nat, grant: int, more: nat)

  /** The company wallet is created on demand; a missing wallet at any other level sets no limit. */
  function WithCompany(accounts: map<Level, Account>): map<Level, Account> {
    if COMPANY in accounts then accounts else accounts[COMPANY := OPENED]
  }

  function CheckAt(accounts: map<Level, Account>, level: Level, e: Event): LevelCheck
    requires e.Reserve?
  {
    if level in accounts then
      var b := accounts[level].stored;
      DecideLevel(level, Some(b.allowance), b.used, b.reserved, e.estimate, e.approvalPercent, e.hardStopPercent)
    else DecideLevel(level, None, 0, 0, e.estimate, e.approvalPercent, e.hardStopPercent)
  }

  function Checks(accounts: map<Level, Account>, e: Event): (r: seq<LevelCheck>)
    requires e.Reserve?
  {
    var levels := LevelsOf(e.ctx);
    seq(|levels|, i requires 0 <= i < |levels| => CheckAt(accounts, levels[i], e))
  }

  function Locked(accounts: map<Level, Account>, ctx: Context): set<Level> {
    set level | level in LevelsOf(ctx) && level in accounts
  }

  /** The reservation row, one hold and one entry per locked wallet, and each wallet's new total. */
  function Take(s: State, r: Reservation): State {
    State(map level | level in s.accounts ::
            if level in r.holds then ReserveOn(s.accounts[level], r.estimate, |s.reservations|) else s.accounts[level],
          s.reservations + [r], s.resets)
  }

  function ReserveStep(s: State, e: Event): State
    requires e.Reserve?
  {
    var locked := s.(accounts := WithCompany(s.accounts));
    if CombineLevels(Checks(locked.accounts, e)).decision == HardStopped then locked
    else Take(locked, Reservation(Held, e.estimate, Locked(locked.accounts, e.ctx), e.at, 0))
  }

  predicate ReservationHasExpired(r: Reservation, now: int, expiryMinutes: int) {
    r.state == Held && now - r.heldAt >= expiryMinutes * 60_000
  }

  /** What a settlement, release or expiry makes of its reservation; nothing if it is refused. */
  function Closing(r: Reservation, e: Event): Option<Reservation> {
    match e
    case Settle(_, actual) => if actual >= 0 && r.state == Held then Some(r.(state := Settled, charged := actual)) else None
    case Release(_) => if r.state == Held then Some(r.(state := Released)) else None
    case Expire(_, now, minutes) => if ReservationHasExpired(r, now, minutes) then Some(r.(state := Expired)) else None
    case _ => None
  }

  /** What closing a reservation writes to a wallet that it holds. */
  function ClosedOn(acc: Account, closed: Reservation, id: nat): Account {
    if closed.state == Settled then SettleOn(acc, closed.estimate, closed.charged, id) else ReleaseOn(acc, closed.estimate, id)
  }

  function Close(s: State, id: nat, closed: Reservation): State
    requires id < |s.reservations|
  {
    State(map level | level in s.accounts ::
            if level in closed.holds then ClosedOn(s.accounts[level], closed, id) else s.accounts[level],
          s.reservations[id := closed], s.resets)
  }

  function CloseStep(s: State, id: nat, e: Event): State {
    if id >= |s.reservations| || Closing(s.reservations[id], e) == None then s
    else Close(s, id, Closing(s.reservations[id], e).value)
  }

  /** What an administrator's event makes of a wallet; nothing if it is refused. */
  function Moved(acc: Account, e: Event): Option<Account> {
    match e
    case MoveAllowance(_, kind, delta) =>
      if MayMoveAllowance(acc, kind, delta) then Some(MoveAllowanceOn(acc, kind, delta)) else None
    case SetAllowance(level, allowance) => Some(SetAllowanceOn(acc, level, allowance))
    case _ => None
  }

  /** The wallet is created if it is missing, in the same transaction. */
  function AllowanceStep(s: State, level: Level, e: Event): State {
    var acc := if level in s.accounts then s.accounts[level] else OPENED;
    match Moved(acc, e)
    case Some(after) => s.(accounts := s.accounts[level := after])
    case None => s
  }

  /** The wallet's boundary has moved: every reset of it that is under way will find that and roll back. */
  function EndResets(resets: seq<Reset>, level: Level): (r: seq<Reset>) {
    seq(|resets|, i requires 0 <= i < |resets| => if resets[i].level == level then resets[i].(open := false) else resets[i])
  }

  predicate MayCommit(s: State, i: nat) {
    i < |s.resets| && s.resets[i].open && s.resets[i].read.Some? && s.resets[i].level in s.accounts
  }

  function CommitStep(s: State, i: nat, grant: int, more: nat): State {
    if !MayCommit(s, i) then s
    else
      var r := s.resets[i];
      State(s.accounts[r.level := FinishReset(s.accounts[r.level], r.leftover, r.read.value, grant, more)],
            s.reservations, EndResets(s.resets, r.level))
  }

  function Step(s: State, e: Event): State {
    match e
    case Reserve(_, _, _, _, _) => ReserveStep(s, e)
    case Settle(id, _) => CloseStep(s, id, e)
    case Release(id) => CloseStep(s, id, e)
    case Expire(id, _, _) => CloseStep(s, id, e)
    case MoveAllowance(level, _, _) => AllowanceStep(s, level, e)
    case SetAllowance(level, allowance) =>
      if allowance < 0 || (level.scope != Company && level.subject == None) then s
      else AllowanceStep(s.(accounts := WithCompany(s.accounts), resets := EndResets(s.resets, level)), level, e)
    case BeginReset(level) =>
      if level in s.accounts then s.(resets := s.resets + [Reset(level, Remaining(s.accounts[level]), None, true)]) else s
    case ReadForReset(i) =>
      if i < |s.resets| && s.resets[i].read == None && s.resets[i].level in s.accounts
      then s.(resets := s.resets[i := s.resets[i].(read := Some(s.accounts[s.resets[i].level].stored.allowance))])
      else s
    case CommitReset(i, grant, more) => CommitStep(s, i, grant, more)
  }

  function Run(events: seq<Event>): State {
    if events == [] then START else Step(Run(events[..|events| - 1]), events[|events| - 1])
  }
}
