# UBoss domain rules: model and proofs

This project models the domain rules of UBoss that decide who may spend, who runs next, which step
may start, what a policy permits and when an allowance comes back, and proves properties of them.
The rules are in `packages/types/src`; where a rule only makes sense as a protocol (reservations,
resets, dependency release, admission) the model also follows the API service that applies it.

`dafny verify dfyconfig.toml` checks everything.

| file | what it holds |
|---|---|
| `BudgetProtocol.dfy`, `BudgetSafety.dfy` | the reservation protocol as a state machine, and what every run of it keeps |
| `BudgetCeiling.dfy`, `BudgetResets.dfy` | no overspend, and what resets grant and miss |
| `SpendCheck.dfy`, `LockOrder.dfy` | the pre-run check at up to five budget levels, and the order in which rows are locked |
| `Ledger.dfy` | ledger effects, replay and reconciliation |
| `UsageCost.dfy`, `Credits.dfy` | estimates against charges; pro-rating and reallocation |
| `FairQueue.dfy`, `FairBacklog.dfy` | the fair queue with its admission plan, and what a backlog does to other tenants |
| `TokenBucket.dfy`, `RateLimitStore.dfy` | the token bucket, and the in-process store that prunes idle buckets |
| `PlanGraph.dfy`, `PlanStages.dfy`, `TaskRelease.dfy` | depths of a plan, stages and validation, and the release of dependent work |
| `Precedence.dfy` | layered policy evaluation |
| `Calendar.dfy` | the UTC reset calendar, with the Date semantics of section 21.4 of ECMA-262 |
| `Percentile.dfy`, `AgentGroups.dfy`, `VersionDiff.dfy` | percentiles and verdicts, agent grouping, version comparison |
| `StableSort.dfy`, `Grouping.dfy`, `Options.dfy` | `Array.sort` as a stable sort, a Map filled in insertion order, optional values |

Conventions. Amounts are exact integers, rates and instants of the limiter exact reals, other
instants integer milliseconds. A loop of the source is a method proved against a specification
function, and the laws are lemmas about that function. A Map filled in a loop is a sequence of
groups in insertion order. `executionDepths`, `nextReset` and the rate limit store, which update an
object in place, are classes (`DepthSearch`, `UtcDate`, `InProcessRateLimitStore`).

What the proofs found out about the code, each with its exact condition:

- The estimate does not cover every charge: cached input that is dearer than both other rates is
  charged at its own rate. `UsageCost.EstimateCoversExactlyWhen` gives the exact condition.
- Rules "in any order" (`policy-precedence.ts:81`) is true only for the scope, for mandatory
  denials and between layers. `Precedence.OrderIsIrrelevantExactlyWhen` says when it is true.
- Of several mandatory denials the innermost is reported, not the outermost
  (`policy-precedence.ts:107-109`). The outermost is named if and only if they are all of one layer:
  `Precedence.DenialNamesInnermostSeal`, with a concrete pair in `Precedence.OuterSealGoesUnnamed`.
- A plan with one piece of work makes it an Executor, not an Engine, when it waits on a gate
  (`objective-analysis.ts:284-285`): `PlanStages.EngineExactlyWhenNothingIsWaitedOn`.
- Validation accepts a dependency cycle, whose depths then depend on the order of the nodes, and whose
  tasks never start. A plan is free of cycles if and only if its computed depths go down along every
  dependency: `PlanGraph.AcyclicExactlyWhenDepthsDescend`.
- A tenant's turn does depend on how a backlog is listed when its oldest job ties with another
  tenant's, because the Map then decides. `FairBacklog.BacklogDelaysNobodyExactlyWhen` says exactly
  when two listings agree, `FairBacklog.BacklogDecidesATie` gives jobs for which they do not.
- Pruning idle buckets (`rate-limit.store.ts:64-67`) preserves behaviour for every limit that the
  services pass, because their windows are all 60 seconds: `RateLimitStore.PruningByTheMinuteChangesNoDecision`.
  The store alone would not, for limits that nothing configures: it judges a bucket by the limit of the
  call that prunes. `RateLimitStore.PruningIsInvisibleExactlyWhen` gives the condition.
- A reset reads the wallet without a lock (`budget-reset.runner.ts:151-159`). An allowance movement that
  commits between its read and its write is lost, and a reservation that does ends above a ceiling of
  100 percent: `BudgetResets.DriftIsWhatResetsMissed`, `BudgetResets.ResetLeavesRoomExactlyWhen`.
- Catching up n periods does not grant "the three days that were owed" (`cost.ts:170-172`): each grant
  but the last lapses. `BudgetResets.CatchingUpGrantsOnce` gives what remains.
- A cancellation releases nothing, so it can leave a task waiting for ever behind work that counts as
  finished. `TaskRelease.CanFinishExactlyWhen` says when a plan can still be finished.
- A reset makes room for exactly its grant only with a hard stop of 100 percent, because `used` is never
  reset and the hard stop is a share of an allowance that contains it:
  `BudgetResets.RoomIsTheGrantExactlyWhen`.
- `Date.UTC` reads the years 0 to 99 as 1900 to 1999. For `nextReset` this shortens one month of
  all time, February of the year 0: `Calendar.LookupIsExactExactlyWhen`.
- A Cancelled task counts as finished for what depends on it (`work-release.service.ts:155`),
  although `assignments.ts:138-139` names only Completed. The model follows the service.
- Pro-rating between two equal allowances can lose one minor unit: `Credits.SamePlanLosesAUnitExactlyWhen`.
- Two versions with misplaced row numbers can differ and compare as identical:
  `VersionDiff.MisnumberedRowIsInvisible`. Every edit of a row shows if and only if the position check
  passes: `VersionDiff.EveryEditShowsExactlyWhen`.

## Model

| member | source | states |
|---|---|---|
| `BudgetSafety.EveryRunKeepsBooks` | packages/types/src/cost.ts:559-620 | under every interleaving of reserve, settle, release, expire, allowance changes and the separate reads and writes of resets, each wallet's reserved total is the sum of its held estimates, its used total the sum of its charges, both are the replay of its ledger, the stored allowance is the latest one recorded, and nothing is negative |
| `BudgetCeiling.NoOverspend` | packages/types/src/cost.ts:362-485 | under every interleaving, used + reserved is at most floor(allowance × hard stop / 100) plus the total by which settled reservations passed their estimates plus what a lowered ceiling has left stranded above itself and no raise has taken back |
| `BudgetCeiling.NoOverspendSinceAccepted` | apps/api/src/cost/cost-engine.service.ts:752-757 | from any reservation on that a wallet accepted, whatever was overspent before, only overruns and cuts since then can take it past its ceiling: the next call's hard stop catches the rest |
| `BudgetCeiling.NoOverspendWhenEstimatesCover` | packages/types/src/cost.ts:415-419 | with covering estimates, and lowered ceilings that still cover what is committed, the hard-stop ceiling itself is never passed |
| `BudgetResets.ResetsLeaveRoom` | apps/api/src/cost/budget-reset.runner.ts:158-185 | with a hard stop of 100 percent or more, resets that nothing comes between never put the ceiling below what is committed |
| `BudgetResets.ResetLeavesRoomExactlyWhen` | apps/api/src/cost/budget-reset.runner.ts:151-177 | a reset whose leftover was read earlier leaves room if and only if the ceiling of the rest of the allowance, which was committed at that read, still covers what is committed at the write (or is not lowered) |
| `BudgetResets.ReservationBetweenIsStranded` | apps/api/src/cost/budget-reset.runner.ts:151-177 | with a hard stop of 100 percent a reservation of any amount between the read of the leftover and its expiry ends above the ceiling |
| `BudgetSafety.ChargedAtMostOnce` | packages/types/src/cost.ts:513-523 | in every run each reservation's trail in each wallet is exactly one Reserve, one ReleaseReserve if closed and one Settle if settled, with the right amounts, and nothing in wallets it does not hold |
| `BudgetSafety.ClosedForGood` | packages/types/src/cost.ts:520-523 | whatever happens later, a reservation that left Held never changes again |
| `BudgetSafety.StepMovesAsPermitted` | packages/types/src/cost.ts:520-523 | every step of the protocol moves every reservation only as `mayMoveReservation` allows and never alters its estimate, holds or time |
| `BudgetSafety.ClosedOnlyByItsOwn` | apps/api/src/cost/cost-engine.service.ts:941-984 | a held reservation is closed exactly by its own settlement, release or due expiry, into the matching state and charge |
| `BudgetSafety.ClosingReturnsTheRest` | apps/api/src/cost/cost-engine.service.ts:758-862 | after any run, closing gives each held wallet back estimate minus charge of remaining and leaves every other wallet alone |
| `BudgetSafety.ReleaseUndoesReserve` | apps/api/src/cost/cost-engine.service.ts:872-927 | reserve followed by release restores every wallet's balance |
| `BudgetSafety.ReservationIsAllOrNothing` | apps/api/src/cost/cost-engine.service.ts:595-741 | a refused reservation changes no balance; a taken one sets its estimate aside at every existing level of its context and nowhere else |
| `BudgetSafety.TakenExactlyWhenEveryWalletHasRoom` | apps/api/src/cost/cost-engine.service.ts:632-649 | a reservation is taken if and only if every existing wallet on its way stays within its hard-stop ceiling |
| `BudgetSafety.ReservationRecords` | apps/api/src/cost/cost-engine.service.ts:662-676 | a taken reservation is held for the whole estimate from the moment it was taken |
| `BudgetSafety.ExpiresExactlyWhenDue` | apps/api/src/cost/cost-engine.service.ts:955-973 | a sweep expires it if and only if the given minutes have passed since that moment, and otherwise changes nothing |
| `BudgetSafety.NoCompanyWalletNoSpend` | apps/api/src/cost/cost-engine.service.ts:651-659 | a company without a wallet gets an empty one, which refuses every positive spend at every level |
| `BudgetSafety.OnlyHeldMoves` | packages/types/src/cost.ts:513-523 | a reservation may stay as it is or leave Held, and nothing else |
| `BudgetSafety.AllowanceMovesInOneWallet` | apps/api/src/cost/cost-engine.service.ts:231-347 | allowance movements touch no reservation and no other wallet |
| `BudgetSafety.AllowanceIsWhatMoves` | apps/api/src/cost/cost-engine.service.ts:231-347 | in the wallet itself used and reserved stay, and setting the allowance makes it what was asked for, also in a wallet that is created by it |
| `BudgetSafety.MovementAcceptedExactlyWhen` | apps/api/src/cost/cost-engine.service.ts:374-443 | top-ups and expiries are accepted for positive amounts, adjustments and reallocations either way, other kinds never, and none below an allowance of zero; what is accepted moves the allowance by that amount and leaves that one entry |
| `BudgetSafety.SettingLeavesItsEntry` | apps/api/src/cost/cost-engine.service.ts:296-327 | setting an allowance leaves one entry of the difference, an adjustment for the company and a reallocation below it, or none |
| `BudgetResets.NothingToReconcile` | apps/api/src/cost/cost-engine.service.ts:997-1042 | after any run in which no reset missed an allowance movement between its reads and its write, the stored balance of every wallet equals the replay of its entries |
| `BudgetResets.DriftIsWhatResetsMissed` | apps/api/src/cost/cost-engine.service.ts:1526-1541 | after any run used and reserved agree with the ledger, and the allowance differs from it by exactly the sum over resets of (allowance read − allowance found at the write), plus what the clamp at zero kept |
| `BudgetResets.TopUpBetweenIsLost` | apps/api/src/cost/cost-engine.service.ts:1529-1541 | a top-up between read and write is lost to the balance and stays in the ledger |
| `BudgetResets.ResetsSlipNothing` | apps/api/src/cost/cost-engine.service.ts:1533-1536 | resets that nothing comes between keep balance and ledger together: their clamp at zero never takes effect |
| `BudgetResets.UninterruptedReset` | apps/api/src/cost/budget-reset.runner.ts:141-200 | with nothing in between, the separate reads and writes amount to one reset per period |
| `BudgetResets.WholeResetGrantsOnce` | apps/api/src/cost/budget-reset.runner.ts:150-200 | whatever else is under way, begin, read and commit of a reset leave the lesser of one grant and remaining + periods × grant |
| `BudgetResets.WholeResetMovesOneAllowance` | apps/api/src/cost/budget-reset.runner.ts:144-200 | they move no reservation, no other wallet and nothing used or reserved, and committing again does nothing |
| `BudgetResets.BoundaryGuardsResets` | apps/api/src/cost/budget-reset.runner.ts:188-197 | once another reset or a new allowance has moved the boundary, a reset that was under way writes nothing |
| `BudgetResets.ResetLeavesItsEntries` | apps/api/src/cost/budget-reset.runner.ts:169-185 | a period appends an expiry of what was left, if anything was, and an adjustment of the grant |
| `BudgetResets.ResetRestoresTheGrant` | apps/api/src/cost/budget-reset.runner.ts:158-185 | after a reset exactly the grant is available, except that an overdraft is carried over; used and reserved stay |
| `BudgetResets.CatchingUpGrantsOnce` | apps/api/src/cost/budget-reset.runner.ts:35-39 | after any number n of caught-up periods the remaining is the lesser of one grant and remaining + n grants: catching up grants once, and only an overdraft takes in more |
| `BudgetResets.RoomAfterReset` | apps/api/src/cost/budget-reset.runner.ts:158-185 | with c committed, the room before the hard stop after a reset is floor((c + grant) × h / 100) − c |
| `BudgetResets.RoomDrifts` | packages/types/src/cost.ts:402-419 | every hundred units committed change that room by h − 100: below 100 percent it shrinks without end, above it grows |
| `BudgetResets.RoomIsTheGrantExactlyWhen` | packages/types/src/cost.ts:402-419 | the room after a reset is the grant, whatever was spent before, if and only if the hard stop is 100 percent |
| `SpendCheck.LevelsComeOutermostFirst` | packages/types/src/cost.ts:80-119 | for every context the levels are exactly the company and those given, in strictly increasing scope rank |
| `SpendCheck.RankIsThePlace` | packages/types/src/cost.ts:68-78 | ranks are the places in the order company, department, person, objective, agent |
| `SpendCheck.ScopesToCheck` | packages/types/src/cost.ts:89-119 | the pushes build exactly the level list that the ordering and lock lemmas are about |
| `SpendCheck.DecisionIsExact` | packages/types/src/cost.ts:362-445 | hard stop if and only if the exact committed ratio passes the hard stop, approval if and only if it reaches the threshold without that, despite both floors |
| `SpendCheck.CheckReports` | packages/types/src/cost.ts:386-413 | a level reports itself, allowance − used − reserved, and the exact percentage after the spend rounded down, 0 without an allowance |
| `SpendCheck.AbsentLevelAllows` | packages/types/src/cost.ts:357-384 | a level without a wallet allows every spend |
| `SpendCheck.StrictestOutermostBinds` | packages/types/src/cost.ts:447-485 | no level is stricter than the outcome, and the reported level is the outermost among the strictest, in whatever order the levels came |
| `LockOrder.ReservationsAreOrdered` | packages/types/src/cost.ts:83-87 | whichever wallets exist, a reservation wants its locks in strictly increasing rank |
| `LockOrder.HeldRowsBlock` | packages/types/src/cost.ts:83-87 | a transaction waits for another if and only if that one has taken the row it wants next |
| `LockOrder.NoDeadlock` | packages/types/src/cost.ts:83-87 | no number of transactions taking locks in that order, each at any point, can wait for one another in a circle |
| `LockOrder.SomeTransactionCanProceed` | packages/types/src/cost.ts:83-87 | among any open transactions one has all its locks or finds its next row free |
| `LockOrder.OppositeOrdersDeadlock` | packages/types/src/cost.ts:83-87 | without the common order two transactions over two rows do deadlock |
| `Ledger.SignedIsTheProduct` | packages/types/src/cost.ts:603-620 | for every kind the case split by sign is the product of effect and amount |
| `Ledger.KindsMove` | packages/types/src/cost.ts:589-601 | which total each kind moves and in which direction, kind by kind |
| `Ledger.ReplayAdds` | packages/types/src/cost.ts:629-639 | replaying a concatenation adds up the two replays |
| `Ledger.ReplayIgnoresOrder` | packages/types/src/cost.ts:629-639 | replay is the same for every order of the entries |
| `Ledger.SlipsAreTheDrift` | packages/types/src/cost.ts:650-656 | the latest recorded allowance differs from the replay by exactly the sum of what single entries recorded beyond what they move |
| `Ledger.ReconcileBalance` | packages/types/src/cost.ts:657-682 | the findings name each disagreeing field exactly once with its exact drift and no other; none if and only if the balances agree |
| `UsageCost.EstimateDominatesCharge` | packages/types/src/cost.ts:724-740 | a call within its token ceiling never costs more than its estimate when cached input is no dearer than the dearest rate |
| `UsageCost.EstimateCoversExactlyWhen` | packages/types/src/cost.ts:733-740 | the estimate covers every call within the ceiling if and only if cached input at the whole ceiling costs no more than the estimate |
| `UsageCost.EstimateIsTheDearerRoundedUp` | packages/types/src/cost.ts:733-740 | the estimate is at least the whole ceiling at either rate, and less than one minor unit above it at one of them |
| `UsageCost.DearCachedInputEscapesTheEstimate` | packages/types/src/providers.ts:343-352 | a concrete call that is charged above its estimate |
| `UsageCost.ChargeIsTheSumRoundedUp` | packages/types/src/providers.ts:343-352 | a charge is the products of each kind of token with its own rate, cached input at the input rate where it has none, summed and rounded up once |
| `UsageCost.ChargesAreNeverShort` | packages/types/src/providers.ts:325-353 | any run of n calls bills at least its exact cost and less than n minor units more |
| `Credits.ProRatedBetween` | packages/types/src/credits.ts:473-522 | pro-rating stays between the two allowances, at most one unit short; the new one exactly at the start, the old one exactly from the end on |
| `Credits.OtherPoliciesAreWhole` | packages/types/src/credits.ts:481-506 | from the next cycle nothing changes now; in full, or over a period without length, the new allowance applies at once |
| `Credits.SamePlanLosesAUnitExactlyWhen` | packages/types/src/credits.ts:508-516 | between equal allowances one unit is lost if and only if the elapsed share is not whole |
| `Credits.OneMoveConserves` | packages/types/src/credits.ts:552-574 | a move keeps the total allowance, leaves used and reserved alone and its source with non-negative remaining |
| `Credits.MoveIsExact` | packages/types/src/credits.ts:552-574 | a move is made if and only if its amount is positive, its ends differ and the source has it uncommitted; then exactly the two allowances change, by that amount |
| `Credits.ReallocationConserves` | packages/types/src/credits.ts:544-574 | any sequence of moves keeps the total allowance and takes no budget past its allowance |
| `FairQueue.FairSequencePermutes` | packages/types/src/rate-limits.ts:222-267 | the fair order is a permutation of the pending set |
| `FairQueue.OwnOrderIsOldestFirst` | packages/types/src/rate-limits.ts:214-220 | within the result each tenant sees all its own jobs in stable oldest-first order |
| `FairQueue.SlotOfJob` | packages/types/src/rate-limits.ts:246-264 | tenant t's k-th job stands at sum over tenants of min(jobs, k) plus the number of earlier tenants with more than k jobs |
| `FairQueue.WaitIsBoundedByTenants` | packages/types/src/rate-limits.ts:209-212 | that position is below (k + 1) × tenants, whatever the backlogs |
| `FairBacklog.BacklogDelaysNobody` | packages/types/src/rate-limits.ts:203-212 | when no two tenants' oldest jobs tie, any two pending sets with the same n oldest jobs per tenant have the same first n passes at the front of both fair orders, whatever else is queued and however it is listed |
| `FairBacklog.BacklogDelaysNobodyExactlyWhen` | packages/types/src/rate-limits.ts:239-244 | with ties, for any two pending sets with the same n oldest jobs per tenant: the first n passes are the same if and only if tied tenants are first seen in the same relative order |
| `FairBacklog.BacklogDecidesATie` | packages/types/src/rate-limits.ts:239-244 | concrete jobs where a later job listed first takes the first turn from a tenant that tied |
| `FairBacklog.SlotIgnoresBacklog` | packages/types/src/rate-limits.ts:207-212 | with tied tenants first seen alike, a tenant's k-th job keeps its slot whatever anybody has queued past the (k + 1)-th |
| `FairQueue.HeadIsOldestOfAll` | packages/types/src/rate-limits.ts:239-244 | the first job of the fair order is an oldest of all pending |
| `FairQueue.HeadsComeOldestFirst` | packages/types/src/rate-limits.ts:201-205 | the guarantee is per call: taking only the head, over and over, serves a permutation that is oldest first across tenants |
| `FairQueue.PassIsNotEmpty` | packages/types/src/rate-limits.ts:260-262 | while anything is unplaced the next pass places something |
| `FairQueue.TakePasses` | packages/types/src/rate-limits.ts:246-266 | the loop yields exactly the passes; its emergency exit is unreachable |
| `FairQueue.GroupByTenant` | packages/types/src/rate-limits.ts:223-232 | filling the Map yields the groups of the pending set in first-seen order |
| `FairQueue.SortEachTenant` | packages/types/src/rate-limits.ts:234-237 | sorting each array in place touches the order inside each tenant only |
| `FairQueue.FairOrder` | packages/types/src/rate-limits.ts:222-267 | the whole algorithm computes the sequence that the theorems are about |
| `FairQueue.DispatchTakesTheFront` | apps/api/src/rate-limits/run-fairness.service.ts:140-151 | each tenant gets exactly the front of its own line, as long as its free slots, and the rest is deferred in order |
| `FairQueue.DispatchFillsTheLimit` | packages/types/src/rate-limits.ts:269-278 | with what was in flight, nobody is dispatched past the limit and nobody is deferred short of it; every job is one or the other |
| `FairQueue.AdmissionPlan` | apps/api/src/rate-limits/run-fairness.service.ts:105-154 | the running count of the loop admits exactly those jobs |
| `TokenBucket.RateBound` | packages/types/src/rate-limits.ts:141-181 | with a non-decreasing clock the calls allowed within any interval, wherever it starts, number at most burst + rate × length |
| `TokenBucket.CallsArePaidFor` | packages/types/src/rate-limits.ts:154-181 | allowed calls plus tokens left never exceed a full bucket plus what was earned |
| `TokenBucket.ForwardMovementPays` | packages/types/src/rate-limits.ts:154-181 | for every clock, forward or back, allowed calls plus tokens left are at most the tokens at the start plus the rate times the total forward movement |
| `TokenBucket.StaysInRange` | packages/types/src/rate-limits.ts:154-181 | whatever the clock says, tokens stay within the bucket |
| `TokenBucket.RunSplits` | packages/types/src/rate-limits.ts:154-181 | a run can be cut anywhere and continued from the bucket reached |
| `TokenBucket.ClockGoingBackBreaksTheBound` | packages/types/src/rate-limits.ts:158-160 | a clock that jumps back and forth within one second lets any number of calls through |
| `TokenBucket.RefusedPollsOnlyRefill` | packages/types/src/rate-limits.ts:158-175 | refilling in pieces over refused polls equals refilling at once |
| `TokenBucket.AllowedExactlyWhenReady` | packages/types/src/rate-limits.ts:163-175 | after a refusal some later call is allowed if and only if the clock reached the instant at which a whole token exists |
| `TokenBucket.RetryAfterIsHonest` | packages/types/src/rate-limits.ts:150-175 | with any polls in between, a call that many seconds later is allowed, and none earlier than a second before |
| `TokenBucket.StoredBucketIsNeverFull` | packages/types/src/rate-limits.ts:154-187 | after any calls a stored bucket is short of full by its own limit |
| `TokenBucket.DecisionReports` | packages/types/src/rate-limits.ts:163-180 | a refusal names its own limit and scope, an allowance the whole tokens that are left |
| `TokenBucket.FreshBucketServesItsBurst` | packages/types/src/rate-limits.ts:183-187 | of any number of calls at one moment a fresh bucket allows exactly its burst |
| `RateLimitStore.InProcessRateLimitStore.Consume` | apps/api/src/rate-limits/rate-limit.store.ts:79-86 | the Map and the counter, updated in place, go through the specified step of the store |
| `RateLimitStore.InProcessRateLimitStore.MaybePrune` | apps/api/src/rate-limits/rate-limit.store.ts:98-109 | every 2,000th call the loop drops exactly the buckets that are stale by the limit of that call |
| `RateLimitStore.EveryTwoThousandthCallPrunes` | apps/api/src/rate-limits/rate-limit.store.ts:98-101 | after any calls the counter is their number modulo 2,000 |
| `RateLimitStore.PruningLeavesNothingStale` | apps/api/src/rate-limits/rate-limit.store.ts:103-108 | a call keeps each other bucket as it is, unless it is a 2,000th call and the bucket holds its burst and was idle for more than two of its windows |
| `RateLimitStore.DropIsInvisibleExactlyWhen` | apps/api/src/rate-limits/rate-limit.store.ts:64-67 | dropping a bucket changes neither decision nor state of its next call if and only if the bucket's own refill would have reached its own burst by then |
| `RateLimitStore.PruningIsInvisibleExactlyWhen` | apps/api/src/rate-limits/rate-limit.store.ts:98-107 | between a bucket's limit and a pruning call's limit, over all real instants, no drop ever shows if and only if the pruner's burst plus what the bucket earns in two of the pruner's windows reaches the bucket's burst; on a clock of whole milliseconds a shortage of less than one millisecond's earnings does not show either |
| `RateLimitStore.SimilarWindowsAreHarmless` | apps/api/src/rate-limits/rate-limit.store.ts:103-107 | for limits with burst ≤ limit that holds whenever the bucket's window is at most twice the pruner's |
| `RateLimitStore.LongWindowIsForgotten` | apps/api/src/rate-limits/rate-limit.store.ts:98-107 | limits that fail that condition, as the store would accept but no service passes: a bucket with a longer window is dropped too soon and a call is told of a token it does not have |
| `RateLimitStore.PruningChangesNoDecision` | apps/api/src/rate-limits/rate-limit.store.ts:79-109 | under limits that all satisfy that condition and a non-decreasing clock, every call of every run over any keys is decided as by a store that never drops anything |
| `RateLimitStore.PruningByTheMinuteChangesNoDecision` | apps/api/src/rate-limits/rate-limit.store.ts:64-67 | with limits of a 60-second window and 1 ≤ burst ≤ limit, which may change from call to call, pruning preserves behaviour: every call of every run is decided as by a store that never drops anything |
| `RateLimitStore.ResolveLimit` | apps/api/src/rate-limits/rate-limit.service.ts:238-278 | whatever is configured, the limit in force is such a limit: the configured one if it is usable and the default otherwise |
| `RateLimitStore.ProviderLimit` | apps/api/src/rate-limits/provider-throttle.service.ts:96-106 | every provider quota gives such a limit |
| `RateLimitStore.DefaultsAreByTheMinute` | packages/types/src/rate-limits.ts:73-89 | so do the defaults for users and tenants |
| `TokenBucket.LimitProblems` | packages/types/src/rate-limits.ts:103-125 | no problems if and only if 1 ≤ burst ≤ limit ≤ the maximum and a window where one is needed |
| `PlanGraph.EveryNodeHasABoundedDepth` | packages/types/src/objective-analysis.ts:323-350 | on every graph, cyclic or not, the search ends and gives exactly the present nodes depths from 0 to their number |
| `PlanGraph.DepthZeroExactlyWhenFree` | packages/types/src/objective-analysis.ts:338-345 | on every graph, cyclic or not, depth 0 means that nothing present is waited on |
| `PlanGraph.AcyclicExactlyWhenDepthsDescend` | packages/types/src/objective-analysis.ts:333-346 | a plan is acyclic if and only if the depths that the search computes go down along each single dependency |
| `PlanGraph.DepthIsTheLongestChain` | packages/types/src/objective-analysis.ts:281-284 | on an acyclic plan the memoised depth is the length of the longest dependency chain |
| `PlanGraph.DepthIgnoresListing` | packages/types/src/objective-analysis.ts:323-350 | on an acyclic plan with distinct ids no reordering of the nodes changes a depth |
| `PlanGraph.GraphIgnoresListing` | packages/types/src/objective-analysis.ts:326-338 | with distinct ids every reordering of the nodes yields the same graph |
| `PlanGraph.OwnDependencies` | packages/types/src/objective-analysis.ts:326-327 | of the nodes that share an id, the dependencies of the last one listed stand in the map |
| `PlanGraph.SortedByDepthIsTopological` | packages/types/src/objective-analysis.ts:317-321 | sorted by depth, every node comes after all it waits on, directly or not |
| `PlanGraph.AcyclicGraphHasLevels` | packages/types/src/objective-analysis.ts:323-350 | every acyclic graph has a longest-chain length for each node |
| `PlanGraph.DepthSearch.DepthOf` | packages/types/src/objective-analysis.ts:330-346 | the recursion that fills the memo in place returns the specified depth and leaves the specified memo |
| `PlanGraph.DepthSearch.Run` | packages/types/src/objective-analysis.ts:326-349 | the search from every node, in order, yields the specified depths |
| `PlanStages.ExecutionStages` | packages/types/src/objective-analysis.ts:298-312 | exactly the human and AI steps get a stage, each by its depth and the deepest work |
| `PlanStages.WorkIsHumanOrAi` | packages/types/src/objective-analysis.ts:303-303 | staged are exactly the ids of human and AI nodes |
| `PlanStages.ExecutorIsWaitedOnByNoWork` | packages/types/src/objective-analysis.ts:276-292 | in an acyclic plan no other work waits on an Executor, directly or through gates |
| `PlanStages.ExecutorExactlyWhenDeepest` | packages/types/src/objective-analysis.ts:303-311 | on every plan work that waits on something is an Executor if and only if no work is deeper, and a SubEngine otherwise |
| `PlanStages.EngineExactlyWhenNothingIsWaitedOn` | packages/types/src/objective-analysis.ts:281-285 | on every plan, cyclic or not, work is an Engine if and only if it waits on nothing present; alone behind a gate it is an Executor |
| `PlanStages.DependencyProblems` | packages/types/src/objective-analysis.ts:439-484 | no problems if and only if ids are distinct and every dependency is another present node |
| `PlanStages.ValidatedPlanMayCycle` | packages/types/src/objective-analysis.ts:439-484 | two steps that wait on each other pass these checks |
| `PlanStages.CyclicDepthsDependOnListing` | packages/types/src/objective-analysis.ts:333-335 | on such a cycle the depths swap with the order of listing |
| `TaskRelease.NothingStartsEarly` | packages/types/src/assignments.ts:100-151 | in every run a task that is neither Waiting nor Cancelled has all its planned dependencies finished |
| `TaskRelease.HowAStatusIsReached` | packages/types/src/assignments.ts:100-117 | from which statuses each status can be reached by a person: Completed from Submitted only, Waiting and Assigned from none, Cancelled from all that are not final |
| `TaskRelease.TasksMoveByNameOrRelease` | packages/types/src/assignments.ts:123-133 | every change of a status is a permitted move by name, or a release from Waiting to Assigned in an event that finishes something, with all planned dependencies finished |
| `TaskRelease.PermittedMovesAreMade` | packages/types/src/assignments.ts:119-121 | whatever move the table permits a person is made |
| `TaskRelease.WhatGetsDone` | apps/api/src/tasks/work-release.service.ts:150-173 | an item is done if and only if it was, or an agent step's run completed, or an open approval was given |
| `TaskRelease.WhatGetsWithdrawn` | apps/api/src/tasks/work-release.service.ts:157-173 | an item is withdrawn if and only if it was, or an agent step or an approval not yet given is cancelled |
| `TaskRelease.HowTasksStart` | apps/api/src/objectives/assignment.service.ts:400-408 | a task starts Assigned if it depends on nothing planned and Waiting otherwise |
| `TaskRelease.AcyclicPlansComplete` | packages/types/src/assignments.ts:135-151 | in an acyclic plan every run in which nothing is cancelled can be continued until every task is completed and every other item done |
| `TaskRelease.EveryRunCanFinish` | apps/api/src/tasks/work-release.service.ts:150-180 | wherever nothing waits behind finished work, all unfinished work of an acyclic plan can still be finished, shallowest first, without cancelling |
| `TaskRelease.NothingWaitsBehindFinishedWork` | apps/api/src/tasks/work-release.service.ts:73-77 | in every run in which nothing is cancelled, no task waits whose planned dependencies have all finished |
| `TaskRelease.WaitingHasACause` | packages/types/src/assignments.ts:135-151 | in every run without cancellations a waiting task has a planned dependency that is not completed, or not done |
| `TaskRelease.ReleaseRepairs` | apps/api/src/tasks/work-release.service.ts:37-43 | any single completion repairs the whole plan: after its release nothing waits behind finished work, whatever was missed before |
| `TaskRelease.CanFinishExactlyWhen` | packages/types/src/assignments.ts:123-133 | with cancellations, an acyclic plan can still be finished if and only if nothing is unfinished, or something unfinished is not a waiting task, or there is an agent step that can be run again |
| `TaskRelease.CancellingStrandsTheNext` | packages/types/src/assignments.ts:123-133 | a concrete plan of two tasks: cancelling the first leaves the second waiting for ever, ready as it is |
| `TaskRelease.OverlapMissesExactly` | apps/api/src/tasks/work-release.service.ts:73-80 | two completions in overlapping transactions, each seeing only its own, leave something waiting behind finished work if and only if some waiting task needed both |
| `TaskRelease.CyclesNeverStart` | packages/types/src/assignments.ts:123-133 | tasks on a dependency cycle all stay Waiting in every run, until one of them is cancelled |
| `TaskRelease.RoundsAreLevels` | packages/types/src/assignments.ts:143-151 | after k rounds of finishing all that is releasable exactly the items with chains shorter than k have finished |
| `TaskRelease.RoundsAreExecutionDepths` | packages/types/src/objective-analysis.ts:323-350 | with every node planned, round d releases exactly the nodes of `executionDepths` d |
| `TaskRelease.RoundsAreReached` | apps/api/src/tasks/work-release.service.ts:150-207 | for every k some run of the machine, cancelling nothing, has finished exactly the items of the first k rounds with nothing waiting behind them |
| `TaskRelease.ReleaseFollowsDepth` | apps/api/src/tasks/work-release.service.ts:175-182 | whenever exactly k rounds have finished and nothing waits behind finished work, the tasks that wait are, cancelled ones aside, exactly those deeper than k |
| `Precedence.AllowedExactlyWhen` | packages/types/src/policy-precedence.ts:111-290 | allowed if and only if no ceiling forbids, the module is visible, the action granted, no applicable rule is a mandatory denial and the latest rule of the innermost applicable layer is not a denial |
| `Precedence.DecisionNamesTheFirstFailure` | packages/types/src/policy-precedence.ts:114-183 | the decision names the first of user type, module, action and policy that refuses; before the policy the scope is the assigned one |
| `Precedence.StandingDenialIsNamed` | packages/types/src/policy-precedence.ts:264-278 | without a mandatory denial the refusal names reason and layer of the latest rule of the innermost applicable layer |
| `Precedence.ForeignRuleChangesNothing` | packages/types/src/policy-precedence.ts:97-102 | a rule for another module or another action, inserted anywhere, changes neither result nor scope |
| `Precedence.OwnMandatoryDenialRefuses` | packages/types/src/policy-precedence.ts:97-102 | a mandatory denial for this module or any, and this action or any, refuses wherever it stands |
| `Precedence.OwnCeilingBounds` | packages/types/src/policy-precedence.ts:307-311 | a ceiling for this module or any, and this action or any, bounds the effective scope |
| `Precedence.InnerLayerDecides` | packages/types/src/authorization.ts:394-401 | of two applicable rules the one of the inner layer decides, for every two of the five layers and in either order |
| `Precedence.CeilingNarrowsByPlace` | packages/types/src/authorization.ts:135-152 | a ceiling narrows a scope if and only if it comes earlier among the six scopes |
| `Precedence.WhatAUserTypeMayDo` | packages/types/src/authorization.ts:42-71 | what each user type may do when everything is granted and no rule applies |
| `Precedence.EvaluatePrecedence` | packages/types/src/policy-precedence.ts:185-290 | the loop with sealed and standing denials computes the specified result |
| `Precedence.LayersMayBeListedInAnyOrder` | packages/types/src/policy-precedence.ts:185-188 | the whole result is the same for every reordering that keeps rules of one layer in relative order |
| `Precedence.OrderIsIrrelevantExactlyWhen` | packages/types/src/policy-precedence.ts:81-82 | past the role checks the answer is the same for every order if and only if a mandatory denial applies or the innermost applicable layer is unanimous |
| `Precedence.DenialsOnlyTighten` | packages/types/src/policy-precedence.ts:218-236 | a denial inserted anywhere never turns a refusal into a permission |
| `Precedence.RulesNeverWiden` | packages/types/src/policy-precedence.ts:197-216 | no rule inserted anywhere ever widens the scope |
| `Precedence.SealsCannotBeLifted` | packages/types/src/policy-precedence.ts:238-246 | with an applicable mandatory denial no other rules and no order permit |
| `Precedence.DenialNamesInnermostSeal` | packages/types/src/policy-precedence.ts:218-220 | what is reported is reason and layer of an applicable mandatory denial, an innermost one; it is also an outermost one if and only if all applicable mandatory denials are of one layer |
| `Precedence.OuterSealGoesUnnamed` | packages/types/src/policy-precedence.ts:107-109 | a concrete pair of denials, by platform and department, of which the department is named |
| `Precedence.EffectiveScopeFor` | packages/types/src/policy-precedence.ts:299-314 | the loop returns the minimum of the assigned scope and all applicable ceilings |
| `Precedence.NarrowestIsTheMinimum` | packages/types/src/authorization.ts:144-152 | narrowing one ceiling at a time reaches the minimum and a scope that was really given |
| `Precedence.EvaluatedScopeIsEffectiveScope` | packages/types/src/policy-precedence.ts:190-216 | past the role checks the loop's scope is that same minimum, whatever the rule order |
| `Precedence.MatrixAgreesWithEnforcement` | packages/types/src/policy-precedence.ts:316-328 | the permission matrix contains an action if and only if evaluation permits it |
| `Precedence.MatrixFollowsTheActions` | packages/types/src/policy-precedence.ts:327-327 | the matrix keeps the order of the actions asked for |
| `Calendar.MonthlySchedule` | packages/types/src/cost.ts:187-195 | k monthly resets land exactly k calendar months on, at the same time of day, on the starting day clamped by every month on the way |
| `Calendar.MonthlyDayNeverClimbsBack` | packages/types/src/cost.ts:185-195 | along a monthly schedule the day never increases and never drops below min(start day, 28) |
| `Calendar.MonthlyGap` | packages/types/src/cost.ts:187-195 | every monthly gap is 28 to 31 whole days |
| `Calendar.FixedSchedule` | packages/types/src/cost.ts:183-184 | k daily or weekly resets are exactly k or 7k days on |
| `Calendar.ScheduleIncreases` | packages/types/src/cost.ts:159-173 | every cadence strictly increases, so catching up ends |
| `Calendar.LookupIsExactExactlyWhen` | packages/types/src/cost.ts:191-193 | the looked-up length is right if and only if the month is not February of the year 0, and never too long |
| `Calendar.NextReset` | packages/types/src/cost.ts:179-197 | null if and only if there is no cadence; otherwise a new date at the specified boundary, the argument left alone |
| `Calendar.NextMonthlyReset` | packages/types/src/cost.ts:185-195 | a monthly reset keeps the time and the day, or takes the last day of a next month that lacks it, in every month but January of the year 0 |
| `Calendar.AdvanceOneMonth` | packages/types/src/cost.ts:187-195 | to the first, on a month and back to the day, in place, amounts to one clamped calendar month |
| `Calendar.SettingTheDay` | packages/types/src/cost.ts:183-184 | setting a day moves the instant by whole days; a day past the month's end reads back in the next month |
| `Calendar.SettingTheMonth` | packages/types/src/cost.ts:185-190 | setting a month keeps day and time if the month has the day, and otherwise reads back in the month after, as 31 January does in March |
| `Calendar.TimeHasFields` | packages/types/src/cost.ts:188-188 | every instant has proper month, day and time, which determine it |
| `Calendar.FieldsAreReadBack` | packages/types/src/cost.ts:188-195 | proper fields are read back unchanged |
| `Calendar.CountingAgreesWithFormula` | packages/types/src/cost.ts:191-193 | counting month lengths agrees with the closed DayFromYear formula of ECMA-262 for every year |
| `Calendar.EveryMonthStartsRight` | packages/types/src/cost.ts:187-195 | every month of every year starts at the day that section 21.4.1 of ECMA-262 gives: the days to its year, before it, and the leap day |
| `Calendar.CatchUp` | apps/api/src/cost/budget-reset.runner.ts:147-200 | the loop grants each boundary that is due once, in order, and stops early only when no boundary at all is due |
| `Calendar.LaterBoundariesAreAhead` | packages/types/src/cost.ts:168-173 | once one boundary is ahead all later ones are |
| `Percentile.PercentileIsObserved` | packages/types/src/scale-validation.ts:113-121 | a percentile is one of the samples; none if and only if there are no samples |
| `Percentile.PercentileIsNearestRank` | packages/types/src/scale-validation.ts:127-131 | at least p percent of the samples do not exceed it and less than p percent lie below it |
| `Percentile.PercentileAtTheEnds` | packages/types/src/scale-validation.ts:124-125 | at 0 and below it is the least sample, at 100 and above the greatest |
| `Percentile.PercentileIgnoresOrder` | packages/types/src/scale-validation.ts:122-132 | the same for every order of the samples |
| `Percentile.PercentileGrows` | packages/types/src/scale-validation.ts:122-132 | monotone in p over all p |
| `Percentile.Summarise` | packages/types/src/scale-validation.ts:168-202 | Pass if and only if measured, without errors, and at least 95 in 100 samples within budget |
| `Percentile.BudgetIsTheFirstListed` | packages/types/src/scale-validation.ts:172-173 | the budget is that of the first entry for the scenario, and 0 without one |
| `Percentile.ErrorRateIsTheShare` | packages/types/src/scale-validation.ts:174-181 | the error rate times all runs is the number of errors, also without any run |
| `AgentGroups.KeyIsInjective` | packages/types/src/job-method.ts:629-632 | keys tell boundaries apart even when a tool contains the separator |
| `AgentGroups.GroupsAreTheBoundaries` | packages/types/src/job-method.ts:626-656 | one group for each boundary that occurs, steps ascending, groups ordered by first step |
| `AgentGroups.GroupsPartitionTheSteps` | packages/types/src/job-method.ts:623-658 | the steps of the groups are exactly the steps of the rows, each as often |
| `AgentGroups.RowsShareAGroupExactlyWhen` | packages/types/src/job-method.ts:626-632 | two rows share a group if and only if their trimmed, lower-cased tools agree, both or neither need approval by their cells, and both or neither state a prohibition |
| `AgentGroups.SuggestionIgnoresRowOrder` | packages/types/src/job-method.ts:655-656 | with distinct steps the result is the same for every order of the rows |
| `AgentGroups.SuggestAgentGroups` | packages/types/src/job-method.ts:623-658 | the loop, the sorts in place and the last sort compute the groups that the theorems are about |
| `VersionDiff.DiffIsComplete` | packages/types/src/objectives.ts:1079-1148 | for well numbered versions identical holds if and only if every field and every cell of every row displays the same and the row counts match |
| `VersionDiff.IdenticalExactlyWhen` | packages/types/src/objectives.ts:1113-1148 | for any versions: exactly what identical sees, and so what it misses |
| `VersionDiff.MisnumberedRowIsInvisible` | packages/types/src/objectives.ts:1114-1121 | a row numbered past the end of its list can differ without a trace |
| `VersionDiff.EveryEditShowsExactlyWhen` | packages/types/src/objectives.ts:1110-1148 | every change to the cells of any one row is reported if and only if the position check passes |
| `VersionDiff.Form2EditsShowExactlyWhen` | packages/types/src/objectives.ts:523-625 | the same for the columns of Form 2 |
| `VersionDiff.DiffIgnoresArrayOrder` | packages/types/src/objectives.ts:1085-1089 | for well numbered versions the order of the step arrays changes nothing |
| `VersionDiff.DiffMirrors` | packages/types/src/objectives.ts:1090-1159 | swapping the arguments swaps added with removed and before with after, and nothing else |
| `VersionDiff.DiffObjectiveVersions` | packages/types/src/objectives.ts:1090-1159 | the loops with their early continues compute the comparison that the theorems are about |
| `VersionDiff.ChangesAreExact` | packages/types/src/objectives.ts:1096-1108 | a change is reported for a key if and only if it displays differently, with what it displayed before and after |
| `VersionDiff.ChangesFollowTheKeys` | packages/types/src/objectives.ts:1096-1108 | changes come in the order of the keys |
| `VersionDiff.StepChangesAreExact` | packages/types/src/objectives.ts:1111-1146 | up to the longer list a row is Added if and only if only the later version has it, Removed if and only if only the earlier has it, Changed with exactly its changed cells if both have it |
| `VersionDiff.StepChangesClimb` | packages/types/src/objectives.ts:1113-1146 | rows are reported in ascending order of position, each once |
| `VersionDiff.DisplayTellsApart` | packages/types/src/objectives.ts:1072-1076 | a value displays as nothing if and only if it is absent, null or the empty text, as itself if it is a text, and as a text that reads back as the number if it is one |
| `VersionDiff.PositionProblems` | packages/types/src/objectives.ts:864-873 | no position problems if and only if the positions are a permutation of 1 to n |
| `StableSort.SortIsStable` | packages/types/src/rate-limits.ts:219-220 | `Array.sort` with a key comparison: a permutation, ascending, with ties in input order |
| `StableSort.StableOrderIsUnique` | packages/types/src/rate-limits.ts:219-220 | those three facts determine the result |

## Left out

- Wording: labels, reasons, refusal texts and trace lines are enumerations or absent.
- FairQueue.SortEachTenant: the arrays held in the Map are sequences that the loops replace, here and in the agent groups, so aliasing between them is not captured.
- Storage and I/O: Prisma, the network, notifications, audit events and clocks; instants are parameters.
- Floating point: shares, percentages, rates and tokens are exact, so rounding in binary is not modelled.
- The range limit of a Date (±8.64e15 ms) and invalid dates: time values are unbounded integers.
- Recording order inside one transaction: reserving, settling, releasing, expiring and moving an allowance are one step each, because these transactions lock their wallets' rows before they read them; a reset is three steps, because only its first write locks the row.
- The company's own monthly period with its carry-forward policy: a different runner; only wallets with a reset cadence are modelled.
- BudgetSafety.EveryRunKeepsBooks: estimates are non-negative, as `estimateMinor` yields them for non-negative rates, and all wallets of a company share one currency.
- LockOrder.NoDeadlock: covers reservations; settlement and release lock their holds in the order in which the database returns them.
- Credits.ReallocationConserves: a move is one validated pair, while the service takes its snapshot and writes the two movements in three transactions; single movements between other steps are covered by the budget protocol.
- TaskRelease.NothingStartsEarly: says finished (Completed or Cancelled), as the service counts it; agent steps and approvals may finish at any moment.
- TaskRelease.NothingWaitsBehindFinishedWork: a completion with its release is one step, though the service locks nothing for it; TaskRelease.OverlapMissesExactly says what two overlapping completions of tasks miss.
- TokenBucket.RateBound: covers limits with a window; a Runs limit has a window of 0 and is a ceiling on work in flight.
- VersionDiff.PositionProblems: only the position checks of the validator; positions are whole numbers or absent.
- PlanStages.DependencyProblems: only the node-id and dependency checks; schema version, shapes, labels, goals and edges are left out.
- AgentGroups.SuggestAgentGroups: trimming and lower-casing are arbitrary functions; the explanation text is left out.
- Sell-price markup of estimates and provider routing: multiplications and filters around the modelled sums.
- Threshold crossing, projected exhaustion, overdraft blocking and credit requests: single-branch decisions.
- RateLimitStore.ResolveLimit: only whole numbers; reading the setting and caching it for a minute are left out.
- The Redis store of the rate limiter: its script is in another language, and the in-process store is the one modelled.
- Settings catalogues, role templates, knowledge, memory, feedback and exit rules: tables and single-branch decisions that would only add easy members.
