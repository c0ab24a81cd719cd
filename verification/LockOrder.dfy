/**
  Why concurrent reservations cannot deadlock (packages/types/src/cost.ts, `scopesToCheck`): every
  transaction locks its wallet rows in the order of the levels, so locks are taken outermost first.
 */
module LockOrder {
  import opened SpendCheck

  /** A transaction that has locked the first `taken` of the rows that it wants, in order. */
  datatype Transaction = Transaction(wanted: seq<Level>, taken: nat)

  ghost predicate Ordered(t: Transaction) { t.taken <= |t.wanted| && RanksIncrease(t.wanted) }

  predicate IsWaiting(t: Transaction) { t.taken < |t.wanted| }

  /** t cannot take its next row while u holds it. */
  predicate WaitsFor(t: Transaction, u: Transaction) {
    IsWaiting(t) && u.taken <= |u.wanted| && t.wanted[t.taken] in u.wanted[..u.taken]
  }

  function NextRank(t: Transaction): nat
    requires IsWaiting(t)
  {
    Rank(t.wanted[t.taken].scope)
  }

  /** A reservation wants the levels of its context, as far as their wallets exist. */
  function ReservationOf(ctx: Context, present: set<Level>): Transaction {
    Transaction(Existing(LevelsOf(ctx), present), 0)
  }

  function Existing(levels: seq<Level>, present: set<Level>): (r: seq<Level>)
    ensures forall level :: level in r <==> level in levels && level in present
  {
    if levels == [] then []
    else if levels[0] in present then [levels[0]] + Existing(levels[1..], present)
    else Existing(levels[1..], present)
  }

  lemma {:induction false} ExistingKeepsOrder(levels: seq<Level>, present: set<Level>)
    requires RanksIncrease(levels)
    ensures RanksIncrease(Existing(levels, present))
  {
    if levels != [] {
      ExistingKeepsOrder(levels[1..], present);
      var rest := Existing(levels[1..], present);
      forall j | 0 <= j < |rest| ensures Rank(levels[0].scope) < Rank(rest[j].scope) {
        assert rest[j] in levels[1..];
      }
    }
  }

  /** Every reservation, however far it has got, takes its locks in order. */
  lemma {:induction false} ReservationsAreOrdered(ctx: Context, present: set<Level>, taken: nat)
    requires taken <= |ReservationOf(ctx, present).wanted|
    ensures ReservationOf(ctx, present).taken == 0
    ensures Ordered(ReservationOf(ctx, present).(taken := taken))
    ensures forall level :: level in ReservationOf(ctx, present).wanted <==> level in LevelsOf(ctx) && level in present
  {
    LevelsComeOutermostFirst(ctx);
    ExistingKeepsOrder(LevelsOf(ctx), present);
  }

  /** A transaction waits for whoever has taken the row that it wants next, finished with taking or not. */
  lemma {:induction false} HeldRowsBlock(t: Transaction, u: Transaction)
    requires t.taken < |t.wanted| && u.taken <= |u.wanted|
    ensures WaitsFor(t, u) <==> exists m :: 0 <= m < u.taken && u.wanted[m] == t.wanted[t.taken]
  {
    forall m | 0 <= m < u.taken ensures u.wanted[m] in u.wanted[..u.taken] {
      assert u.wanted[..u.taken][m] == u.wanted[m];
    }
  }

  /** Waiting goes strictly inwards. */
  lemma {:induction false} WaitingGoesInwards(t: Transaction, u: Transaction)
    requires Ordered(t) && Ordered(u) && WaitsFor(t, u) && IsWaiting(u)
    ensures NextRank(t) < NextRank(u)
  {
    var m :| 0 <= m < u.taken && u.wanted[..u.taken][m] == t.wanted[t.taken];
    assert Rank(u.wanted[m].scope) < Rank(u.wanted[u.taken].scope);
  }

  ghost predicate WaitChain(ts: seq<Transaction>) {
    forall i :: 0 <= i < |ts| - 1 ==> WaitsFor(ts[i], ts[i + 1])
  }

  lemma {:induction false} ChainGoesInwards(ts: seq<Transaction>)
    requires (forall t :: t in ts ==> Ordered(t) && IsWaiting(t)) && WaitChain(ts) && |ts| > 0
    ensures |ts| > 1 ==> NextRank(ts[0]) < NextRank(ts[|ts| - 1])
  {
    if |ts| > 1 {
      var front := ts[..|ts| - 1];
      forall i | 0 <= i < |front| - 1 ensures WaitsFor(front[i], front[i + 1]) {
        assert WaitsFor(ts[i], ts[i + 1]);
      }
      ChainGoesInwards(front);
      assert WaitsFor(ts[|ts| - 2], ts[|ts| - 2 + 1]);
      WaitingGoesInwards(ts[|ts| - 2], ts[|ts| - 1]);
    }
  }

  /** No number of transactions, each wherever it has got to, can wait for each other in a circle. */
  lemma {:induction false} NoDeadlock(ts: seq<Transaction>)
    requires forall t :: t in ts ==> Ordered(t)
    requires ts != [] && WaitChain(ts)
    ensures !WaitsFor(ts[|ts| - 1], ts[0])
  {
    if WaitsFor(ts[|ts| - 1], ts[0]) {
      forall i | 0 <= i < |ts| ensures IsWaiting(ts[i]) {
        if i < |ts| - 1 { assert WaitsFor(ts[i], ts[i + 1]); }
      }
      ChainGoesInwards(ts);
      WaitingGoesInwards(ts[|ts| - 1], ts[0]);
    }
  }

  lemma {:induction false} InnermostWaiter(ts: seq<Transaction>) returns (i: nat)
    requires ts != [] && forall t :: t in ts ==> IsWaiting(t)
    ensures i < |ts| && forall j :: 0 <= j < |ts| ==> NextRank(ts[j]) <= NextRank(ts[i])
  {
    if |ts| == 1 {
      i := 0;
    } else {
      i := InnermostWaiter(ts[1..]);
      assert forall j :: 1 <= j < |ts| ==> ts[j] == ts[1..][j - 1];
      if NextRank(ts[0]) <= NextRank(ts[i + 1]) { i := i + 1; } else { i := 0; }
    }
  }

  /** While any transaction is open, one of them has all its locks or finds its next row free. */
  lemma {:induction false} SomeTransactionCanProceed(ts: seq<Transaction>) returns (i: nat)
    requires ts != [] && forall t :: t in ts ==> Ordered(t)
    ensures i < |ts|
    ensures !IsWaiting(ts[i]) || forall u :: u in ts ==> !WaitsFor(ts[i], u)
  {
    if j :| 0 <= j < |ts| && !IsWaiting(ts[j]) {
      i := j;
    } else {
      i := InnermostWaiter(ts);
      forall u | u in ts ensures !WaitsFor(ts[i], u) {
        var j :| 0 <= j < |ts| && ts[j] == u;
        if WaitsFor(ts[i], u) { WaitingGoesInwards(ts[i], u); }
      }
    }
  }

  /** Without a common order two transactions over two rows do deadlock. */
  lemma {:induction false} OppositeOrdersDeadlock(a: Level, b: Level)
    ensures var t, u := Transaction([a, b], 1), Transaction([b, a], 1);
            WaitsFor(t, u) && WaitsFor(u, t)
  {
    assert [b, a][..1] == [b] && [a, b][..1] == [a];
    assert b in [b] && a in [a];
  }
}
