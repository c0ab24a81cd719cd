/**
  What a backlog does to other tenants in the fair queue (packages/types/src/rate-limits.ts): the
  first n jobs of each tenant keep their places whatever lies behind them, except that a tie between
  two tenants' oldest jobs is decided by which tenant the Map saw first.
 */
module FairBacklog {
  import opened Grouping
  import opened StableSort
  import opened FairQueue

  function Front(jobs: seq<Job>, n: nat): seq<Job> { jobs[..Min(|jobs|, n)] }

  function Cut(line: Line, n: nat): Line { Group(line.key, Front(line.members, n)) }

  function CutAll(lines: seq<Line>, n: nat): (r: seq<Line>) {
    seq(|lines|, i requires 0 <= i < |lines| => Cut(lines[i], n))
  }

  /** One line per tenant, in the order in which the Map saw them. */
  function Lines(pending: seq<Job>): seq<Line> { SortLines(GroupAll(Tagged(pending))) }

  // ----- cutting the lines commutes with sorting them -----

  lemma {:induction false} CutKeepsOldest(x: Line, n: nat)
    requires n > 0
    ensures Oldest(Cut(x, n)) == Oldest(x)
  {
  }

  lemma {:induction false} CutFirst(x: Line, s: seq<Line>, n: nat)
    ensures CutAll([x] + s, n) == [Cut(x, n)] + CutAll(s, n)
  {
  }

  lemma {:induction false} InsertCut(x: Line, s: seq<Line>, n: nat)
    requires n > 0
    ensures Insert(Cut(x, n), CutAll(s, n), Oldest) == CutAll(Insert(x, s, Oldest), n)
  {
    CutKeepsOldest(x, n);
    CutFirst(x, s, n);
    if s != [] {
      CutKeepsOldest(s[0], n);
      if Oldest(x) > Oldest(s[0]) {
        InsertCut(x, s[1..], n);
        assert CutAll(s, n)[1..] == CutAll(s[1..], n);
        CutFirst(s[0], Insert(x, s[1..], Oldest), n);
      }
    }
  }

  /** Turn order looks at nothing past a tenant's first job. */
  lemma {:induction false} SortCut(lines: seq<Line>, n: nat)
    requires n > 0
    ensures Sort(CutAll(lines, n), Oldest) == CutAll(Sort(lines, Oldest), n)
  {
    if lines != [] {
      SortCut(lines[1..], n);
      assert CutAll(lines, n)[1..] == CutAll(lines[1..], n);
      InsertCut(lines[0], Sort(lines[1..], Oldest), n);
    }
  }

  lemma {:induction false} WithKeyCut(lines: seq<Line>, n: nat, k: real)
    requires n > 0
    ensures WithKey(CutAll(lines, n), Oldest, k) == CutAll(WithKey(lines, Oldest, k), n)
  {
    if lines != [] {
      CutKeepsOldest(lines[0], n);
      WithKeyCut(lines[1..], n, k);
      assert CutAll(lines, n)[1..] == CutAll(lines[1..], n);
      CutFirst(lines[0], WithKey(lines[1..], Oldest, k), n);
    }
  }

  // ----- the first n passes look at nothing past the cut -----

  /** The same tenants in the same order, each with the same first n jobs. */
  ghost predicate Alike(a: seq<Line>, b: seq<Line>, n: nat) {
    |a| == |b| && forall i :: 0 <= i < |a| ==> a[i].key == b[i].key && Front(a[i].members, n) == Front(b[i].members, n)
  }

  lemma {:induction false} SameCutsAreAlike(a: seq<Line>, b: seq<Line>, n: nat)
    requires CutAll(a, n) == CutAll(b, n)
    ensures Alike(a, b, n)
  {
    assert |CutAll(a, n)| == |CutAll(b, n)|;
    forall i | 0 <= i < |a| ensures a[i].key == b[i].key && Front(a[i].members, n) == Front(b[i].members, n) {
      assert CutAll(a, n)[i] == CutAll(b, n)[i];
    }
  }

  lemma {:induction false} SameJobAt(x: seq<Job>, y: seq<Job>, k: nat, n: nat)
    requires k < n && Front(x, n) == Front(y, n)
    ensures k < |x| <==> k < |y|
    ensures k < |x| ==> x[k] == y[k]
  {
    assert |Front(x, n)| == |Front(y, n)|;
    if k < |x| { assert Front(x, n)[k] == Front(y, n)[k]; }
  }

  lemma {:induction false} PassAlike(a: seq<Line>, b: seq<Line>, k: nat, n: nat)
    requires k < n && Alike(a, b, n)
    ensures Pass(a, k) == Pass(b, k)
  {
    if a != [] {
      PassAlike(a[..|a| - 1], b[..|b| - 1], k, n);
      SameJobAt(a[|a| - 1].members, b[|b| - 1].members, k, n);
    }
  }

  lemma {:induction false} SamePasses(a: seq<Line>, b: seq<Line>, k: nat)
    requires forall j: nat :: j < k ==> Pass(a, j) == Pass(b, j)
    ensures Passes(a, k) == Passes(b, k)
  {
    if k > 0 {
      var j := k - 1;
      SamePasses(a, b, j);
      assert Pass(a, j) == Pass(b, j) && k == j + 1;
    }
  }

  lemma {:induction false} PassesAlike(a: seq<Line>, b: seq<Line>, n: nat)
    requires Alike(a, b, n)
    ensures Passes(a, n) == Passes(b, n)
  {
    forall k: nat | k < n ensures Pass(a, k) == Pass(b, k) { PassAlike(a, b, k, n); }
    SamePasses(a, b, n);
  }

  lemma {:induction false} AheadAlike(a: seq<Line>, b: seq<Line>, p: nat, k: nat, n: nat)
    requires k < n && Alike(a, b, n) && p <= |a|
    ensures Ahead(a, p, k) == Ahead(b, p, k)
  {
    if p > 0 {
      var q := p - 1;
      AheadAlike(a, b, q, k, n);
      SameJobAt(a[q].members, b[q].members, k, n);
    }
  }

  lemma {:induction false} ServedAlike(a: seq<Line>, b: seq<Line>, k: nat, n: nat)
    requires k < n && Alike(a, b, n)
    ensures Served(a, k) == Served(b, k)
  {
    if a != [] {
      ServedAlike(a[..|a| - 1], b[..|b| - 1], k, n);
      assert |Front(a[|a| - 1].members, n)| == |Front(b[|b| - 1].members, n)|;
    }
  }

  lemma {:induction false} PassBeyondIsEmpty(lines: seq<Line>, k: nat)
    requires forall i :: 0 <= i < |lines| ==> |lines[i].members| <= k
    ensures Pass(lines, k) == []
  {
    if lines != [] { PassBeyondIsEmpty(lines[..|lines| - 1], k); }
  }

  /** The first n passes stand at the front of the fair order. */
  lemma {:induction false} PassesComeFirst(pending: seq<Job>, n: nat)
    ensures Passes(Turns(pending), n) <= FairSequence(pending)
  {
    var lines, m := Turns(pending), |pending|;
    if n <= m {
      PassesExtend(lines, n, m);
    } else {
      TurnsAreOwned(pending);
      PassBeyondIsEmpty(lines, m);
      EmptyPassMeansDone(lines, m, n);
      PassesLength(lines, m);
      PassesLength(lines, n);
      PassesComplete(lines, m, n);
    }
  }

  // ----- pending sets with the same fronts -----

  /** Two pending sets that differ, at most, past the n oldest jobs of each tenant. */
  ghost predicate SameFronts(a: seq<Job>, b: seq<Job>, n: nat) {
    forall tenant :: Front(Sort(JobsOf(a, tenant), QueuedAt), n) == Front(Sort(JobsOf(b, tenant), QueuedAt), n)
  }

  lemma {:induction false} LineIsOfItsTenant(pending: seq<Job>, line: Line)
    requires line in Lines(pending) || line in Turns(pending)
    ensures line.members == Sort(JobsOf(pending, line.key), QueuedAt) != []
  {
    SortedLinesWellFormed(pending);
    TurnsWellFormed(pending);
  }

  /** A tenant with jobs has a line. */
  lemma {:induction false} TenantHasALine(pending: seq<Job>, tenant: string)
    requires JobsOf(pending, tenant) != []
    ensures Group(tenant, Sort(JobsOf(pending, tenant), QueuedAt)) in Lines(pending)
  {
    SortedLinesWellFormed(pending);
    JobsOfOwn(pending, tenant);
    var job := JobsOf(pending, tenant)[0];
    assert job in pending && job.tenantId == tenant;
    var i :| 0 <= i < |Lines(pending)| && Lines(pending)[i].key == job.tenantId;
    assert Lines(pending)[i] in Lines(pending);
  }

  lemma {:induction false} SameTenants(a: seq<Job>, b: seq<Job>, n: nat, line: Line)
    requires n > 0 && SameFronts(a, b, n) && line in Lines(a)
    ensures Cut(line, n) in CutAll(Lines(b), n)
  {
    LineIsOfItsTenant(a, line);
    var front := Front(Sort(JobsOf(b, line.key), QueuedAt), n);
    assert front == Front(line.members, n) != [];
    TenantHasALine(b, line.key);
    var other := Group(line.key, Sort(JobsOf(b, line.key), QueuedAt));
    var j :| 0 <= j < |Lines(b)| && Lines(b)[j] == other;
    assert CutAll(Lines(b), n)[j] == Cut(line, n);
  }

  lemma {:induction false} CutsAreDistinct(pending: seq<Job>, n: nat)
    ensures Distinct(CutAll(Lines(pending), n))
  {
    SortedLinesWellFormed(pending);
  }

  lemma {:induction false} SameCuts(a: seq<Job>, b: seq<Job>, n: nat)
    requires n > 0 && SameFronts(a, b, n)
    ensures multiset(CutAll(Lines(a), n)) == multiset(CutAll(Lines(b), n))
  {
    var x, y := CutAll(Lines(a), n), CutAll(Lines(b), n);
    CutsAreDistinct(a, n);
    CutsAreDistinct(b, n);
    forall c | c in x ensures c in y {
      var i :| 0 <= i < |x| && x[i] == c;
      SameTenants(a, b, n, Lines(a)[i]);
    }
    forall c | c in y ensures c in x {
      var i :| 0 <= i < |y| && y[i] == c;
      SameTenants(b, a, n, Lines(b)[i]);
    }
    SameMembersPermute(x, y);
  }

  // ----- ties -----

  /** The tenants whose oldest job was queued at k, in the order in which the Map saw them. */
  function TiedAt(pending: seq<Job>, k: real): seq<string> { Keys(WithKey(Lines(pending), Oldest, k)) }

  /** Tenants that tie are first seen in the same relative order. */
  ghost predicate TiesListedAlike(a: seq<Job>, b: seq<Job>) {
    forall k :: TiedAt(a, k) == TiedAt(b, k)
  }

  /** No two tenants' oldest jobs were queued at the same moment. */
  ghost predicate NoTies(pending: seq<Job>) { KeyIdentifies(Lines(pending), Oldest) }

  /** Lines of tenants, with the same tenants, cut alike. */
  lemma {:induction false} SameKeysSameCuts(a: seq<Job>, b: seq<Job>, x: seq<Line>, y: seq<Line>, n: nat)
    requires SameFronts(a, b, n) && Keys(x) == Keys(y)
    requires forall line :: line in x ==> line.members == Sort(JobsOf(a, line.key), QueuedAt)
    requires forall line :: line in y ==> line.members == Sort(JobsOf(b, line.key), QueuedAt)
    ensures CutAll(x, n) == CutAll(y, n)
  {
    assert |x| == |Keys(x)| == |Keys(y)| == |y|;
    forall i | 0 <= i < |x| ensures Cut(x[i], n) == Cut(y[i], n) {
      assert Keys(x)[i] == Keys(y)[i];
      assert x[i] in x && y[i] in y;
    }
  }

  lemma {:induction false} TiesGiveTheOrder(a: seq<Job>, b: seq<Job>, n: nat)
    requires n > 0 && SameFronts(a, b, n) && TiesListedAlike(a, b)
    ensures CutAll(Turns(a), n) == CutAll(Turns(b), n)
  {
    var x, y := CutAll(Lines(a), n), CutAll(Lines(b), n);
    forall k ensures WithKey(x, Oldest, k) == WithKey(y, Oldest, k) {
      WithKeyCut(Lines(a), n, k);
      WithKeyCut(Lines(b), n, k);
      var p, q := WithKey(Lines(a), Oldest, k), WithKey(Lines(b), Oldest, k);
      assert TiedAt(a, k) == TiedAt(b, k);
      forall line | line in p ensures line.members == Sort(JobsOf(a, line.key), QueuedAt) { LineIsOfItsTenant(a, line); }
      forall line | line in q ensures line.members == Sort(JobsOf(b, line.key), QueuedAt) { LineIsOfItsTenant(b, line); }
      SameKeysSameCuts(a, b, p, q, n);
    }
    SortForgetsOrderBetweenKeys(x, y, Oldest);
    SortCut(Lines(a), n);
    SortCut(Lines(b), n);
  }

  lemma {:induction false} WithKeyOfSameKeys(x: seq<Line>, y: seq<Line>, k: real)
    requires |x| == |y| && forall i :: 0 <= i < |x| ==> x[i].key == y[i].key && Oldest(x[i]) == Oldest(y[i])
    ensures Keys(WithKey(x, Oldest, k)) == Keys(WithKey(y, Oldest, k))
  {
    if x != [] {
      WithKeyOfSameKeys(x[1..], y[1..], k);
      var p, q := WithKey(x[1..], Oldest, k), WithKey(y[1..], Oldest, k);
      assert Keys([x[0]] + p) == [x[0].key] + Keys(p) && Keys([y[0]] + q) == [y[0].key] + Keys(q);
    }
  }

  /** The first pass names the tenants in turn order. */
  lemma {:induction false} FirstPassNamesTheTurns(lines: seq<Line>)
    requires forall i :: 0 <= i < |lines| ==> lines[i].members != []
    ensures |Pass(lines, 0)| == |lines|
    ensures forall i :: 0 <= i < |lines| ==> Pass(lines, 0)[i] == lines[i].members[0]
  {
    if lines != [] { FirstPassNamesTheTurns(lines[..|lines| - 1]); }
  }

  lemma {:induction false} SameNumberOfTurns(a: seq<Job>, b: seq<Job>, n: nat)
    requires n > 0 && SameFronts(a, b, n)
    ensures |Turns(a)| == |Turns(b)|
  {
    SameCuts(a, b, n);
    assert |Turns(a)| == |Lines(a)| == |multiset(CutAll(Lines(a), n))|;
    assert |Turns(b)| == |Lines(b)| == |multiset(CutAll(Lines(b), n))|;
  }

  lemma {:induction false} TurnsStart(pending: seq<Job>, i: nat)
    requires i < |Turns(pending)|
    ensures |Pass(Turns(pending), 0)| == |Turns(pending)|
    ensures Turns(pending)[i].members != [] && Pass(Turns(pending), 0)[i] == Turns(pending)[i].members[0]
    ensures Turns(pending)[i].members[0].tenantId == Turns(pending)[i].key
  {
    var lines := Turns(pending);
    forall j | 0 <= j < |lines| ensures lines[j].members != [] { LineIsOfItsTenant(pending, lines[j]); }
    FirstPassNamesTheTurns(lines);
    TurnsAreOwned(pending);
  }

  lemma {:induction false} FirstPassLeads(lines: seq<Line>, n: nat)
    requires n > 0
    ensures Pass(lines, 0) <= Passes(lines, n)
  {
    RowInPasses(lines, 0, n);
    assert [] + Pass(lines, 0) == Pass(lines, 0);
  }

  lemma {:induction false} SamePassesSameTurns(a: seq<Job>, b: seq<Job>, n: nat, i: nat)
    requires n > 0 && SameFronts(a, b, n) && Passes(Turns(a), n) == Passes(Turns(b), n)
    requires |Turns(a)| == |Turns(b)| && i < |Turns(a)|
    ensures Turns(a)[i].key == Turns(b)[i].key && Oldest(Turns(a)[i]) == Oldest(Turns(b)[i])
  {
    TurnsStart(a, i);
    TurnsStart(b, i);
    FirstPassLeads(Turns(a), n);
    FirstPassLeads(Turns(b), n);
    assert Passes(Turns(a), n)[i] == Turns(a)[i].members[0] == Turns(b)[i].members[0];
  }

  lemma {:induction false} OrderShowsTheTies(a: seq<Job>, b: seq<Job>, n: nat)
    requires n > 0 && SameFronts(a, b, n) && Passes(Turns(a), n) == Passes(Turns(b), n)
    ensures TiesListedAlike(a, b)
  {
    SameNumberOfTurns(a, b, n);
    forall i | 0 <= i < |Turns(a)| ensures Turns(a)[i].key == Turns(b)[i].key && Oldest(Turns(a)[i]) == Oldest(Turns(b)[i]) {
      SamePassesSameTurns(a, b, n, i);
    }
    SortIsStable(Lines(a), Oldest);
    SortIsStable(Lines(b), Oldest);
    forall k ensures TiedAt(a, k) == TiedAt(b, k) {
      WithKeyOfSameKeys(Turns(a), Turns(b), k);
      assert WithKey(Turns(a), Oldest, k) == WithKey(Lines(a), Oldest, k);
      assert WithKey(Turns(b), Oldest, k) == WithKey(Lines(b), Oldest, k);
    }
  }

  // ----- the law -----

  /**
    Take two pending sets that agree on each tenant's n oldest jobs and differ in anything else. The
    first n passes, which stand at the front of both fair orders, are the same job for job exactly when
    tenants whose oldest jobs tie are first seen in the same relative order.
   */
  lemma {:induction false} BacklogDelaysNobodyExactlyWhen(a: seq<Job>, b: seq<Job>, n: nat)
    requires n > 0 && SameFronts(a, b, n)
    ensures Passes(Turns(a), n) == Passes(Turns(b), n) <==> TiesListedAlike(a, b)
    ensures Passes(Turns(a), n) <= FairSequence(a) && Passes(Turns(b), n) <= FairSequence(b)
  {
    if TiesListedAlike(a, b) {
      TiesGiveTheOrder(a, b, n);
      SameCutsAreAlike(Turns(a), Turns(b), n);
      PassesAlike(Turns(a), Turns(b), n);
    }
    if Passes(Turns(a), n) == Passes(Turns(b), n) { OrderShowsTheTies(a, b, n); }
    PassesComeFirst(a, n);
    PassesComeFirst(b, n);
  }

  lemma {:induction false} CutsKeepNoTies(lines: seq<Line>, n: nat)
    requires n > 0 && KeyIdentifies(lines, Oldest)
    ensures KeyIdentifies(CutAll(lines, n), Oldest)
  {
    forall i, j | 0 <= i < |lines| && 0 <= j < |lines| && Oldest(Cut(lines[i], n)) == Oldest(Cut(lines[j], n))
      ensures Cut(lines[i], n) == Cut(lines[j], n)
    {
      CutKeepsOldest(lines[i], n);
      CutKeepsOldest(lines[j], n);
    }
  }

  /** Without ties nothing else matters: not the listing, not where in it a backlog stands, not how long it is. */
  lemma {:induction false} BacklogDelaysNobody(a: seq<Job>, b: seq<Job>, n: nat)
    requires n > 0 && SameFronts(a, b, n) && NoTies(a)
    ensures Passes(Turns(a), n) == Passes(Turns(b), n)
    ensures Passes(Turns(a), n) <= FairSequence(a) && Passes(Turns(a), n) <= FairSequence(b)
  {
    SameCuts(a, b, n);
    CutsKeepNoTies(Lines(a), n);
    SortIsCanonical(CutAll(Lines(a), n), CutAll(Lines(b), n), Oldest);
    SortCut(Lines(a), n);
    SortCut(Lines(b), n);
    SameCutsAreAlike(Turns(a), Turns(b), n);
    PassesAlike(Turns(a), Turns(b), n);
    PassesComeFirst(a, n);
    PassesComeFirst(b, n);
  }

  /** Then the slot of a tenant's k-th job does not move with what lies past anybody's (k + 1)-th. */
  lemma {:induction false} SlotIgnoresBacklog(a: seq<Job>, b: seq<Job>, p: nat, k: nat)
    requires SameFronts(a, b, k + 1) && TiesListedAlike(a, b) && p < |Turns(a)| && k < |Turns(a)[p].members|
    ensures p < |Turns(b)| && k < |Turns(b)[p].members| && Turns(b)[p].members[k] == Turns(a)[p].members[k]
    ensures Slot(Turns(b), p, k) == Slot(Turns(a), p, k)
  {
    TiesGiveTheOrder(a, b, k + 1);
    SameCutsAreAlike(Turns(a), Turns(b), k + 1);
    SameJobAt(Turns(a)[p].members, Turns(b)[p].members, k, k + 1);
    AheadAlike(Turns(a), Turns(b), p, k, k + 1);
    ServedAlike(Turns(a), Turns(b), k, k + 1);
  }

  // ----- a tie that a backlog decides -----

  lemma {:induction false} JobsOfTwo(x: Job, y: Job, tenant: string)
    ensures JobsOf([x, y], tenant) == (if x.tenantId == tenant then [x] else []) + (if y.tenantId == tenant then [y] else [])
  {
    assert [x, y] == [x] + [y];
    JobsOfAppend([x], [y], tenant);
    JobsOfOne(x, tenant);
    JobsOfOne(y, tenant);
  }

  lemma {:induction false} FirstSeenTwo(x: Job, y: Job)
    requires x.tenantId != y.tenantId
    ensures FirstSeen(Tagged([x, y])) == [x.tenantId, y.tenantId]
  {
    var items := Tagged([x, y]);
    assert items[..1][..0] == [] && items[..1] == [(x.tenantId, x)];
    assert FirstSeen(items[..1]) == [x.tenantId];
  }

  lemma {:induction false} FirstSeenThree(z: Job, x: Job, y: Job)
    requires x.tenantId != y.tenantId == z.tenantId
    ensures FirstSeen(Tagged([z, x, y])) == [z.tenantId, x.tenantId]
  {
    var items := Tagged([z, x, y]);
    assert items[..2] == Tagged([z, x]);
    FirstSeenTwo(z, x);
  }

  lemma {:induction false} HeadOfTie(pending: seq<Job>, first: string, second: string)
    requires first != second && FirstSeen(Tagged(pending)) == [first, second]
    requires JobsOf(pending, first) != [] && JobsOf(pending, second) != []
    requires Sort(JobsOf(pending, first), QueuedAt)[0].queuedAt == Sort(JobsOf(pending, second), QueuedAt)[0].queuedAt
    ensures |FairSequence(pending)| > 0 && FairSequence(pending)[0] == Sort(JobsOf(pending, first), QueuedAt)[0]
  {
    var lines := Lines(pending);
    GroupsAreTheFibres(Tagged(pending));
    assert |lines| == |Keys(GroupAll(Tagged(pending)))| == 2;
    LineOf(pending, 0);
    LineOf(pending, 1);
    assert Ascending(lines, Oldest);
    SortOfAscending(lines, Oldest);
    assert pending != [] by { JobsOfOwn(pending, first); }
    SlotOfJob(pending, 0, 0);
    ServedNone(Turns(pending));
  }

  lemma {:induction false} LineOf(pending: seq<Job>, i: nat)
    requires i < |SortLines(GroupAll(Tagged(pending)))|
    ensures var line := SortLines(GroupAll(Tagged(pending)))[i];
            && i < |FirstSeen(Tagged(pending))| && line.key == FirstSeen(Tagged(pending))[i]
            && line.members == Sort(JobsOf(pending, line.key), QueuedAt)
  {
    GroupsAreTheFibres(Tagged(pending));
    assert Keys(GroupAll(Tagged(pending)))[i] == GroupAll(Tagged(pending))[i].key;
  }

  /**
    Two tenants whose oldest jobs tie: whether the second has a later job listed first decides who is
    served first, although each tenant's oldest job is the same.
   */
  lemma {:induction false} BacklogDecidesATie(x: Job, y: Job, z: Job)
    requires x.tenantId != y.tenantId == z.tenantId && x.queuedAt == y.queuedAt < z.queuedAt
    ensures SameFronts([x, y], [z, x, y], 1)
    ensures FairSequence([x, y]) != [] && FairSequence([x, y])[0] == x
    ensures FairSequence([z, x, y]) != [] && FairSequence([z, x, y])[0] == y
  {
    var a, b := [x, y], [z, x, y];
    assert b == [z] + a;
    forall tenant ensures JobsOf(b, tenant) == (if z.tenantId == tenant then [z] else []) + JobsOf(a, tenant) {
      JobsOfAppend([z], a, tenant);
      JobsOfOne(z, tenant);
    }
    forall tenant ensures JobsOf(a, tenant) == (if x.tenantId == tenant then [x] else []) + (if y.tenantId == tenant then [y] else []) {
      JobsOfTwo(x, y, tenant);
    }
    SortOne(x);
    SortOne(y);
    SortTwo(z, y);
    FirstSeenTwo(x, y);
    FirstSeenThree(z, x, y);
    HeadOfTie(a, x.tenantId, y.tenantId);
    HeadOfTie(b, y.tenantId, x.tenantId);
    forall tenant ensures Front(Sort(JobsOf(a, tenant), QueuedAt), 1) == Front(Sort(JobsOf(b, tenant), QueuedAt), 1) {
    }
  }

  lemma {:induction false} SortOne(x: Job)
    ensures Sort([x], QueuedAt) == [x]
  {
    assert [x][1..] == [];
  }

  lemma {:induction false} SortTwo(later: Job, earlier: Job)
    requires earlier.queuedAt < later.queuedAt
    ensures Sort([later, earlier], QueuedAt) == [earlier, later]
  {
    SortOne(earlier);
    assert [later, earlier][1..] == [earlier] && [earlier][1..] == [];
    assert Insert(later, [], QueuedAt) == [later];
    assert Insert(later, [earlier], QueuedAt) == [earlier] + [later];
  }
}
