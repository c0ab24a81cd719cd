/**
  Queue fairness (packages/types/src/rate-limits.ts): round-robin across tenants, oldest first
  within each, and the admission plan that the API draws from that order.
 */
module FairQueue {
  import opened Grouping
  import opened StableSort

  datatype Job = Job(id: string, tenantId: string, queuedAt: real)

  /** One entry of `byTenant`: a tenant and its jobs. */
  type Line = Group<string, Job>

  function QueuedAt(job: Job): real { job.queuedAt }

  /** `jobs[0]?.queuedAt ?? 0` */
  function Oldest(line: Line): real { if line.members == [] then 0.0 else line.members[0].queuedAt }

  function Tagged(pending: seq<Job>): seq<(string, Job)> {
    seq(|pending|, i requires 0 <= i < |pending| => (pending[i].tenantId, pending[i]))
  }

  /** One tenant's jobs, in the order in which they appear. */
  function JobsOf(jobs: seq<Job>, tenant: string): seq<Job> {
    ValuesFor(Tagged(jobs), tenant)
  }

  function SortLines(groups: seq<Line>): (r: seq<Line>) {
    seq(|groups|, i requires 0 <= i < |groups| => Group(groups[i].key, Sort(groups[i].members, QueuedAt)))
  }

  /** The tenants in turn order, each with its own jobs oldest first. */
  function Turns(pending: seq<Job>): seq<Line> {
    Sort(SortLines(GroupAll(Tagged(pending))), Oldest)
  }

  /** What pass k places: the k-th job of every tenant that has one. */
  function Pass(lines: seq<Line>, k: nat): seq<Job> {
    if lines == [] then []
    else
      var last := lines[|lines| - 1].members;
      var placed := Pass(lines[..|lines| - 1], k);
      if k < |last| then placed + [last[k]] else placed
  }

  function Passes(lines: seq<Line>, k: nat): seq<Job> {
    if k == 0 then [] else Passes(lines, k - 1) + Pass(lines, k - 1)
  }

  /** The result of `fairOrder`; no tenant needs more passes than there are jobs. */
  function FairSequence(pending: seq<Job>): seq<Job> {
    Passes(Turns(pending), |pending|)
  }

  function Min(a: nat, b: nat): nat { if a < b then a else b }

  /** Sum over the tenants of min(jobs, k). */
  function Served(lines: seq<Line>, k: nat): nat {
    if lines == [] then 0 else Served(lines[..|lines| - 1], k) + Min(|lines[|lines| - 1].members|, k)
  }

  /** How many of the first p tenants have more than k jobs. */
  function Ahead(lines: seq<Line>, p: nat, k: nat): nat
    requires p <= |lines|
  {
    if p == 0 then 0 else Ahead(lines, p - 1, k) + if k < |lines[p - 1].members| then 1 else 0
  }

  /** Where the k-th job of the p-th tenant lands. */
  function Slot(lines: seq<Line>, p: nat, k: nat): nat
    requires p < |lines|
  {
    Served(lines, k) + Ahead(lines, p, k)
  }

  // ----- the shape of the lines -----

  ghost predicate DistinctTenants(lines: seq<Line>) {
    forall i, j :: 0 <= i < j < |lines| ==> lines[i].key != lines[j].key
  }

  /** Lines are non-empty, oldest first, and hold exactly their own tenant's jobs, sorted stably. */
  ghost predicate WellFormed(lines: seq<Line>, pending: seq<Job>) {
    && DistinctTenants(lines)
    && (forall i :: 0 <= i < |lines| ==>
          lines[i].members == Sort(JobsOf(pending, lines[i].key), QueuedAt) != [])
    && (forall job :: job in pending ==> exists i :: 0 <= i < |lines| && lines[i].key == job.tenantId)
  }

  lemma {:induction false} SortedLinesWellFormed(pending: seq<Job>)
    ensures WellFormed(SortLines(GroupAll(Tagged(pending))), pending)
  {
    var groups := GroupAll(Tagged(pending));
    var lines := SortLines(groups);
    GroupsAreTheFibres(Tagged(pending));
    forall i | 0 <= i < |groups| ensures Keys(groups)[i] == lines[i].key {}
    forall job | job in pending ensures exists i :: 0 <= i < |lines| && lines[i].key == job.tenantId {
      var j :| 0 <= j < |pending| && pending[j] == job;
      assert Tagged(pending)[j].0 in Keys(groups);
    }
  }

  lemma {:induction false} WellFormedInAnyOrder(a: seq<Line>, b: seq<Line>, pending: seq<Job>)
    requires WellFormed(a, pending) && multiset(a) == multiset(b)
    ensures WellFormed(b, pending)
  {
    DistinctKeysSurvive(a, b);
    forall i | 0 <= i < |b|
      ensures b[i].members == Sort(JobsOf(pending, b[i].key), QueuedAt) != []
    {
      assert b[i] in multiset(a);
    }
    forall job | job in pending ensures exists i :: 0 <= i < |b| && b[i].key == job.tenantId {
      var i :| 0 <= i < |a| && a[i].key == job.tenantId;
      assert a[i] in multiset(b);
      var j :| 0 <= j < |b| && b[j] == a[i];
    }
  }

  lemma {:induction false} TurnsWellFormed(pending: seq<Job>)
    ensures WellFormed(Turns(pending), pending)
  {
    var lines := SortLines(GroupAll(Tagged(pending)));
    SortedLinesWellFormed(pending);
    SortIsStable(lines, Oldest);
    WellFormedInAnyOrder(lines, Turns(pending), pending);
  }

  lemma {:induction false} DistinctKeysSurvive(a: seq<Line>, b: seq<Line>)
    requires multiset(a) == multiset(b)
    requires DistinctTenants(a)
    ensures DistinctTenants(b)
  {
    DistinctSurvivesPermutation(a, b);
    forall i, j | 0 <= i < j < |b| ensures b[i].key != b[j].key {
      assert b[i] in multiset(a) && b[j] in multiset(a);
      var m, n :| 0 <= m < |a| && a[m] == b[i] && 0 <= n < |a| && a[n] == b[j];
      assert m != n;
    }
  }

  // ----- each tenant keeps its own order -----

  lemma {:induction false} JobsOfAppend(a: seq<Job>, b: seq<Job>, tenant: string)
    ensures JobsOf(a + b, tenant) == JobsOf(a, tenant) + JobsOf(b, tenant)
  {
    assert Tagged(a + b) == Tagged(a) + Tagged(b);
    ValuesForAppend(Tagged(a), Tagged(b), tenant);
  }

  lemma {:induction false} JobsOfOne(job: Job, tenant: string)
    ensures JobsOf([job], tenant) == if job.tenantId == tenant then [job] else []
  {
    assert Tagged([job]) == [(job.tenantId, job)];
    assert ValuesFor(Tagged([job])[..0], tenant) == [];
  }

  lemma {:induction false} JobsOfOwn(jobs: seq<Job>, tenant: string)
    ensures forall job :: job in JobsOf(jobs, tenant) ==> job in jobs && job.tenantId == tenant
    ensures |JobsOf(jobs, tenant)| <= |jobs|
  {
    if jobs != [] {
      var front := jobs[..|jobs| - 1];
      assert jobs == front + [jobs[|jobs| - 1]];
      JobsOfOwn(front, tenant);
      JobsOfAppend(front, [jobs[|jobs| - 1]], tenant);
      JobsOfOne(jobs[|jobs| - 1], tenant);
    }
  }

  /** Every job in a line belongs to the line's tenant. */
  ghost predicate Owned(lines: seq<Line>) {
    forall i :: 0 <= i < |lines| ==> forall j :: 0 <= j < |lines[i].members| ==> lines[i].members[j].tenantId == lines[i].key
  }

  lemma {:induction false} TurnsAreOwned(pending: seq<Job>)
    ensures Owned(Turns(pending))
    ensures forall i :: 0 <= i < |Turns(pending)| ==> |Turns(pending)[i].members| <= |pending|
  {
    var lines := Turns(pending);
    TurnsWellFormed(pending);
    forall i | 0 <= i < |lines|
      ensures |lines[i].members| <= |pending|
      ensures forall j :: 0 <= j < |lines[i].members| ==> lines[i].members[j].tenantId == lines[i].key
    {
      var own := JobsOf(pending, lines[i].key);
      JobsOfOwn(pending, lines[i].key);
      MembersOfSort(own, QueuedAt);
      forall j | 0 <= j < |lines[i].members| ensures lines[i].members[j].tenantId == lines[i].key {
        assert lines[i].members[j] in own;
      }
    }
  }

  lemma {:induction false} OthersInPass(lines: seq<Line>, k: nat, tenant: string)
    requires Owned(lines) && forall i :: 0 <= i < |lines| ==> lines[i].key != tenant
    ensures JobsOf(Pass(lines, k), tenant) == []
  {
    if lines == [] {
      assert Tagged([]) == [];
    } else {
      var front := lines[..|lines| - 1];
      var last := lines[|lines| - 1].members;
      OthersInPass(front, k, tenant);
      if k < |last| {
        assert last[k].tenantId == lines[|lines| - 1].key;
        JobsOfAppend(Pass(front, k), [last[k]], tenant);
        JobsOfOne(last[k], tenant);
      }
    }
  }

  lemma {:induction false} OwnInPass(lines: seq<Line>, k: nat, p: nat)
    requires Owned(lines) && p < |lines| && DistinctTenants(lines)
    ensures JobsOf(Pass(lines, k), lines[p].key) == if k < |lines[p].members| then [lines[p].members[k]] else []
  {
    var front, last, tenant := lines[..|lines| - 1], lines[|lines| - 1], lines[p].key;
    if p < |front| {
      OwnInPass(front, k, p);
      assert front[p] == lines[p] && last.key != tenant;
    } else {
      OthersInPass(front, k, tenant);
    }
    if k < |last.members| {
      assert last.members[k].tenantId == last.key;
      JobsOfAppend(Pass(front, k), [last.members[k]], tenant);
      JobsOfOne(last.members[k], tenant);
    }
  }

  lemma {:induction false} TakeOneMore(before: seq<Job>, row: seq<Job>, own: seq<Job>, k: nat, tenant: string)
    requires k > 0 && JobsOf(before, tenant) == own[..Min(|own|, k - 1)]
    requires JobsOf(row, tenant) == if k - 1 < |own| then [own[k - 1]] else []
    ensures JobsOf(before + row, tenant) == own[..Min(|own|, k)]
  {
    JobsOfAppend(before, row, tenant);
  }

  lemma {:induction false} OwnInPasses(lines: seq<Line>, k: nat, p: nat)
    requires Owned(lines) && p < |lines| && DistinctTenants(lines)
    ensures JobsOf(Passes(lines, k), lines[p].key) == lines[p].members[..Min(|lines[p].members|, k)]
  {
    if k == 0 {
      assert Tagged([]) == [];
    } else {
      OwnInPasses(lines, k - 1, p);
      OwnInPass(lines, k - 1, p);
      TakeOneMore(Passes(lines, k - 1), Pass(lines, k - 1), lines[p].members, k, lines[p].key);
    }
  }

  lemma {:induction false} OthersInPasses(lines: seq<Line>, k: nat, tenant: string)
    requires Owned(lines) && forall i :: 0 <= i < |lines| ==> lines[i].key != tenant
    ensures JobsOf(Passes(lines, k), tenant) == []
  {
    if k == 0 {
      assert Tagged([]) == [];
    } else {
      OthersInPasses(lines, k - 1, tenant);
      OthersInPass(lines, k - 1, tenant);
      JobsOfAppend(Passes(lines, k - 1), Pass(lines, k - 1), tenant);
    }
  }

  /** Inside the fair order every tenant sees its own jobs, all of them, in stable oldest-first order. */
  lemma {:induction false} OwnOrderIsOldestFirst(pending: seq<Job>, tenant: string)
    ensures JobsOf(FairSequence(pending), tenant) == Sort(JobsOf(pending, tenant), QueuedAt)
  {
    var lines := Turns(pending);
    TurnsWellFormed(pending);
    TurnsAreOwned(pending);
    if p :| 0 <= p < |lines| && lines[p].key == tenant {
      OwnInPasses(lines, |pending|, p);
    } else {
      OthersInPasses(lines, |pending|, tenant);
      forall j | 0 <= j < |pending| ensures pending[j].tenantId != tenant {
        assert pending[j] in pending;
      }
      NoValues(Tagged(pending), tenant);
    }
  }

  lemma {:induction false} CountedUnderOwnTenant(jobs: seq<Job>, job: Job)
    ensures multiset(jobs)[job] == multiset(JobsOf(jobs, job.tenantId))[job]
  {
    if jobs == [] {
      assert Tagged([]) == [];
    } else {
      var front := jobs[..|jobs| - 1];
      assert jobs == front + [jobs[|jobs| - 1]];
      CountedUnderOwnTenant(front, job);
      JobsOfAppend(front, [jobs[|jobs| - 1]], job.tenantId);
      JobsOfOne(jobs[|jobs| - 1], job.tenantId);
    }
  }

  /** The fair order is a permutation of the pending set. */
  lemma {:induction false} FairSequencePermutes(pending: seq<Job>)
    ensures multiset(FairSequence(pending)) == multiset(pending)
    ensures |FairSequence(pending)| == |pending|
  {
    var fair := FairSequence(pending);
    forall job: Job ensures multiset(fair)[job] == multiset(pending)[job] {
      OwnOrderIsOldestFirst(pending, job.tenantId);
      SortIsStable(JobsOf(pending, job.tenantId), QueuedAt);
      CountedUnderOwnTenant(fair, job);
      CountedUnderOwnTenant(pending, job);
    }
    assert |fair| == |multiset(fair)| && |pending| == |multiset(pending)|;
  }

  // ----- where each job lands -----

  lemma {:induction false} PassPlacesInTurn(lines: seq<Line>, k: nat, p: nat)
    requires p < |lines| && k < |lines[p].members|
    ensures Ahead(lines, p, k) < |Pass(lines, k)| && Pass(lines, k)[Ahead(lines, p, k)] == lines[p].members[k]
  {
    var front := lines[..|lines| - 1];
    AheadOfPrefix(lines, front, p, k);
    if p < |front| {
      PassPlacesInTurn(front, k, p);
    } else {
      PassLength(front, k);
    }
  }

  lemma {:induction false} AheadOfPrefix(lines: seq<Line>, front: seq<Line>, p: nat, k: nat)
    requires p <= |front| && front <= lines
    ensures Ahead(lines, p, k) == Ahead(front, p, k)
  {
    if p > 0 { AheadOfPrefix(lines, front, p - 1, k); }
  }

  lemma {:induction false} PassLength(lines: seq<Line>, k: nat)
    ensures |Pass(lines, k)| == Ahead(lines, |lines|, k)
  {
    if lines != [] {
      PassLength(lines[..|lines| - 1], k);
      AheadOfPrefix(lines, lines[..|lines| - 1], |lines| - 1, k);
    }
  }

  lemma {:induction false} ServedStep(lines: seq<Line>, k: nat)
    ensures Served(lines, k + 1) == Served(lines, k) + |Pass(lines, k)|
  {
    if lines != [] { ServedStep(lines[..|lines| - 1], k); }
  }

  lemma {:induction false} ServedNone(lines: seq<Line>)
    ensures Served(lines, 0) == 0
  {
    if lines != [] { ServedNone(lines[..|lines| - 1]); }
  }

  lemma {:induction false} PassesLength(lines: seq<Line>, k: nat)
    ensures |Passes(lines, k)| == Served(lines, k)
  {
    if k == 0 {
      ServedNone(lines);
    } else {
      var before := k - 1;
      PassesLength(lines, before);
      ServedStep(lines, before);
      assert |Passes(lines, k)| == |Passes(lines, before)| + |Pass(lines, before)|;
    }
  }

  lemma {:induction false} PassesExtend(lines: seq<Line>, k: nat, n: nat)
    requires k <= n
    ensures Passes(lines, k) <= Passes(lines, n)
  {
    if k < n { PassesExtend(lines, k, n - 1); }
  }

  lemma {:induction false} RowInPasses(lines: seq<Line>, k: nat, n: nat)
    requires k < n
    ensures Passes(lines, k) + Pass(lines, k) <= Passes(lines, n)
  {
    PassesExtend(lines, k + 1, n);
  }

  lemma {:induction false} SlotInPasses(lines: seq<Line>, p: nat, k: nat, n: nat)
    requires p < |lines| && k < |lines[p].members| && k < n
    ensures Slot(lines, p, k) < |Passes(lines, n)| && Passes(lines, n)[Slot(lines, p, k)] == lines[p].members[k]
  {
    PassPlacesInTurn(lines, k, p);
    PlaceInPasses(lines, k, n, Ahead(lines, p, k), lines[p].members[k]);
  }

  lemma {:induction false} PlaceInPasses(lines: seq<Line>, k: nat, n: nat, at: nat, job: Job)
    requires k < n && at < |Pass(lines, k)| && Pass(lines, k)[at] == job
    ensures Served(lines, k) + at < |Passes(lines, n)| && Passes(lines, n)[Served(lines, k) + at] == job
  {
    PassesLength(lines, k);
    RowInPasses(lines, k, n);
    PlaceInPrefix(Passes(lines, k), Pass(lines, k), Passes(lines, n), Served(lines, k), at, job);
  }

  lemma {:induction false} PlaceInPrefix(before: seq<Job>, row: seq<Job>, whole: seq<Job>, served: nat, at: nat, job: Job)
    requires before + row <= whole && |before| == served && at < |row| && row[at] == job
    ensures served + at < |whole| && whole[served + at] == job
  {
    assert (before + row)[served + at] == job;
  }

  /**
    The position formula: the k-th job of the p-th tenant stands behind the first k jobs of
    everybody and behind the k-th jobs of the tenants whose turn comes first.
   */
  lemma {:induction false} SlotOfJob(pending: seq<Job>, p: nat, k: nat)
    requires p < |Turns(pending)| && k < |Turns(pending)[p].members|
    ensures Slot(Turns(pending), p, k) < |FairSequence(pending)|
    ensures FairSequence(pending)[Slot(Turns(pending), p, k)] == Turns(pending)[p].members[k]
  {
    TurnsAreOwned(pending);
    SlotInPasses(Turns(pending), p, k, |pending|);
  }

  lemma {:induction false} ServedAtMost(lines: seq<Line>, k: nat)
    ensures Served(lines, k) <= k * |lines|
  {
    if lines != [] {
      ServedAtMost(lines[..|lines| - 1], k);
      assert k * |lines| == k * (|lines| - 1) + k;
    }
  }

  lemma {:induction false} AheadAtMost(lines: seq<Line>, p: nat, k: nat)
    requires p <= |lines|
    ensures Ahead(lines, p, k) <= p
  {
    if p > 0 { AheadAtMost(lines, p - 1, k); }
  }

  /** A tenant's wait depends on the number of tenants, not on anybody's backlog. */
  lemma {:induction false} WaitIsBoundedByTenants(lines: seq<Line>, p: nat, k: nat)
    requires p < |lines|
    ensures Slot(lines, p, k) < (k + 1) * |lines|
  {
    ServedAtMost(lines, k);
    AheadAtMost(lines, p, k);
    assert (k + 1) * |lines| == k * |lines| + |lines|;
  }

  lemma {:induction false} EmptyPassMeansDone(lines: seq<Line>, k: nat, n: nat)
    requires k <= n && Pass(lines, k) == []
    ensures Served(lines, n) == Served(lines, k)
  {
    if lines != [] { EmptyPassMeansDone(lines[..|lines| - 1], k, n); }
  }

  /** The loop that fills `byTenant`. */
  method GroupByTenant(pending: seq<Job>) returns (byTenant: seq<Line>)
    ensures byTenant == GroupAll(Tagged(pending))
  {
    byTenant := [];
    for i := 0 to |pending|
      invariant byTenant == GroupAll(Tagged(pending[..i]))
    {
      var job := pending[i];
      assert Tagged(pending[..i + 1])[..i] == Tagged(pending[..i]);
      var at := IndexOf(byTenant, job.tenantId);
      if at == |byTenant| {
        byTenant := byTenant + [Group(job.tenantId, [job])];
      } else {
        byTenant := byTenant[at := Group(job.tenantId, byTenant[at].members + [job])];
      }
    }
    assert pending[..|pending|] == pending;
  }

  /** The loop that sorts every tenant's array in place. */
  method SortEachTenant(groups: seq<Line>) returns (byTenant: seq<Line>)
    ensures byTenant == SortLines(groups)
  {
    byTenant := groups;
    for g := 0 to |groups|
      invariant |byTenant| == |groups|
      invariant forall i :: 0 <= i < g ==> byTenant[i] == SortLines(groups)[i]
      invariant forall i :: g <= i < |groups| ==> byTenant[i] == groups[i]
    {
      byTenant := byTenant[g := Group(byTenant[g].key, Sort(byTenant[g].members, QueuedAt))];
    }
  }

  /** One turn of the inner loop: the next job of each tenant that still has one. */
  method TakePass(tenants: seq<Line>, pass: nat, before: seq<Job>) returns (ordered: seq<Job>, placedThisPass: nat)
    ensures ordered == before + Pass(tenants, pass)
    ensures placedThisPass == |Pass(tenants, pass)|
  {
    ordered, placedThisPass := before, 0;
    for i := 0 to |tenants|
      invariant ordered == before + Pass(tenants[..i], pass)
      invariant placedThisPass == |Pass(tenants[..i], pass)|
    {
      assert tenants[..i + 1][..i] == tenants[..i];
      if pass < |tenants[i].members| {
        ordered := ordered + [tenants[i].members[pass]];
        placedThisPass := placedThisPass + 1;
      }
    }
    assert tenants[..|tenants|] == tenants;
  }

  /** While anything is left to place, the next pass places something. */
  lemma {:induction false} PassIsNotEmpty(lines: seq<Line>, k: nat, n: nat)
    requires k <= n && |Passes(lines, k)| < |Passes(lines, n)|
    ensures Pass(lines, k) != []
  {
    PassesLength(lines, k);
    PassesLength(lines, n);
    if Pass(lines, k) == [] { EmptyPassMeansDone(lines, k, n); }
  }

  lemma {:induction false} PassFits(lines: seq<Line>, k: nat, n: nat)
    requires k < n
    ensures |Passes(lines, k)| + |Pass(lines, k)| <= |Passes(lines, n)|
  {
    PassesExtend(lines, k + 1, n);
  }

  /** What one more pass does while anything is left to place. */
  lemma {:induction false} NextPass(lines: seq<Line>, k: nat, n: nat)
    requires k <= n && |Passes(lines, k)| < |Passes(lines, n)|
    ensures k < n && Passes(lines, k + 1) == Passes(lines, k) + Pass(lines, k)
    ensures |Pass(lines, k)| > 0 && |Passes(lines, k)| + |Pass(lines, k)| <= |Passes(lines, n)|
  {
    PassIsNotEmpty(lines, k, n);
    PassFits(lines, k, n);
  }

  lemma {:induction false} PassesComplete(lines: seq<Line>, k: nat, n: nat)
    requires k <= n && |Passes(lines, k)| == |Passes(lines, n)|
    ensures Passes(lines, k) == Passes(lines, n)
  {
    PassesExtend(lines, k, n);
  }

  /** The first passes are placed, each of them at least one job. */
  ghost predicate PlacedSoFar(lines: seq<Line>, total: nat, pass: nat, ordered: seq<Job>) {
    ordered == Passes(lines, pass) && pass <= |ordered| <= total == |Passes(lines, total)|
  }

  lemma {:induction false} OnePassMore(lines: seq<Line>, total: nat, pass: nat, ordered: seq<Job>)
    requires PlacedSoFar(lines, total, pass, ordered) && |ordered| < total
    ensures Pass(lines, pass) != [] && PlacedSoFar(lines, total, pass + 1, ordered + Pass(lines, pass))
  {
    NextPass(lines, pass, total);
  }

  lemma {:induction false} AllPlaced(lines: seq<Line>, total: nat, pass: nat, ordered: seq<Job>)
    requires PlacedSoFar(lines, total, pass, ordered) && |ordered| == total
    ensures ordered == Passes(lines, total)
  {
    PassesComplete(lines, pass, total);
  }

  /** The loop over passes. The `placedThisPass === 0` exit is never taken. */
  method TakePasses(tenants: seq<Line>, total: nat) returns (ordered: seq<Job>)
    requires |Passes(tenants, total)| == total
    ensures ordered == Passes(tenants, total)
  {
    ordered := [];
    var pass, placed := 0, 0;
    while placed < total
      invariant PlacedSoFar(tenants, total, pass, ordered) && placed == |ordered|
      decreases total - placed
    {
      OnePassMore(tenants, total, pass, ordered);
      var placedThisPass;
      ordered, placedThisPass := TakePass(tenants, pass, ordered);
      placed := placed + placedThisPass;
      if placedThisPass == 0 { break; }
      pass := pass + 1;
    }
    AllPlaced(tenants, total, pass, ordered);
  }

  /** Group, sort in place, then take passes. */
  method FairOrder(pending: seq<Job>) returns (ordered: seq<Job>)
    ensures ordered == FairSequence(pending)
  {
    var byTenant := GroupByTenant(pending);
    byTenant := SortEachTenant(byTenant);
    var tenants := Sort(byTenant, Oldest);
    FairSequencePermutes(pending);
    ordered := TakePasses(tenants, |pending|);
  }

  lemma {:induction false} OldestOfOwnLine(pending: seq<Job>, line: Line, job: Job)
    requires job in pending && line.key == job.tenantId
    requires line.members == Sort(JobsOf(pending, line.key), QueuedAt) != []
    ensures Oldest(line) <= job.queuedAt
  {
    SortIsStable(JobsOf(pending, line.key), QueuedAt);
    CountedUnderOwnTenant(pending, job);
    assert job in multiset(pending) && job in multiset(line.members);
    var j :| 0 <= j < |line.members| && line.members[j] == job;
    assert j == 0 || QueuedAt(line.members[0]) <= QueuedAt(line.members[j]);
  }

  /**
    The guarantee is per call: the head is always the oldest job of all, so a caller that took
    only the head and called again would serve oldest-first across tenants.
   */
  lemma {:induction false} HeadIsOldestOfAll(pending: seq<Job>)
    requires pending != []
    ensures FairSequence(pending) != []
    ensures forall job :: job in pending ==> FairSequence(pending)[0].queuedAt <= job.queuedAt
  {
    var lines := Turns(pending);
    TurnsWellFormed(pending);
    assert Ascending(lines, Oldest) by { SortIsStable(SortLines(GroupAll(Tagged(pending))), Oldest); }
    assert pending[0] in pending;
    assert FairSequence(pending) != [] && FairSequence(pending)[0] == lines[0].members[0] by {
      SlotOfJob(pending, 0, 0);
      ServedNone(lines);
    }
    forall job | job in pending ensures Oldest(lines[0]) <= job.queuedAt {
      var p :| 0 <= p < |lines| && lines[p].key == job.tenantId;
      OldestOfOwnLine(pending, lines[p], job);
      assert p == 0 || Oldest(lines[0]) <= Oldest(lines[p]);
    }
  }

  function RemoveFirst(jobs: seq<Job>, job: Job): (r: seq<Job>)
    requires job in jobs
    ensures |r| == |jobs| - 1
  {
    if jobs[0] == job then jobs[1..] else [jobs[0]] + RemoveFirst(jobs[1..], job)
  }

  lemma {:induction false} RemoveFirstRemovesOne(jobs: seq<Job>, job: Job)
    requires job in jobs
    ensures multiset(jobs) == multiset(RemoveFirst(jobs, job)) + multiset{job}
  {
    assert jobs == [jobs[0]] + jobs[1..];
    if jobs[0] != job { RemoveFirstRemovesOne(jobs[1..], job); }
  }

  lemma {:induction false} HeadIsPending(pending: seq<Job>)
    requires pending != []
    ensures FairSequence(pending) != [] && FairSequence(pending)[0] in pending
  {
    HeadIsOldestOfAll(pending);
    FairSequencePermutes(pending);
    assert FairSequence(pending)[0] in multiset(pending);
  }

  /** What a caller serves that takes only the head of the fair order, over and over. */
  function ServedByHeads(pending: seq<Job>): seq<Job>
    decreases |pending|
  {
    if pending == [] then []
    else
      HeadIsPending(pending);
      var head := FairSequence(pending)[0];
      [head] + ServedByHeads(RemoveFirst(pending, head))
  }

  /** That caller serves everything oldest first across tenants, whosever it is. */
  lemma {:induction false} HeadsComeOldestFirst(pending: seq<Job>)
    ensures multiset(ServedByHeads(pending)) == multiset(pending) && Ascending(ServedByHeads(pending), QueuedAt)
    decreases |pending|
  {
    if pending != [] {
      HeadIsPending(pending);
      HeadIsOldestOfAll(pending);
      var head := FairSequence(pending)[0];
      var rest := RemoveFirst(pending, head);
      RemoveFirstRemovesOne(pending, head);
      HeadsComeOldestFirst(rest);
      HeadThenTheRest(pending, head, rest, ServedByHeads(rest));
    }
  }

  lemma {:induction false} HeadThenTheRest(pending: seq<Job>, head: Job, rest: seq<Job>, later: seq<Job>)
    requires multiset(pending) == multiset(rest) + multiset{head} && multiset(later) == multiset(rest)
    requires Ascending(later, QueuedAt) && forall job :: job in pending ==> head.queuedAt <= job.queuedAt
    ensures multiset([head] + later) == multiset(pending) && Ascending([head] + later, QueuedAt)
  {
    forall i | 0 <= i < |later| ensures head.queuedAt <= later[i].queuedAt {
      assert later[i] in multiset(later);
      assert later[i] in multiset(pending);
    }
  }

  // ----- the admission plan -----

  /** `concurrencySlotsFor` */
  function ConcurrencySlotsFor(inFlight: int, limit: int): int {
    if limit - inFlight > 0 then limit - inFlight else 0
  }

  function InFlight(used: map<string, nat>, tenant: string): nat {
    if tenant in used then used[tenant] else 0
  }

  /** Dispatched is every job with fewer jobs of its own tenant before it than its tenant has slots. */
  function Dispatched(ordered: seq<Job>, used: map<string, nat>, limit: int): seq<Job> {
    if ordered == [] then []
    else
      var front, job := ordered[..|ordered| - 1], ordered[|ordered| - 1];
      var before := Dispatched(front, used, limit);
      if |JobsOf(front, job.tenantId)| < ConcurrencySlotsFor(InFlight(used, job.tenantId), limit)
      then before + [job] else before
  }

  function Deferred(ordered: seq<Job>, used: map<string, nat>, limit: int): seq<Job> {
    if ordered == [] then []
    else
      var front, job := ordered[..|ordered| - 1], ordered[|ordered| - 1];
      var before := Deferred(front, used, limit);
      if |JobsOf(front, job.tenantId)| < ConcurrencySlotsFor(InFlight(used, job.tenantId), limit)
      then before else before + [job]
  }

  /** How many of a tenant's own jobs are dispatched. */
  function Share(ordered: seq<Job>, used: map<string, nat>, limit: int, tenant: string): (n: nat)
    ensures n <= |JobsOf(ordered, tenant)|
  {
    Min(|JobsOf(ordered, tenant)|, ConcurrencySlotsFor(InFlight(used, tenant), limit))
  }

  /** Another tenant's job changes nothing in line. */
  lemma {:induction false} OtherJobInLine(front: seq<Job>, job: Job, dispatched: seq<Job>, deferred: seq<Job>, tenant: string)
    requires job.tenantId != tenant
    ensures JobsOf(front + [job], tenant) == JobsOf(front, tenant)
    ensures JobsOf(dispatched + [job], tenant) == JobsOf(dispatched, tenant)
    ensures JobsOf(deferred + [job], tenant) == JobsOf(deferred, tenant)
  {
    JobsOfExtended(front, job, tenant);
    JobsOfExtended(dispatched, job, tenant);
    JobsOfExtended(deferred, job, tenant);
  }

  /** One more of the tenant's own jobs is dispatched if there is a slot beyond the jobs before it. */
  lemma {:induction false} OwnJobInLine(front: seq<Job>, job: Job, dispatched: seq<Job>, deferred: seq<Job>, slots: nat)
    requires JobsOf(dispatched, job.tenantId) == JobsOf(front, job.tenantId)[..Min(|JobsOf(front, job.tenantId)|, slots)]
    requires JobsOf(deferred, job.tenantId) == JobsOf(front, job.tenantId)[Min(|JobsOf(front, job.tenantId)|, slots)..]
    ensures var own := JobsOf(front + [job], job.tenantId);
            if |JobsOf(front, job.tenantId)| < slots
            then JobsOf(dispatched + [job], job.tenantId) == own[..Min(|own|, slots)]
                 && JobsOf(deferred, job.tenantId) == own[Min(|own|, slots)..]
            else JobsOf(dispatched, job.tenantId) == own[..Min(|own|, slots)]
                 && JobsOf(deferred + [job], job.tenantId) == own[Min(|own|, slots)..]
  {
    JobsOfExtended(front, job, job.tenantId);
    JobsOfExtended(dispatched, job, job.tenantId);
    JobsOfExtended(deferred, job, job.tenantId);
  }

  /** Each tenant gets exactly the front of its own line, as long as its free slots; the rest waits. */
  lemma {:induction false} DispatchTakesTheFront(ordered: seq<Job>, used: map<string, nat>, limit: int, tenant: string)
    ensures JobsOf(Dispatched(ordered, used, limit), tenant) == JobsOf(ordered, tenant)[..Share(ordered, used, limit, tenant)]
    ensures JobsOf(Deferred(ordered, used, limit), tenant) == JobsOf(ordered, tenant)[Share(ordered, used, limit, tenant)..]
  {
    if ordered == [] {
      assert Tagged([]) == [];
    } else {
      var front, job := ordered[..|ordered| - 1], ordered[|ordered| - 1];
      DispatchTakesTheFront(front, used, limit, tenant);
      var dispatched, deferred := Dispatched(front, used, limit), Deferred(front, used, limit);
      if job.tenantId == tenant {
        OwnJobInLine(front, job, dispatched, deferred, ConcurrencySlotsFor(InFlight(used, tenant), limit));
      } else {
        OtherJobInLine(front, job, dispatched, deferred, tenant);
      }
      assert ordered == front + [job];
    }
  }

  /**
    The cap: nobody is dispatched past the limit, counting what was in flight, and nobody is deferred
    short of it.
   */
  lemma {:induction false} DispatchFillsTheLimit(ordered: seq<Job>, inFlight: map<string, nat>, limit: int, tenant: string)
    ensures var running := (if tenant in inFlight then inFlight[tenant] else 0) + |JobsOf(Dispatched(ordered, inFlight, limit), tenant)|;
            && (JobsOf(Dispatched(ordered, inFlight, limit), tenant) != [] ==> running <= limit)
            && (JobsOf(Deferred(ordered, inFlight, limit), tenant) != [] ==> running >= limit)
    ensures |JobsOf(Dispatched(ordered, inFlight, limit), tenant)| + |JobsOf(Deferred(ordered, inFlight, limit), tenant)|
         == |JobsOf(ordered, tenant)|
  {
    DispatchTakesTheFront(ordered, inFlight, limit, tenant);
  }

  lemma {:induction false} JobsOfExtended(jobs: seq<Job>, job: Job, tenant: string)
    ensures JobsOf(jobs + [job], tenant) == if job.tenantId == tenant then JobsOf(jobs, tenant) + [job] else JobsOf(jobs, tenant)
  {
    JobsOfAppend(jobs, [job], tenant);
    JobsOfOne(job, tenant);
  }

  /** `used` is what was in flight plus what this plan has dispatched. */
  ghost predicate Counts(used: map<string, nat>, inFlight: map<string, nat>, dispatched: seq<Job>) {
    forall t :: InFlight(used, t) == InFlight(inFlight, t) + |JobsOf(dispatched, t)|
  }

  lemma {:induction false} CountOne(used: map<string, nat>, inFlight: map<string, nat>, dispatched: seq<Job>, job: Job)
    requires Counts(used, inFlight, dispatched)
    ensures Counts(used[job.tenantId := InFlight(used, job.tenantId) + 1], inFlight, dispatched + [job])
  {
    forall t: string
      ensures InFlight(used[job.tenantId := InFlight(used, job.tenantId) + 1], t)
           == InFlight(inFlight, t) + |JobsOf(dispatched + [job], t)|
    {
      JobsOfAppend(dispatched, [job], t);
      JobsOfOne(job, t);
    }
  }

  /** The running count admits a job exactly when the plan does. */
  lemma {:induction false} AdmitOne(front: seq<Job>, job: Job, used: map<string, nat>, inFlight: map<string, nat>, limit: int)
    requires Counts(used, inFlight, Dispatched(front, inFlight, limit))
    ensures var admitted := ConcurrencySlotsFor(InFlight(used, job.tenantId), limit) > 0;
            && Dispatched(front + [job], inFlight, limit) == Dispatched(front, inFlight, limit) + (if admitted then [job] else [])
            && Deferred(front + [job], inFlight, limit) == Deferred(front, inFlight, limit) + (if admitted then [] else [job])
  {
    var dispatched := Dispatched(front, inFlight, limit);
    DispatchTakesTheFront(front, inFlight, limit, job.tenantId);
    assert InFlight(used, job.tenantId) == InFlight(inFlight, job.tenantId) + |JobsOf(dispatched, job.tenantId)|;
    assert (front + [job])[..|front|] == front;
  }

  /** The loop of `admissionPlan`, with `used` counting what it has already dispatched. */
  method AdmissionPlan(pending: seq<Job>, inFlight: map<string, nat>, limit: int)
    returns (dispatch: seq<Job>, deferred: seq<Job>)
    ensures dispatch == Dispatched(FairSequence(pending), inFlight, limit)
    ensures deferred == Deferred(FairSequence(pending), inFlight, limit)
  {
    var ordered := FairOrder(pending);
    var used := inFlight;
    dispatch, deferred := [], [];
    for i := 0 to |ordered|
      invariant dispatch == Dispatched(ordered[..i], inFlight, limit)
      invariant deferred == Deferred(ordered[..i], inFlight, limit)
      invariant Counts(used, inFlight, dispatch)
    {
      var job := ordered[i];
      AdmitOne(ordered[..i], job, used, inFlight, limit);
      CountOne(used, inFlight, dispatch, job);
      assert ordered[..i + 1] == ordered[..i] + [job];
      var already := InFlight(used, job.tenantId);
      if ConcurrencySlotsFor(already, limit) > 0 {
        used := used[job.tenantId := already + 1];
        dispatch := dispatch + [job];
      } else {
        deferred := deferred + [job];
      }
    }
    assert ordered[..|ordered|] == ordered;
  }
}
