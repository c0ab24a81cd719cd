/**
  The agent boundaries that a Job Method suggests (packages/types/src/job-method.ts,
  `suggestAgentGroups`). Trimming and lower-casing are parameters: nothing depends on what they do.
 */
module AgentGroups {
  import opened Grouping
  import opened Options
  import opened StableSort

  datatype Text = Text(trim: string -> string, lower: string -> string)

  datatype Row = Row(step: int, tool: Option<string>, approval: Option<string>, mustNever: Option<string>)

  /** What a boundary is drawn from: the tool, whether a person must approve, whether anything is prohibited. */
  datatype Boundary = Boundary(tool: string, approval: bool, restricted: bool)

  const NEGATIVES := ["no", "none", "not required", "n/a", "na", "nil", "-", "no approval"]

  function OrEmpty(cell: Option<string>): string { if cell.Some? then cell.value else "" }

  predicate LooksLikeApprovalRequired(text: Text, cell: Option<string>) {
    var value := text.lower(text.trim(OrEmpty(cell)));
    value != "" && value !in NEGATIVES
  }

  function BoundaryOf(text: Text, row: Row): Boundary {
    var tool := text.lower(text.trim(OrEmpty(row.tool)));
    Boundary(if tool == "" then "unspecified-tool" else tool,
             LooksLikeApprovalRequired(text, row.approval),
             text.trim(OrEmpty(row.mustNever)) != "")
  }

  function ApprovalWord(approval: bool): string { if approval then "approved" else "unapproved" }

  function RestrictedWord(restricted: bool): string { if restricted then "restricted" else "open" }

  /** The string under which a boundary is filed. */
  function Key(b: Boundary): string {
    b.tool + "|" + ApprovalWord(b.approval) + "|" + RestrictedWord(b.restricted)
  }

  lemma {:induction false} LastWordReadsBack(front: string, restricted: bool)
    ensures var k := front + "|" + RestrictedWord(restricted);
            && k != [] && (k[|k| - 1] == 'd' <==> restricted)
            && |k| == |front| + 1 + |RestrictedWord(restricted)| && k[..|front|] == front
  {
    var k := front + "|" + RestrictedWord(restricted);
    assert k[|k| - 1] == RestrictedWord(restricted)[|RestrictedWord(restricted)| - 1];
  }

  lemma {:induction false} MiddleWordReadsBack(tool: string, approval: bool)
    ensures var k := tool + "|" + ApprovalWord(approval);
            && |k| >= 9 && (k[|k| - 9] == '|' <==> approval)
            && |k| == |tool| + 1 + |ApprovalWord(approval)| && k[..|tool|] == tool
  {
    var k := tool + "|" + ApprovalWord(approval);
    if !approval { assert k[|k| - 9] == ApprovalWord(approval)[1]; }
  }

  /** The key tells boundaries apart even when a tool contains the separator, or looks like a key itself. */
  lemma {:induction false} KeyIsInjective(a: Boundary, b: Boundary)
    requires Key(a) == Key(b)
    ensures a == b
  {
    LastWordReadsBack(a.tool + "|" + ApprovalWord(a.approval), a.restricted);
    LastWordReadsBack(b.tool + "|" + ApprovalWord(b.approval), b.restricted);
    MiddleWordReadsBack(a.tool, a.approval);
    MiddleWordReadsBack(b.tool, b.approval);
  }

  /** How rows are filed: the boundary of a row, and the key of a boundary. */
  datatype Filing = Filing(bound: Row -> Boundary, key: Boundary -> string)

  ghost predicate TellsApart(f: Filing) {
    forall a, b :: f.key(a) == f.key(b) ==> a == b
  }

  function FilingOf(text: Text): Filing { Filing((row: Row) => BoundaryOf(text, row), (b: Boundary) => Key(b)) }

  lemma {:induction false} FilingTellsApart(text: Text)
    ensures TellsApart(FilingOf(text))
  {
    forall a, b | FilingOf(text).key(a) == FilingOf(text).key(b) ensures a == b {
      KeyIsInjective(a, b);
    }
  }

  function Items(f: Filing, rows: seq<Row>): seq<(string, int)> {
    seq(|rows|, i requires 0 <= i < |rows| => (f.key(f.bound(rows[i])), rows[i].step))
  }

  function StepValue(step: int): real { step as real }

  /** `steps[0] ?? 0` */
  function FirstStep(g: Group<string, int>): real { if g.members == [] then 0.0 else g.members[0] as real }

  function SortSteps(groups: seq<Group<string, int>>): (r: seq<Group<string, int>>) {
    seq(|groups|, i requires 0 <= i < |groups| => Group(groups[i].key, Sort(groups[i].members, StepValue)))
  }

  function Suggested(f: Filing, rows: seq<Row>): seq<Group<string, int>> {
    Sort(SortSteps(GroupAll(Items(f, rows))), FirstStep)
  }

  /** The loop that fills the Map. */
  method GroupRows(f: Filing, rows: seq<Row>) returns (groups: seq<Group<string, int>>)
    ensures groups == GroupAll(Items(f, rows))
  {
    groups := [];
    for i := 0 to |rows|
      invariant groups == GroupAll(Items(f, rows[..i]))
    {
      assert Items(f, rows[..i + 1])[..i] == Items(f, rows[..i]);
      var key := f.key(f.bound(rows[i]));
      var at := IndexOf(groups, key);
      if at == |groups| {
        groups := groups + [Group(key, [rows[i].step])];
      } else {
        groups := groups[at := Group(key, groups[at].members + [rows[i].step])];
      }
    }
    assert rows[..|rows|] == rows;
  }

  /** The map over entries that sorts each array of steps in place. */
  method SortEachGroup(groups: seq<Group<string, int>>) returns (sorted: seq<Group<string, int>>)
    ensures sorted == SortSteps(groups)
  {
    sorted := groups;
    for i := 0 to |groups|
      invariant |sorted| == |groups|
      invariant forall j :: 0 <= j < i ==> sorted[j] == SortSteps(groups)[j]
      invariant forall j :: i <= j < |groups| ==> sorted[j] == groups[j]
    {
      sorted := sorted[i := Group(sorted[i].key, Sort(sorted[i].members, StepValue))];
    }
  }

  method SuggestAgentGroups(text: Text, rows: seq<Row>) returns (result: seq<Group<string, int>>)
    ensures result == Suggested(FilingOf(text), rows)
  {
    var groups := GroupRows(FilingOf(text), rows);
    groups := SortEachGroup(groups);
    result := Sort(groups, FirstStep);
  }

  // ----- what the groups are -----

  /** The steps of the rows with a given boundary, in row order. */
  function StepsWith(f: Filing, rows: seq<Row>, b: Boundary): seq<int> {
    if rows == [] then []
    else
      var last, before := rows[|rows| - 1], StepsWith(f, rows[..|rows| - 1], b);
      if f.bound(last) == b then before + [last.step] else before
  }

  lemma {:induction false} FiledUnderBoundary(f: Filing, rows: seq<Row>, b: Boundary)
    requires TellsApart(f)
    ensures ValuesFor(Items(f, rows), f.key(b)) == StepsWith(f, rows, b)
  {
    if rows != [] {
      var front, last := rows[..|rows| - 1], rows[|rows| - 1];
      FiledUnderBoundary(f, front, b);
      assert Items(f, rows)[..|front|] == Items(f, front);
    }
  }

  function Steps(rows: seq<Row>): seq<int> { seq(|rows|, i requires 0 <= i < |rows| => rows[i].step) }

  function GroupFor(f: Filing, rows: seq<Row>, b: Boundary): Group<string, int> {
    Group(f.key(b), Sort(StepsWith(f, rows, b), StepValue))
  }

  ghost predicate HasBoundary(f: Filing, rows: seq<Row>, b: Boundary) {
    exists row :: row in rows && f.bound(row) == b
  }

  /** One group for each boundary that occurs, with the steps of exactly its rows. */
  ghost predicate GroupsByBoundary(f: Filing, rows: seq<Row>, groups: seq<Group<string, int>>) {
    && Distinct(groups)
    && (forall g :: g in groups ==> g.members != [] && exists b :: HasBoundary(f, rows, b) && g == GroupFor(f, rows, b))
    && (forall b :: HasBoundary(f, rows, b) ==> GroupFor(f, rows, b) in groups)
  }

  lemma {:induction false} EachGroupIsABoundary(f: Filing, rows: seq<Row>, i: nat)
    requires TellsApart(f) && i < |GroupAll(Items(f, rows))|
    ensures var g := SortSteps(GroupAll(Items(f, rows)))[i];
            g.members != [] && exists b :: HasBoundary(f, rows, b) && g == GroupFor(f, rows, b)
  {
    var items := Items(f, rows);
    var g := GroupAll(items)[i];
    GroupsAreTheFibres(items);
    var j := KeyComesFromAnItem(items, g.key);
    var b := f.bound(rows[j]);
    FiledUnderBoundary(f, rows, b);
    assert rows[j] in rows;
    assert HasBoundary(f, rows, b);
  }

  lemma {:induction false} EachBoundaryHasAGroup(f: Filing, rows: seq<Row>, b: Boundary)
    requires TellsApart(f) && HasBoundary(f, rows, b)
    ensures GroupFor(f, rows, b) in SortSteps(GroupAll(Items(f, rows)))
  {
    var items := Items(f, rows);
    var groups := GroupAll(items);
    GroupsAreTheFibres(items);
    var row :| row in rows && f.bound(row) == b;
    var j :| 0 <= j < |rows| && rows[j] == row;
    assert items[j].0 in Keys(groups);
    var i :| 0 <= i < |groups| && Keys(groups)[i] == f.key(b);
    FiledUnderBoundary(f, rows, b);
    assert SortSteps(groups)[i] == GroupFor(f, rows, b);
  }

  lemma {:induction false} SortedGroupsByBoundary(f: Filing, rows: seq<Row>)
    requires TellsApart(f)
    ensures GroupsByBoundary(f, rows, SortSteps(GroupAll(Items(f, rows))))
  {
    var groups := GroupAll(Items(f, rows));
    var sorted := SortSteps(groups);
    assert Distinct(sorted) by {
      GroupsAreTheFibres(Items(f, rows));
      forall i | 0 <= i < |groups| ensures Keys(groups)[i] == sorted[i].key {}
    }
    forall g | g in sorted ensures g.members != [] && exists b :: HasBoundary(f, rows, b) && g == GroupFor(f, rows, b) {
      var i :| 0 <= i < |sorted| && sorted[i] == g;
      EachGroupIsABoundary(f, rows, i);
    }
    forall b | HasBoundary(f, rows, b) ensures GroupFor(f, rows, b) in sorted {
      EachBoundaryHasAGroup(f, rows, b);
    }
  }

  lemma {:induction false} KeyComesFromAnItem(items: seq<(string, int)>, key: string) returns (j: nat)
    requires ValuesFor(items, key) != []
    ensures j < |items| && items[j].0 == key
  {
    if items[|items| - 1].0 == key {
      j := |items| - 1;
    } else {
      j := KeyComesFromAnItem(items[..|items| - 1], key);
    }
  }

  lemma {:induction false} ByBoundaryInAnyOrder(f: Filing, rows: seq<Row>, a: seq<Group<string, int>>, b: seq<Group<string, int>>)
    requires GroupsByBoundary(f, rows, a) && multiset(a) == multiset(b)
    ensures GroupsByBoundary(f, rows, b)
  {
    DistinctSurvivesPermutation(a, b);
    forall g ensures g in a <==> g in b {
      assert g in a <==> g in multiset(a);
    }
  }

  /**
    The groups are one per boundary that occurs, so two rows share a group exactly when their tool,
    approval requirement and prohibitions agree; steps ascend within a group and groups are ordered
    by their first step.
   */
  lemma {:induction false} GroupsAreTheBoundaries(f: Filing, rows: seq<Row>)
    requires TellsApart(f)
    ensures GroupsByBoundary(f, rows, Suggested(f, rows))
    ensures forall g :: g in Suggested(f, rows) ==> Ascending(g.members, StepValue)
    ensures Ascending(Suggested(f, rows), FirstStep)
  {
    var sorted := SortSteps(GroupAll(Items(f, rows)));
    SortedGroupsByBoundary(f, rows);
    SortIsStable(sorted, FirstStep);
    ByBoundaryInAnyOrder(f, rows, sorted, Suggested(f, rows));
    forall g | g in Suggested(f, rows) ensures Ascending(g.members, StepValue) {
      var b :| HasBoundary(f, rows, b) && g == GroupFor(f, rows, b);
      SortIsStable(StepsWith(f, rows, b), StepValue);
    }
  }

  lemma {:induction false} SortingStepsKeepsThem(groups: seq<Group<string, int>>)
    ensures multiset(Flatten(SortSteps(groups))) == multiset(Flatten(groups))
  {
    if groups == [] {
      assert SortSteps(groups) == [];
    } else {
      SortingStepsKeepsThem(groups[1..]);
      SortIsStable(groups[0].members, StepValue);
      assert SortSteps(groups)[1..] == SortSteps(groups[1..]);
    }
  }

  /** The steps of the groups are exactly the steps of the rows, each as often. */
  lemma {:induction false} GroupsPartitionTheSteps(f: Filing, rows: seq<Row>)
    ensures multiset(Flatten(Suggested(f, rows))) == multiset(Steps(rows))
  {
    var groups := GroupAll(Items(f, rows));
    GroupingIsAPartition(Items(f, rows));
    assert Values(Items(f, rows)) == Steps(rows);
    SortingStepsKeepsThem(groups);
    SortIsStable(SortSteps(groups), FirstStep);
    FlattenIgnoresOrder(SortSteps(groups), Suggested(f, rows));
  }

  // ----- the order of the rows -----

  lemma {:induction false} StepsWithAppend(f: Filing, a: seq<Row>, c: seq<Row>, b: Boundary)
    ensures StepsWith(f, a + c, b) == StepsWith(f, a, b) + StepsWith(f, c, b)
  {
    if c == [] {
      assert a + c == a;
    } else {
      StepsWithAppend(f, a, c[..|c| - 1], b);
      assert (a + c)[..|a + c| - 1] == a + c[..|c| - 1];
    }
  }

  lemma {:induction false} StepsWithTakeOut(f: Filing, before: seq<Row>, row: Row, later: seq<Row>, b: Boundary)
    ensures multiset(StepsWith(f, before + [row] + later, b))
         == multiset(StepsWith(f, before + later, b)) + multiset(StepsWith(f, [row], b))
  {
    StepsWithAppend(f, before + [row], later, b);
    StepsWithAppend(f, before, [row], b);
    StepsWithAppend(f, before, later, b);
  }

  lemma {:induction false} StepsWithIgnoresOrder(f: Filing, rows: seq<Row>, others: seq<Row>, b: Boundary)
    requires multiset(rows) == multiset(others)
    ensures multiset(StepsWith(f, rows, b)) == multiset(StepsWith(f, others, b))
  {
    if rows == [] {
      assert |multiset(others)| == 0;
    } else {
      var front, last := rows[..|rows| - 1], rows[|rows| - 1];
      assert rows == front + [last];
      assert last in multiset(others);
      var i :| 0 <= i < |others| && others[i] == last;
      var before, later := others[..i], others[i + 1..];
      assert others == before + [last] + later;
      MatchingEnds(front, last, before, later);
      StepsWithIgnoresOrder(f, front, before + later, b);
      StepsWithTakeOut(f, before, last, later, b);
      StepsWithAppend(f, front, [last], b);
    }
  }

  lemma {:induction false} SameGroupForBoundary(f: Filing, rows: seq<Row>, others: seq<Row>, b: Boundary)
    requires multiset(rows) == multiset(others)
    ensures HasBoundary(f, rows, b) ==> HasBoundary(f, others, b)
    ensures GroupFor(f, rows, b) == GroupFor(f, others, b)
  {
    if HasBoundary(f, rows, b) {
      var row :| row in rows && f.bound(row) == b;
      assert row in multiset(others);
    }
    StepsWithIgnoresOrder(f, rows, others, b);
    SortIsCanonical(StepsWith(f, rows, b), StepsWith(f, others, b), StepValue);
  }

  lemma {:induction false} SameGroupsInAnyOrder(f: Filing, rows: seq<Row>, others: seq<Row>, mine: seq<Group<string, int>>, theirs: seq<Group<string, int>>)
    requires multiset(rows) == multiset(others)
    requires GroupsByBoundary(f, rows, mine) && GroupsByBoundary(f, others, theirs)
    ensures forall g :: g in mine ==> g in theirs
  {
    forall g | g in mine ensures g in theirs {
      var b :| HasBoundary(f, rows, b) && g == GroupFor(f, rows, b);
      SameGroupForBoundary(f, rows, others, b);
    }
  }

  lemma {:induction false} StepComesFromARow(f: Filing, rows: seq<Row>, b: Boundary, step: int) returns (i: nat)
    requires step in StepsWith(f, rows, b)
    ensures i < |rows| && rows[i].step == step && f.bound(rows[i]) == b
  {
    if rows[|rows| - 1].step == step && f.bound(rows[|rows| - 1]) == b {
      i := |rows| - 1;
    } else {
      i := StepComesFromARow(f, rows[..|rows| - 1], b, step);
    }
  }

  lemma {:induction false} FirstStepIsOfBoundary(f: Filing, rows: seq<Row>, b: Boundary) returns (i: nat)
    requires GroupFor(f, rows, b).members != []
    ensures i < |rows| && rows[i].step == GroupFor(f, rows, b).members[0] && f.bound(rows[i]) == b
  {
    MembersOfSort(StepsWith(f, rows, b), StepValue);
    i := StepComesFromARow(f, rows, b, GroupFor(f, rows, b).members[0]);
  }

  lemma {:induction false} SameFirstStepSameBoundary(f: Filing, rows: seq<Row>, a: Boundary, b: Boundary)
    requires Distinct(Steps(rows))
    requires GroupFor(f, rows, a).members != [] && GroupFor(f, rows, b).members != []
    requires FirstStep(GroupFor(f, rows, a)) == FirstStep(GroupFor(f, rows, b))
    ensures a == b
  {
    var i := FirstStepIsOfBoundary(f, rows, a);
    var j := FirstStepIsOfBoundary(f, rows, b);
    assert Steps(rows)[i] == Steps(rows)[j];
  }

  lemma {:induction false} FirstStepIdentifies(f: Filing, rows: seq<Row>, groups: seq<Group<string, int>>)
    requires Distinct(Steps(rows)) && GroupsByBoundary(f, rows, groups)
    ensures KeyIdentifies(groups, FirstStep)
  {
    forall m, n | 0 <= m < |groups| && 0 <= n < |groups| && FirstStep(groups[m]) == FirstStep(groups[n])
      ensures groups[m] == groups[n]
    {
      assert groups[m] in groups && groups[n] in groups;
      var a :| HasBoundary(f, rows, a) && groups[m] == GroupFor(f, rows, a);
      var b :| HasBoundary(f, rows, b) && groups[n] == GroupFor(f, rows, b);
      SameFirstStepSameBoundary(f, rows, a, b);
    }
  }

  /** With distinct steps the suggestion does not depend on the order in which rows are listed. */
  lemma {:induction false} SuggestionIgnoresRowOrder(f: Filing, rows: seq<Row>, others: seq<Row>)
    requires TellsApart(f) && multiset(rows) == multiset(others) && Distinct(Steps(rows))
    ensures Suggested(f, rows) == Suggested(f, others)
  {
    var a, b := SortSteps(GroupAll(Items(f, rows))), SortSteps(GroupAll(Items(f, others)));
    SortedGroupsByBoundary(f, rows);
    SortedGroupsByBoundary(f, others);
    SameGroupsInAnyOrder(f, rows, others, a, b);
    SameGroupsInAnyOrder(f, others, rows, b, a);
    SameMembersPermute(a, b);
    FirstStepIdentifies(f, rows, a);
    SortIsCanonical(a, b, FirstStep);
  }

  /** Two rows end up in one group exactly when their tool, approval requirement and prohibitions agree. */
  lemma {:induction false} RowsShareAGroupExactlyWhen(text: Text, rows: seq<Row>, i: nat, j: nat)
    requires i < |rows| && j < |rows|
    ensures var f := FilingOf(text);
            var mine, theirs := GroupFor(f, rows, BoundaryOf(text, rows[i])), GroupFor(f, rows, BoundaryOf(text, rows[j]));
            && mine in Suggested(f, rows) && rows[i].step in mine.members
            && theirs in Suggested(f, rows) && rows[j].step in theirs.members
            && (mine == theirs <==>
                  && Tool(text, rows[i]) == Tool(text, rows[j])
                  && (NeedsApproval(text, rows[i].approval) <==> NeedsApproval(text, rows[j].approval))
                  && (Cell(text, rows[i].mustNever) == "" <==> Cell(text, rows[j].mustNever) == ""))
  {
    var f := FilingOf(text);
    SameBoundaryExactlyWhen(text, rows[i], rows[j]);
    FilingTellsApart(text);
    GroupsAreTheBoundaries(f, rows);
    RowIsInItsGroup(f, rows, i);
    RowIsInItsGroup(f, rows, j);
  }

  function Cell(text: Text, cell: Option<string>): string { text.trim(if cell.Some? then cell.value else "") }

  /** A person has to approve unless the cell is blank or says so in one of the listed ways. */
  predicate NeedsApproval(text: Text, cell: Option<string>) {
    text.lower(Cell(text, cell)) !in ["", "no", "none", "not required", "n/a", "na", "nil", "-", "no approval"]
  }

  /** The tool without outer blanks and case; a row without one counts as naming the stand-in. */
  function Tool(text: Text, row: Row): string {
    if text.lower(Cell(text, row.tool)) == "" then "unspecified-tool" else text.lower(Cell(text, row.tool))
  }

  /** What a boundary is drawn from, cell by cell. */
  lemma {:induction false} SameBoundaryExactlyWhen(text: Text, x: Row, y: Row)
    ensures BoundaryOf(text, x) == Boundary(Tool(text, x), NeedsApproval(text, x.approval), Cell(text, x.mustNever) != "")
    ensures BoundaryOf(text, x) == BoundaryOf(text, y) <==>
            && Tool(text, x) == Tool(text, y)
            && (NeedsApproval(text, x.approval) <==> NeedsApproval(text, y.approval))
            && (Cell(text, x.mustNever) == "" <==> Cell(text, y.mustNever) == "")
  {
  }

  lemma {:induction false} RowIsInItsGroup(f: Filing, rows: seq<Row>, i: nat)
    requires i < |rows|
    ensures HasBoundary(f, rows, f.bound(rows[i])) && rows[i].step in GroupFor(f, rows, f.bound(rows[i])).members
  {
    var b := f.bound(rows[i]);
    assert rows[i] in rows;
    StepIsWithItsRow(f, rows, i);
    MembersOfSort(StepsWith(f, rows, b), StepValue);
  }

  lemma {:induction false} StepIsWithItsRow(f: Filing, rows: seq<Row>, i: nat)
    requires i < |rows|
    ensures rows[i].step in StepsWith(f, rows, f.bound(rows[i]))
  {
    if i < |rows| - 1 {
      StepIsWithItsRow(f, rows[..|rows| - 1], i);
      assert rows[..|rows| - 1][i] == rows[i];
    }
  }
}
