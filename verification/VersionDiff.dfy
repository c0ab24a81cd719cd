/**
  Comparing two versions of an objective (packages/types/src/objectives.ts): the position check of
  `validateForm2WorkflowSteps` and the positional comparison `diffObjectiveVersions`.
 */
module VersionDiff {
  import opened Grouping
  import opened Options
  import opened StableSort

  /** A stored value; one that is undefined is absent from its record. */
  datatype Value = Null | Text(text: string) | Number(n: int)

  type Record = map<string, Value>

  datatype Step = Step(position: Option<int>, cells: Record)

  datatype Version = Version(content: Record, steps: seq<Step>)

  /** The keys that are compared: of the objective, and of a workflow row other than its derived step number. */
  datatype Form = Form(fields: seq<string>, columns: seq<string>)

  const FORM2 := Form(
    ["objectiveName", "departmentId", "objectiveOwnerUserId", "expectedFinalResult", "currentWorkload", "unit",
     "targetCompletionTime", "timeUnit", "preparedBy", "formDate", "responsibleOwnerUserId", "executionTeam"],
    ["whoPersonName", "whoDesignation", "whoEngine", "whenTrigger", "whenFrequency", "whatExactWork",
     "inputWhatIsUsed", "inputReceivedFrom", "whereWorkIsDone", "outputWhatIsProduced", "outputSentTo",
     "timeTaken", "currentProblem", "approval"])

  // ----- what a value looks like -----

  function Digit(d: int): char
    requires 0 <= d < 10
  {
    ('0' as int + d) as char
  }

  /** String(n) for a whole number. */
  function Decimal(n: int): string
    decreases n < 0, if n < 0 then -n else n
  {
    if n < 0 then "-" + Decimal(-n)
    else if n < 10 then [Digit(n)]
    else Decimal(n / 10) + [Digit(n % 10)]
  }

  /** null, undefined and the empty string are all "not set". */
  function DisplayOf(record: Record, key: string): Option<string> {
    if key !in record || record[key] == Null || record[key] == Text("") then None
    else
      match record[key]
      case Text(text) => Some(text)
      case Number(n) => Some(Decimal(n))
  }

  /** The number that a text of digits, with or without a sign, stands for. */
  function NumberOf(text: string): int {
    if text == "" then 0
    else if text[0] == '-' then -NumberOf(text[1..])
    else 10 * NumberOf(text[..|text| - 1]) + (text[|text| - 1] as int - '0' as int)
  }

  lemma {:induction false} DigitsReadBack(n: nat)
    ensures Decimal(n) != "" && Decimal(n)[0] != '-' && NumberOf(Decimal(n)) == n
  {
    if n < 10 {
      assert Decimal(n)[..0] == "";
    } else {
      DigitsReadBack(n / 10);
      LastDigitReadsBack(Decimal(n / 10), Digit(n % 10));
    }
  }

  lemma {:induction false} LastDigitReadsBack(front: string, digit: char)
    requires front != "" && front[0] != '-'
    ensures NumberOf(front + [digit]) == 10 * NumberOf(front) + (digit as int - '0' as int)
  {
    assert (front + [digit])[..|front|] == front && (front + [digit])[0] == front[0];
  }

  /** A displayed number reads back, so different numbers display differently. */
  lemma {:induction false} DecimalReadsBack(n: int)
    ensures NumberOf(Decimal(n)) == n && Decimal(n) != ""
  {
    if n < 0 {
      DigitsReadBack(-n);
      SignReadsBack(Decimal(-n));
      assert Decimal(n) == "-" + Decimal(-n);
    } else {
      DigitsReadBack(n);
    }
  }

  lemma {:induction false} SignReadsBack(digits: string)
    ensures NumberOf("-" + digits) == -NumberOf(digits)
  {
    var text := "-" + digits;
    assert text[0] == '-' && text[1..] == digits;
  }

  /** What is displayed is the text or the number itself; a value that is absent, null or the empty text is not set. */
  lemma {:induction false} DisplayTellsApart(record: Record, key: string)
    ensures var display := DisplayOf(record, key);
            && (display == None <==> key !in record || record[key] == Null || record[key] == Text(""))
            && (display.Some? && record[key].Text? ==> display.value == record[key].text)
            && (display.Some? && record[key].Number? ==> NumberOf(display.value) == record[key].n)
  {
    if key in record && record[key].Number? { DecimalReadsBack(record[key].n); }
  }

  ghost predicate DisplaysTheSame(keys: seq<string>, a: Record, b: Record) {
    forall key :: key in keys ==> DisplayOf(a, key) == DisplayOf(b, key)
  }

  // ----- the comparison -----

  datatype Change = Change(key: string, before: Option<string>, after: Option<string>)

  datatype StepChange =
    | Added(position: int)
    | Removed(position: int)
    | Changed(position: int, cells: seq<Change>)

  datatype Diff = Diff(fields: seq<Change>, steps: seq<StepChange>, identical: bool)

  function Changes(keys: seq<string>, from: Record, to: Record): seq<Change> {
    if keys == [] then []
    else
      var key, before := keys[|keys| - 1], Changes(keys[..|keys| - 1], from, to);
      if DisplayOf(from, key) != DisplayOf(to, key) then before + [Change(key, DisplayOf(from, key), DisplayOf(to, key))]
      else before
  }

  /** `steps.find((step) => step.position === position)` */
  function FindStep(steps: seq<Step>, position: int): (r: Option<Step>)
    ensures r.Some? ==> r.value in steps && r.value.position == Some(position)
    ensures r.None? ==> forall step :: step in steps ==> step.position != Some(position)
  {
    if steps == [] then None
    else if steps[0].position == Some(position) then Some(steps[0])
    else FindStep(steps[1..], position)
  }

  function ChangeAt(columns: seq<string>, position: int, from: Option<Step>, to: Option<Step>): seq<StepChange> {
    match (from, to)
    case (None, None) => []
    case (None, Some(_)) => [Added(position)]
    case (Some(_), None) => [Removed(position)]
    case (Some(a), Some(b)) =>
      var cells := Changes(columns, a.cells, b.cells);
      if cells == [] then [] else [Changed(position, cells)]
  }

  /** parts(1) + ... + parts(n) */
  function Joined<T>(parts: nat -> seq<T>, n: nat): seq<T> {
    if n == 0 then [] else Joined(parts, n - 1) + parts(n)
  }

  /** The change, if any, at each position. */
  function ChangesByPosition(columns: seq<string>, before: seq<Step>, after: seq<Step>): nat -> seq<StepChange> {
    (position: nat) => ChangeAt(columns, position, FindStep(before, position), FindStep(after, position))
  }

  /** The changes at positions 1 to n. */
  function StepChanges(columns: seq<string>, before: seq<Step>, after: seq<Step>, n: nat): seq<StepChange> {
    Joined(ChangesByPosition(columns, before, after), n)
  }

  function Highest(before: Version, after: Version): nat {
    if |before.steps| < |after.steps| then |after.steps| else |before.steps|
  }

  function DiffOf(form: Form, before: Version, after: Version): Diff {
    var fields := Changes(form.fields, before.content, after.content);
    var steps := StepChanges(form.columns, before.steps, after.steps, Highest(before, after));
    Diff(fields, steps, fields == [] && steps == [])
  }

  method CompareRecords(keys: seq<string>, from: Record, to: Record) returns (changes: seq<Change>)
    ensures changes == Changes(keys, from, to)
  {
    changes := [];
    for i := 0 to |keys|
      invariant changes == Changes(keys[..i], from, to)
    {
      assert keys[..i + 1][..i] == keys[..i];
      var cellBefore, cellAfter := DisplayOf(from, keys[i]), DisplayOf(to, keys[i]);
      if cellBefore != cellAfter { changes := changes + [Change(keys[i], cellBefore, cellAfter)]; }
    }
    assert keys[..|keys|] == keys;
  }

  method DiffObjectiveVersions(form: Form, before: Version, after: Version) returns (diff: Diff)
    ensures diff == DiffOf(form, before, after)
  {
    var fields := CompareRecords(form.fields, before.content, after.content);
    var steps: seq<StepChange> := [];
    var highest := Highest(before, after);
    for index := 0 to highest
      invariant steps == StepChanges(form.columns, before.steps, after.steps, index)
    {
      var position := index + 1;
      var from, to := FindStep(before.steps, position), FindStep(after.steps, position);
      if from == None && to == None { continue; }
      if from == None {
        steps := steps + [Added(position)];
        continue;
      }
      if to == None {
        steps := steps + [Removed(position)];
        continue;
      }
      var cells := CompareRecords(form.columns, from.value.cells, to.value.cells);
      if |cells| > 0 { steps := steps + [Changed(position, cells)]; }
    }
    diff := Diff(fields, steps, |fields| == 0 && |steps| == 0);
  }

  // ----- what the comparison reports -----

  /** Every key that displays differently is reported, with what it displayed before and after; no other is. */
  lemma {:induction false} ChangesAreExact(keys: seq<string>, from: Record, to: Record, c: Change)
    ensures c in Changes(keys, from, to) <==>
            c.key in keys && c.before == DisplayOf(from, c.key) && c.after == DisplayOf(to, c.key) && c.before != c.after
  {
    if keys != [] {
      ChangesAreExact(keys[..|keys| - 1], from, to, c);
      assert keys == keys[..|keys| - 1] + [keys[|keys| - 1]];
    }
  }

  /** Changes are reported in the order of the keys. */
  lemma {:induction false} ChangesFollowTheKeys(a: seq<string>, b: seq<string>, from: Record, to: Record)
    ensures Changes(a + b, from, to) == Changes(a, from, to) + Changes(b, from, to)
  {
    if b == [] {
      assert a + b == a;
    } else {
      var front, last := b[..|b| - 1], b[|b| - 1];
      ChangesFollowTheKeys(a, front, from, to);
      assert (a + b)[..|a + b| - 1] == a + front && (a + b)[|a + b| - 1] == last;
    }
  }

  lemma {:induction false} InJoined<T(!new)>(parts: nat -> seq<T>, n: nat, x: T)
    ensures x in Joined(parts, n) <==> exists p: nat :: 1 <= p <= n && x in parts(p)
  {
    if n > 0 {
      var m := n - 1;
      InJoined(parts, m, x);
      assert Joined(parts, n) == Joined(parts, m) + parts(n);
    }
  }

  /** The reported rows: one that only the later version has is added, one that only the earlier has is removed, one with a changed cell is changed. */
  ghost predicate Reports(form: Form, before: Version, after: Version, c: StepChange) {
    var from, to := FindStep(before.steps, c.position), FindStep(after.steps, c.position);
    match c
    case Added(_) => from == None && to.Some?
    case Removed(_) => from.Some? && to == None
    case Changed(_, cells) => from.Some? && to.Some? && cells == Changes(form.columns, from.value.cells, to.value.cells) != []
  }

  /** Every row is reported that is added, removed or changed, up to the length of the longer list; no other is. */
  lemma {:induction false} StepChangesAreExact(form: Form, before: Version, after: Version, c: StepChange)
    ensures c in DiffOf(form, before, after).steps <==>
            1 <= c.position && (c.position <= |before.steps| || c.position <= |after.steps|) && Reports(form, before, after, c)
  {
    var parts := ChangesByPosition(form.columns, before.steps, after.steps);
    InJoined(parts, Highest(before, after), c);
    forall p: nat ensures c in parts(p) <==> p == c.position && Reports(form, before, after, c) {
      ChangeAtIsExact(form, before, after, p, c);
    }
    if 1 <= c.position <= Highest(before, after) && Reports(form, before, after, c) {
      var p: nat := c.position;
      assert c in parts(p);
    }
  }

  lemma {:induction false} ChangeAtIsExact(form: Form, before: Version, after: Version, p: nat, c: StepChange)
    ensures c in ChangeAt(form.columns, p, FindStep(before.steps, p), FindStep(after.steps, p)) <==>
            p == c.position && Reports(form, before, after, c)
  {
  }

  ghost predicate Climbs(steps: seq<StepChange>, n: int) {
    && (forall i :: 0 <= i < |steps| ==> steps[i].position <= n)
    && forall i, j :: 0 <= i < j < |steps| ==> steps[i].position < steps[j].position
  }

  lemma {:induction false} ClimbsOn(steps: seq<StepChange>, part: seq<StepChange>, n: int)
    requires Climbs(steps, n - 1) && |part| <= 1 && forall c :: c in part ==> c.position == n
    ensures Climbs(steps + part, n)
  {
    if part != [] { assert part[0] in part; }
  }

  lemma {:induction false} PartIsOfItsPosition(columns: seq<string>, position: int, from: Option<Step>, to: Option<Step>)
    ensures |ChangeAt(columns, position, from, to)| <= 1
    ensures forall c :: c in ChangeAt(columns, position, from, to) ==> c.position == position
  {
  }

  /** Rows are reported in ascending order of position, each once. */
  lemma {:induction false} StepChangesClimb(columns: seq<string>, before: seq<Step>, after: seq<Step>, n: nat)
    ensures Climbs(StepChanges(columns, before, after, n), n)
  {
    if n > 0 {
      var m := n - 1;
      StepChangesClimb(columns, before, after, m);
      PartIsOfItsPosition(columns, n, FindStep(before, n), FindStep(after, n));
      ClimbsOn(StepChanges(columns, before, after, m), ChangeAt(columns, n, FindStep(before, n), FindStep(after, n)), n);
    }
  }

  // ----- when two versions are identical -----

  lemma {:induction false} NoChangesExactlyWhen(keys: seq<string>, from: Record, to: Record)
    ensures Changes(keys, from, to) == [] <==> DisplaysTheSame(keys, from, to)
  {
    if keys != [] {
      NoChangesExactlyWhen(keys[..|keys| - 1], from, to);
      assert keys == keys[..|keys| - 1] + [keys[|keys| - 1]];
    }
  }

  /** Both rows are missing, or both are there and display the same. */
  ghost predicate SameRow(columns: seq<string>, from: Option<Step>, to: Option<Step>) {
    match (from, to)
    case (None, None) => true
    case (Some(a), Some(b)) => DisplaysTheSame(columns, a.cells, b.cells)
    case _ => false
  }

  lemma {:induction false} NoChangeAtExactlyWhen(columns: seq<string>, position: int, from: Option<Step>, to: Option<Step>)
    ensures ChangeAt(columns, position, from, to) == [] <==> SameRow(columns, from, to)
  {
    if from.Some? && to.Some? { NoChangesExactlyWhen(columns, from.value.cells, to.value.cells); }
  }

  ghost predicate SameRowsUpTo(columns: seq<string>, before: seq<Step>, after: seq<Step>, n: nat) {
    forall p :: 1 <= p <= n ==> SameRow(columns, FindStep(before, p), FindStep(after, p))
  }

  lemma {:induction false} JoinedIsEmpty<T>(parts: nat -> seq<T>, n: nat)
    ensures Joined(parts, n) == [] <==> forall p: nat :: 1 <= p <= n ==> parts(p) == []
  {
    if n > 0 {
      var m := n - 1;
      JoinedIsEmpty(parts, m);
      assert |Joined(parts, n)| == |Joined(parts, m)| + |parts(n)|;
    }
  }

  lemma {:induction false} NoStepChangesExactlyWhen(columns: seq<string>, before: seq<Step>, after: seq<Step>, n: nat)
    ensures StepChanges(columns, before, after, n) == [] <==> SameRowsUpTo(columns, before, after, n)
  {
    var parts := ChangesByPosition(columns, before, after);
    JoinedIsEmpty(parts, n);
    forall p: nat ensures parts(p) == [] <==> SameRow(columns, FindStep(before, p), FindStep(after, p)) {
      NoChangeAtExactlyWhen(columns, p, FindStep(before, p), FindStep(after, p));
    }
  }

  /** For any two versions, valid or not: what `identical` sees and what it does not. */
  lemma {:induction false} IdenticalExactlyWhen(form: Form, before: Version, after: Version)
    ensures DiffOf(form, before, after).identical <==>
            && DisplaysTheSame(form.fields, before.content, after.content)
            && SameRowsUpTo(form.columns, before.steps, after.steps, Highest(before, after))
  {
    NoChangesExactlyWhen(form.fields, before.content, after.content);
    NoStepChangesExactlyWhen(form.columns, before.steps, after.steps, Highest(before, after));
  }

  // ----- the position check -----

  function Positions(steps: seq<Step>): (r: seq<Option<int>>) {
    seq(|steps|, i requires 0 <= i < |steps| => steps[i].position)
  }

  /** 1, 2, ..., n */
  function Numbered(n: nat): (r: seq<Option<int>>) { seq(n, i => Some(i + 1)) }

  /**
    `a ?? 0`. JavaScript sorts an undefined position last instead; the check fails either way, because
    no row without a position is the one that is expected.
   */
  function PositionKey(position: Option<int>): real { if position.Some? then position.value as real else 0.0 }

  /** The positions are 1 to n in some order. */
  ghost predicate WellNumbered(steps: seq<Step>) {
    multiset(Positions(steps)) == multiset(Numbered(|steps|))
  }

  datatype PositionProblem = SharedPosition | Gap

  method PositionProblems(steps: seq<Step>) returns (problems: seq<PositionProblem>)
    ensures problems == [] <==> WellNumbered(steps)
  {
    problems := [];
    if |steps| == 0 { return; }
    var positions := Positions(steps);
    if |(set p | p in positions)| != |positions| { problems := problems + [SharedPosition]; }
    var sorted := Sort(positions, PositionKey);
    var contiguous := true;
    for index := 0 to |sorted|
      invariant contiguous <==> sorted[..index] == Numbered(|sorted|)[..index]
    {
      if sorted[index] != Some(index + 1) { contiguous := false; }
      assert sorted[..index + 1] == sorted[..index] + [sorted[index]];
      assert Numbered(|sorted|)[..index + 1] == Numbered(|sorted|)[..index] + [Some(index + 1)];
    }
    assert sorted[..|sorted|] == sorted && Numbered(|sorted|)[..|sorted|] == Numbered(|sorted|);
    if !contiguous { problems := problems + [Gap]; }
    ContiguousExactlyWhen(steps);
    if contiguous { WellNumberedIsDistinct(steps); }
  }

  lemma {:induction false} ContiguousExactlyWhen(steps: seq<Step>)
    ensures Sort(Positions(steps), PositionKey) == Numbered(|steps|) <==> WellNumbered(steps)
  {
    var positions, numbered := Positions(steps), Numbered(|steps|);
    SortIsStable(positions, PositionKey);
    SortOfAscending(numbered, PositionKey);
    if WellNumbered(steps) {
      forall i, j | 0 <= i < |positions| && 0 <= j < |positions| && PositionKey(positions[i]) == PositionKey(positions[j])
        ensures positions[i] == positions[j]
      {
        assert positions[i] in multiset(numbered) && positions[j] in multiset(numbered);
      }
      SortIsCanonical(positions, numbered, PositionKey);
    }
  }

  lemma {:induction false} DistinctSetSize<T>(s: seq<T>)
    requires Distinct(s)
    ensures |(set x | x in s)| == |s|
  {
    if s != [] {
      var front, last := s[..|s| - 1], s[|s| - 1];
      DistinctSetSize(front);
      assert s == front + [last];
      assert (set x | x in s) == (set x | x in front) + {last};
    }
  }

  lemma {:induction false} WellNumberedIsDistinct(steps: seq<Step>)
    requires WellNumbered(steps)
    ensures Distinct(Positions(steps)) && |(set p | p in Positions(steps))| == |steps|
  {
    DistinctSurvivesPermutation(Numbered(|steps|), Positions(steps));
    DistinctSetSize(Positions(steps));
  }

  /** In a well numbered list each of 1 to n is some row's position, and nothing else is. */
  lemma {:induction false} RowsAreTheNumbers(steps: seq<Step>, p: int)
    requires WellNumbered(steps)
    ensures FindStep(steps, p).Some? <==> 1 <= p <= |steps|
  {
    var positions, numbered := Positions(steps), Numbered(|steps|);
    if 1 <= p <= |steps| {
      assert numbered[p - 1] == Some(p);
      assert Some(p) in multiset(positions);
      var i :| 0 <= i < |positions| && positions[i] == Some(p);
      assert steps[i] in steps && steps[i].position == Some(p);
    }
    if FindStep(steps, p).Some? {
      var i :| 0 <= i < |steps| && steps[i] == FindStep(steps, p).value;
      assert positions[i] == Some(p);
      assert Some(p) in multiset(numbered);
    }
  }

  lemma {:induction false} FoundStepIsTheOne(steps: seq<Step>, step: Step, p: int)
    requires WellNumbered(steps) && step in steps && step.position == Some(p)
    ensures FindStep(steps, p) == Some(step)
  {
    WellNumberedIsDistinct(steps);
    var found := FindStep(steps, p);
    var i :| 0 <= i < |steps| && steps[i] == step;
    var j :| 0 <= j < |steps| && steps[j] == found.value;
    assert Positions(steps)[i] == Positions(steps)[j];
  }

  /** The rows of the two lists pair up by position, and paired rows display the same. */
  ghost predicate SameRows(columns: seq<string>, before: seq<Step>, after: seq<Step>) {
    && |before| == |after|
    && forall a, b :: a in before && b in after && a.position == b.position ==> DisplaysTheSame(columns, a.cells, b.cells)
  }

  lemma {:induction false} PairedRowsDisplayTheSame(columns: seq<string>, before: seq<Step>, after: seq<Step>, n: nat, a: Step, b: Step)
    requires WellNumbered(before) && WellNumbered(after) && |before| <= n
    requires SameRowsUpTo(columns, before, after, n)
    requires a in before && b in after && a.position == b.position
    ensures DisplaysTheSame(columns, a.cells, b.cells)
  {
    var p := PositionIsANumber(before, a);
    FoundStepIsTheOne(before, a, p);
    FoundStepIsTheOne(after, b, p);
    assert SameRow(columns, FindStep(before, p), FindStep(after, p));
  }

  lemma {:induction false} RowFoundTheSame(columns: seq<string>, before: seq<Step>, after: seq<Step>, p: int)
    requires WellNumbered(before) && WellNumbered(after) && SameRows(columns, before, after)
    ensures SameRow(columns, FindStep(before, p), FindStep(after, p))
  {
    RowsAreTheNumbers(before, p);
    RowsAreTheNumbers(after, p);
  }

  lemma {:induction false} SameRowsByPosition(columns: seq<string>, before: seq<Step>, after: seq<Step>, n: nat)
    requires WellNumbered(before) && WellNumbered(after) && n == if |before| < |after| then |after| else |before|
    ensures SameRowsUpTo(columns, before, after, n) <==> SameRows(columns, before, after)
  {
    if SameRowsUpTo(columns, before, after, n) {
      RowsAreTheNumbers(before, n);
      RowsAreTheNumbers(after, n);
      if n > 0 { assert SameRow(columns, FindStep(before, n), FindStep(after, n)); }
      forall a, b | a in before && b in after && a.position == b.position ensures DisplaysTheSame(columns, a.cells, b.cells) {
        PairedRowsDisplayTheSame(columns, before, after, n, a, b);
      }
    }
    if SameRows(columns, before, after) {
      forall p | 1 <= p <= n ensures SameRow(columns, FindStep(before, p), FindStep(after, p)) {
        RowFoundTheSame(columns, before, after, p);
      }
    }
  }

  lemma {:induction false} PositionIsANumber(steps: seq<Step>, step: Step) returns (p: int)
    requires WellNumbered(steps) && step in steps
    ensures step.position == Some(p) && 1 <= p <= |steps|
  {
    var i :| 0 <= i < |steps| && steps[i] == step;
    assert Positions(steps)[i] == step.position;
    assert step.position in multiset(Numbered(|steps|));
    p := step.position.value;
  }

  /**
    For two versions that pass the position check, `identical` means what it says: every field and
    every cell of every row displays the same, and neither version has a row more.
   */
  lemma {:induction false} DiffIsComplete(form: Form, before: Version, after: Version)
    requires WellNumbered(before.steps) && WellNumbered(after.steps)
    ensures DiffOf(form, before, after).identical <==>
            DisplaysTheSame(form.fields, before.content, after.content) && SameRows(form.columns, before.steps, after.steps)
  {
    IdenticalExactlyWhen(form, before, after);
    SameRowsByPosition(form.columns, before.steps, after.steps, Highest(before, after));
  }

  /** A row numbered past the length of its list is not seen, so a difference in it is not reported. */
  lemma {:induction false} MisnumberedRowIsInvisible(form: Form, content: Record, a: Record, b: Record)
    ensures DiffOf(form, Version(content, [Step(Some(2), a)]), Version(content, [Step(Some(2), b)])).identical
  {
    IdenticalExactlyWhen(form, Version(content, [Step(Some(2), a)]), Version(content, [Step(Some(2), b)]));
  }

  // ----- which single edits are reported -----

  function Edited(v: Version, i: nat, cells: Record): Version
    requires i < |v.steps|
  {
    v.(steps := v.steps[i := v.steps[i].(cells := cells)])
  }

  /** Giving any one row cells that display differently is reported. */
  ghost predicate EveryEditShows(form: Form, v: Version) {
    forall i: nat, cells :: i < |v.steps| && !DisplaysTheSame(form.columns, v.steps[i].cells, cells) ==>
      !DiffOf(form, v, Edited(v, i, cells)).identical
  }

  /** The row at i is the first with its position, which is one of 1 to n. */
  ghost predicate IsFound(steps: seq<Step>, i: nat)
    requires i < |steps|
  {
    && steps[i].position.Some? && 1 <= steps[i].position.value <= |steps|
    && forall j :: 0 <= j < i ==> steps[j].position != steps[i].position
  }

  lemma {:induction false} FoundInsteadOf(steps: seq<Step>, i: nat, row: Step, p: int)
    requires i < |steps| && row.position == steps[i].position
    requires steps[i].position != Some(p) || exists j :: 0 <= j < i && steps[j].position == Some(p)
    ensures FindStep(steps[i := row], p) == FindStep(steps, p)
  {
    if i > 0 && steps[0].position != Some(p) {
      assert steps[i := row][1..] == steps[1..][i - 1 := row];
      if steps[i].position == Some(p) {
        var j :| 0 <= j < i && steps[j].position == Some(p);
        assert steps[1..][j - 1].position == Some(p);
      }
      FoundInsteadOf(steps[1..], i - 1, row, p);
    }
  }

  lemma {:induction false} ShownRowIsFound(form: Form, v: Version, i: nat, cells: Record)
    requires i < |v.steps| && !DiffOf(form, v, Edited(v, i, cells)).identical
    ensures IsFound(v.steps, i)
  {
    var after := Edited(v, i, cells);
    IdenticalExactlyWhen(form, v, after);
    var p :| 1 <= p <= |v.steps| && !SameRow(form.columns, FindStep(v.steps, p), FindStep(after.steps, p));
    if v.steps[i].position != Some(p) || exists j :: 0 <= j < i && v.steps[j].position == Some(p) {
      FoundInsteadOf(v.steps, i, after.steps[i], p);
      assert false;
    }
  }

  lemma {:induction false} OtherCells(columns: seq<string>, cells: Record) returns (other: Record)
    requires columns != []
    ensures !DisplaysTheSame(columns, cells, other)
  {
    var key := columns[0];
    other := cells[key := if DisplayOf(cells, key) == None then Number(0) else Null];
    assert DisplayOf(cells, key) != DisplayOf(other, key);
  }

  lemma {:induction false} EqualSizeSubset<T>(a: set<T>, b: set<T>)
    requires a <= b && |a| == |b|
    ensures a == b
  {
    assert b == a + (b - a);
  }

  lemma {:induction false} AllFoundMeansWellNumbered(steps: seq<Step>)
    requires forall i: nat :: i < |steps| ==> IsFound(steps, i)
    ensures WellNumbered(steps)
  {
    var positions, numbered := Positions(steps), Numbered(|steps|);
    forall i, j | 0 <= i < j < |positions| ensures positions[i] != positions[j] { assert IsFound(steps, j); }
    forall i | 0 <= i < |positions| ensures positions[i] in numbered {
      assert IsFound(steps, i);
      assert numbered[steps[i].position.value - 1] == positions[i];
    }
    DistinctSetSize(positions);
    DistinctSetSize(numbered);
    var held, wanted := set p | p in positions, set p | p in numbered;
    EqualSizeSubset(held, wanted);
    forall p ensures p in positions <==> p in numbered { assert p in held <==> p in wanted; }
    SameMembersPermute(positions, numbered);
  }

  lemma {:induction false} EditOfWellNumberedShows(form: Form, v: Version, i: nat, cells: Record)
    requires WellNumbered(v.steps) && i < |v.steps| && !DisplaysTheSame(form.columns, v.steps[i].cells, cells)
    ensures !DiffOf(form, v, Edited(v, i, cells)).identical
  {
    var after := Edited(v, i, cells);
    assert Positions(after.steps) == Positions(v.steps);
    DiffIsComplete(form, v, after);
    assert v.steps[i] in v.steps && after.steps[i] in after.steps;
  }

  /** Every single edit is reported exactly when the position check passes. */
  lemma {:induction false} EveryEditShowsExactlyWhen(form: Form, v: Version)
    requires form.columns != []
    ensures EveryEditShows(form, v) <==> WellNumbered(v.steps)
  {
    if WellNumbered(v.steps) {
      forall i: nat, cells | i < |v.steps| && !DisplaysTheSame(form.columns, v.steps[i].cells, cells)
        ensures !DiffOf(form, v, Edited(v, i, cells)).identical
      {
        EditOfWellNumberedShows(form, v, i, cells);
      }
    }
    if EveryEditShows(form, v) {
      forall i: nat | i < |v.steps| ensures IsFound(v.steps, i) {
        var cells := OtherCells(form.columns, v.steps[i].cells);
        ShownRowIsFound(form, v, i, cells);
      }
      AllFoundMeansWellNumbered(v.steps);
    }
  }

  lemma {:induction false} Form2EditsShowExactlyWhen(v: Version)
    ensures EveryEditShows(FORM2, v) <==> WellNumbered(v.steps)
  {
    assert |FORM2.columns| == 14;
    EveryEditShowsExactlyWhen(FORM2, v);
  }

  // ----- the order of the arrays -----

  lemma {:induction false} SameStepsFound(steps: seq<Step>, others: seq<Step>, p: int)
    requires WellNumbered(steps) && multiset(steps) == multiset(others)
    ensures FindStep(steps, p) == FindStep(others, p)
  {
    assert forall step :: step in steps <==> step in multiset(steps);
    assert forall step :: step in others <==> step in multiset(others);
    if FindStep(others, p).Some? { FoundStepIsTheOne(steps, FindStep(others, p).value, p); }
  }

  lemma {:induction false} SameJoined<T>(parts: nat -> seq<T>, others: nat -> seq<T>, n: nat)
    requires forall p: nat :: parts(p) == others(p)
    ensures Joined(parts, n) == Joined(others, n)
  {
    if n > 0 { SameJoined(parts, others, n - 1); }
  }

  /** How the rows are ordered in the arrays makes no difference. */
  lemma {:induction false} DiffIgnoresArrayOrder(form: Form, before: Version, after: Version, otherBefore: seq<Step>, otherAfter: seq<Step>)
    requires WellNumbered(before.steps) && multiset(before.steps) == multiset(otherBefore)
    requires WellNumbered(after.steps) && multiset(after.steps) == multiset(otherAfter)
    ensures DiffOf(form, before, after) == DiffOf(form, before.(steps := otherBefore), after.(steps := otherAfter))
  {
    assert |before.steps| == |multiset(before.steps)| == |otherBefore|;
    assert |after.steps| == |multiset(after.steps)| == |otherAfter|;
    forall p ensures FindStep(before.steps, p) == FindStep(otherBefore, p) { SameStepsFound(before.steps, otherBefore, p); }
    forall p ensures FindStep(after.steps, p) == FindStep(otherAfter, p) { SameStepsFound(after.steps, otherAfter, p); }
    SameJoined(ChangesByPosition(form.columns, before.steps, after.steps),
               ChangesByPosition(form.columns, otherBefore, otherAfter), Highest(before, after));
  }

  // ----- the comparison read backwards -----

  function MirrorChange(c: Change): Change { Change(c.key, c.after, c.before) }

  function MirrorChanges(changes: seq<Change>): (r: seq<Change>) {
    seq(|changes|, i requires 0 <= i < |changes| => MirrorChange(changes[i]))
  }

  function MirrorStep(c: StepChange): StepChange {
    match c
    case Added(position) => Removed(position)
    case Removed(position) => Added(position)
    case Changed(position, cells) => Changed(position, MirrorChanges(cells))
  }

  function MirrorSteps(changes: seq<StepChange>): (r: seq<StepChange>) {
    seq(|changes|, i requires 0 <= i < |changes| => MirrorStep(changes[i]))
  }

  lemma {:induction false} ChangesMirror(keys: seq<string>, from: Record, to: Record)
    ensures Changes(keys, to, from) == MirrorChanges(Changes(keys, from, to))
  {
    if keys != [] { ChangesMirror(keys[..|keys| - 1], from, to); }
  }

  lemma {:induction false} ChangeAtMirrors(columns: seq<string>, position: int, from: Option<Step>, to: Option<Step>)
    ensures ChangeAt(columns, position, to, from) == MirrorSteps(ChangeAt(columns, position, from, to))
  {
    if from.Some? && to.Some? { ChangesMirror(columns, from.value.cells, to.value.cells); }
  }

  lemma {:induction false} JoinedMirrors(there: nat -> seq<StepChange>, back: nat -> seq<StepChange>, n: nat)
    requires forall p: nat :: back(p) == MirrorSteps(there(p))
    ensures Joined(back, n) == MirrorSteps(Joined(there, n))
  {
    if n > 0 { JoinedMirrors(there, back, n - 1); }
  }

  lemma {:induction false} StepChangesMirror(columns: seq<string>, before: seq<Step>, after: seq<Step>, n: nat)
    ensures StepChanges(columns, after, before, n) == MirrorSteps(StepChanges(columns, before, after, n))
  {
    var there, back := ChangesByPosition(columns, before, after), ChangesByPosition(columns, after, before);
    forall p: nat ensures back(p) == MirrorSteps(there(p)) {
      ChangeAtMirrors(columns, p, FindStep(before, p), FindStep(after, p));
    }
    JoinedMirrors(there, back, n);
  }

  /** Comparing the other way round swaps added with removed and before with after, and nothing else. */
  lemma {:induction false} DiffMirrors(form: Form, before: Version, after: Version)
    ensures var there, back := DiffOf(form, before, after), DiffOf(form, after, before);
            && back.fields == MirrorChanges(there.fields)
            && back.steps == MirrorSteps(there.steps)
            && back.identical == there.identical
  {
    ChangesMirror(form.fields, before.content, after.content);
    StepChangesMirror(form.columns, before.steps, after.steps, Highest(before, after));
  }
}
