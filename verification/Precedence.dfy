/**
  The policy precedence engine (packages/types/src/policy-precedence.ts), with the orders and the
  ceilings of packages/types/src/authorization.ts.
 */
module Precedence {
  import opened Options
  import opened StableSort

  datatype Layer = Platform | Company | Department | Objective | EngineAgent

  datatype Effect = Deny | Allow

  datatype UserType = InternalUser | ExternalGuest | PlatformUser

  datatype Action =
    | View | Comment | Create | EditDraft | Assign | Approve | Publish
    | Run | Schedule | Pause | Export | ManageAccess | Administer | Audit

  datatype ScopeKind = OwnWork | SelectedResource | TeamSubtree | DepartmentScope | MultipleDepartments | WholeCompany

  datatype Rule = Rule(
    layer: Layer, ruleModule: Option<string>, action: Option<Action>, effect: Effect,
    mandatory: bool, maxScope: Option<ScopeKind>, reason: string)

  datatype Input = Input(
    userType: UserType, moduleKey: string, action: Action, grantedActions: seq<Action>,
    visibleModules: seq<string>, assignedScope: ScopeKind, rules: seq<Rule>)

  datatype Decision =
    | Permitted
    | UserTypeCeiling
    | ModuleNotVisible
    | RoleLacksAction
    | PolicyDenied(message: string, decidedBy: Layer)

  datatype Result = Result(allowed: bool, effectiveScope: ScopeKind, decision: Decision)

  function LayerOrder(layer: Layer): nat {
    match layer
    case Platform => 0
    case Company => 1
    case Department => 2
    case Objective => 3
    case EngineAgent => 4
  }

  function LayerRank(rule: Rule): real { LayerOrder(rule.layer) as real }

  function Breadth(scope: ScopeKind): nat {
    match scope
    case OwnWork => 0
    case SelectedResource => 1
    case TeamSubtree => 2
    case DepartmentScope => 3
    case MultipleDepartments => 4
    case WholeCompany => 5
  }

  predicate NoWiderThan(candidate: ScopeKind, ceiling: ScopeKind) { Breadth(candidate) <= Breadth(ceiling) }

  function Narrower(a: ScopeKind, b: ScopeKind): ScopeKind { if NoWiderThan(a, b) then a else b }

  function Forbidden(userType: UserType): set<Action> {
    match userType
    case InternalUser => {}
    case ExternalGuest => {Approve, Publish, Run, Schedule, Pause, ManageAccess, Administer, Audit, Export}
    case PlatformUser => {Approve, Assign, Publish, Run, Schedule, Pause}
  }

  predicate Applies(rule: Rule, moduleKey: string, action: Action) {
    && (rule.ruleModule == None || rule.ruleModule == Some(moduleKey))
    && (rule.action == None || rule.action == Some(action))
  }

  function Applicable(rules: seq<Rule>, moduleKey: string, action: Action): (r: seq<Rule>)
    ensures forall rule :: rule in r <==> rule in rules && Applies(rule, moduleKey, action)
  {
    if rules == [] then []
    else if Applies(rules[0], moduleKey, action) then [rules[0]] + Applicable(rules[1..], moduleKey, action)
    else Applicable(rules[1..], moduleKey, action)
  }

  /** The rules that apply to the input, outermost layer first. */
  function Chain(input: Input): seq<Rule> {
    Sort(Applicable(input.rules, input.moduleKey, input.action), LayerRank)
  }

  predicate Seals(rule: Rule) { rule.effect == Deny && rule.mandatory }

  /** The last mandatory denial of a list. */
  function LastSeal(rules: seq<Rule>): Option<Rule> {
    if rules == [] then None
    else if Seals(rules[|rules| - 1]) then Some(rules[|rules| - 1])
    else LastSeal(rules[..|rules| - 1])
  }

  /** What refuses: the last mandatory denial, or else a denial that nothing comes after. */
  function Blocking(chain: seq<Rule>): Option<Rule> {
    if LastSeal(chain).Some? then LastSeal(chain)
    else if chain != [] && chain[|chain| - 1].effect == Deny then Some(chain[|chain| - 1])
    else None
  }

  /** The narrowest of the assigned scope and every ceiling in the list. */
  function Narrowest(granted: ScopeKind, rules: seq<Rule>): ScopeKind {
    if rules == [] then granted
    else
      var scope := Narrowest(granted, rules[..|rules| - 1]);
      match rules[|rules| - 1].maxScope
      case None => scope
      case Some(ceiling) => Narrower(scope, ceiling)
  }

  function Evaluate(input: Input): Result {
    if input.action in Forbidden(input.userType) then Result(false, input.assignedScope, UserTypeCeiling)
    else if input.moduleKey !in input.visibleModules then Result(false, input.assignedScope, ModuleNotVisible)
    else if input.action !in input.grantedActions then Result(false, input.assignedScope, RoleLacksAction)
    else
      var scope := Narrowest(input.assignedScope, Chain(input));
      match Blocking(Chain(input))
      case Some(rule) => Result(false, scope, PolicyDenied(rule.reason, rule.layer))
      case None => Result(true, scope, Permitted)
  }

  /** The evaluation loop, with its sealed and standing denials, computes the closed form. */
  method EvaluatePrecedence(input: Input) returns (result: Result)
    ensures result == Evaluate(input)
  {
    if input.action in Forbidden(input.userType) {
      return Result(false, input.assignedScope, UserTypeCeiling);
    }
    if input.moduleKey !in input.visibleModules {
      return Result(false, input.assignedScope, ModuleNotVisible);
    }
    if input.action !in input.grantedActions {
      return Result(false, input.assignedScope, RoleLacksAction);
    }
    var ordered := Sort(Applicable(input.rules, input.moduleKey, input.action), LayerRank);
    var effectiveScope := input.assignedScope;
    var sealedDenial, standingDenial: Option<Rule> := None, None;
    for i := 0 to |ordered|
      invariant effectiveScope == Narrowest(input.assignedScope, ordered[..i])
      invariant sealedDenial == LastSeal(ordered[..i])
      invariant sealedDenial == None ==> standingDenial == Blocking(ordered[..i])
    {
      var rule := ordered[i];
      assert ordered[..i + 1][..i] == ordered[..i];
      if rule.maxScope.Some? && NoWiderThan(rule.maxScope.value, effectiveScope) {
        SameBreadth(rule.maxScope.value, effectiveScope);
        effectiveScope := rule.maxScope.value;
      }
      if rule.effect == Deny {
        if rule.mandatory {
          sealedDenial := Some(rule);
        } else {
          standingDenial := Some(rule);
        }
      } else if sealedDenial.Some? {
      } else if standingDenial.Some? {
        standingDenial := None;
      }
    }
    assert ordered[..|ordered|] == ordered;
    var blocking := if sealedDenial.Some? then sealedDenial else standingDenial;
    match blocking
    case Some(rule) => return Result(false, effectiveScope, PolicyDenied(rule.reason, rule.layer));
    case None => return Result(true, effectiveScope, Permitted);
  }

  lemma {:induction false} SameBreadth(a: ScopeKind, b: ScopeKind)
    ensures Breadth(a) == Breadth(b) ==> a == b
  {
  }

  method EffectiveScopeFor(granted: ScopeKind, moduleKey: string, action: Action, rules: seq<Rule>) returns (scope: ScopeKind)
    ensures IsNarrowest(scope, granted, Applicable(rules, moduleKey, action))
    ensures scope == EffectiveScope(granted, moduleKey, action, rules)
  {
    var candidates := WithCeiling(Applicable(rules, moduleKey, action));
    var ordered := Sort(candidates, LayerRank);
    MembersOfSort(candidates, LayerRank);
    scope := granted;
    for i := 0 to |ordered|
      invariant scope == Narrowest(granted, ordered[..i])
    {
      assert ordered[i] in candidates;
      assert ordered[..i + 1][..i] == ordered[..i];
      scope := Narrower(scope, ordered[i].maxScope.value);
    }
    assert ordered[..|ordered|] == ordered;
    NarrowestIsTheMinimum(granted, ordered);
    var applicable := Applicable(rules, moduleKey, action);
    OnlyCeilingsMatter(scope, granted, applicable, ordered);
    NarrowestIsTheMinimum(granted, applicable);
    NarrowestIsUnique(scope, Narrowest(granted, applicable), granted, applicable, applicable);
  }

  function EffectiveScope(granted: ScopeKind, moduleKey: string, action: Action, rules: seq<Rule>): ScopeKind {
    Narrowest(granted, Applicable(rules, moduleKey, action))
  }

  function WithCeiling(rules: seq<Rule>): (r: seq<Rule>)
    ensures forall rule :: rule in r <==> rule in rules && rule.maxScope.Some?
  {
    if rules == [] then []
    else if rules[0].maxScope.Some? then [rules[0]] + WithCeiling(rules[1..])
    else WithCeiling(rules[1..])
  }

  function Filtered(actions: seq<Action>, keep: Action -> bool): seq<Action> {
    if actions == [] then []
    else if keep(actions[0]) then [actions[0]] + Filtered(actions[1..], keep)
    else Filtered(actions[1..], keep)
  }

  function PermittedActions(input: Input, actions: seq<Action>): seq<Action> {
    Filtered(actions, (action: Action) => Evaluate(input.(action := action)).allowed)
  }

  // ----- the scope is a minimum, whatever the order -----

  /** scope is the minimum of the assigned scope and every ceiling among the rules. */
  ghost predicate IsNarrowest(scope: ScopeKind, granted: ScopeKind, rules: seq<Rule>) {
    && NoWiderThan(scope, granted)
    && (forall rule :: rule in rules && rule.maxScope.Some? ==> NoWiderThan(scope, rule.maxScope.value))
    && (scope == granted || exists rule :: rule in rules && rule.maxScope == Some(scope))
  }

  lemma {:induction false} NarrowestIsTheMinimum(granted: ScopeKind, rules: seq<Rule>)
    ensures IsNarrowest(Narrowest(granted, rules), granted, rules)
  {
    if rules != [] {
      var front, last := rules[..|rules| - 1], rules[|rules| - 1];
      NarrowestIsTheMinimum(granted, front);
      assert rules == front + [last];
      var scope := Narrowest(granted, rules);
      assert forall rule :: rule in rules <==> rule in front || rule == last;
    }
  }

  lemma {:induction false} OnlyCeilingsMatter(scope: ScopeKind, granted: ScopeKind, rules: seq<Rule>, ceilings: seq<Rule>)
    requires forall rule :: rule in ceilings <==> rule in rules && rule.maxScope.Some?
    requires IsNarrowest(scope, granted, ceilings)
    ensures IsNarrowest(scope, granted, rules)
  {
  }

  lemma {:induction false} MoreRulesNarrow(granted: ScopeKind, few: seq<Rule>, many: seq<Rule>)
    requires forall rule :: rule in few ==> rule in many
    ensures NoWiderThan(Narrowest(granted, many), Narrowest(granted, few))
  {
    NarrowestIsTheMinimum(granted, few);
    NarrowestIsTheMinimum(granted, many);
  }

  lemma {:induction false} NarrowestIsUnique(a: ScopeKind, b: ScopeKind, granted: ScopeKind, rules: seq<Rule>, others: seq<Rule>)
    requires IsNarrowest(a, granted, rules) && IsNarrowest(b, granted, others)
    requires forall rule :: rule in rules <==> rule in others
    ensures a == b
  {
    SameBreadth(a, b);
  }

  /** Past the role checks, the loop's scope is the minimum that `effectiveScopeFor` returns. */
  lemma {:induction false} EvaluatedScopeIsEffectiveScope(input: Input, scope: ScopeKind)
    requires Evaluate(input).decision.Permitted? || Evaluate(input).decision.PolicyDenied?
    requires IsNarrowest(scope, input.assignedScope, Applicable(input.rules, input.moduleKey, input.action))
    ensures Evaluate(input).effectiveScope == scope
  {
    var rules := Applicable(input.rules, input.moduleKey, input.action);
    MembersOfSort(rules, LayerRank);
    NarrowestIsTheMinimum(input.assignedScope, Chain(input));
    NarrowestIsUnique(Evaluate(input).effectiveScope, scope, input.assignedScope, Chain(input), rules);
  }

  // ----- the closed form, without the sort -----

  /** The latest rule of the innermost layer present. */
  function Governing(rules: seq<Rule>): (r: Option<Rule>)
    ensures r.None? <==> rules == []
    ensures r.Some? ==> r.value in rules && forall rule :: rule in rules ==> LayerRank(rule) <= LayerRank(r.value)
  {
    if rules == [] then None
    else
      var inner := Governing(rules[1..]);
      assert rules == [rules[0]] + rules[1..];
      if inner.Some? && LayerRank(rules[0]) <= LayerRank(inner.value) then inner else Some(rules[0])
  }

  lemma {:induction false} ChainEndsWithGoverning(rules: seq<Rule>)
    requires rules != []
    ensures Some(Sort(rules, LayerRank)[|rules| - 1]) == Governing(rules)
  {
    SortIsStable(rules[1..], LayerRank);
    InsertLast(rules[0], Sort(rules[1..], LayerRank), LayerRank);
    if rules[1..] != [] { ChainEndsWithGoverning(rules[1..]); }
  }

  lemma {:induction false} SealsAreFound(rules: seq<Rule>)
    ensures LastSeal(rules).Some? <==> exists rule :: rule in rules && Seals(rule)
  {
    if rules != [] {
      SealsAreFound(rules[..|rules| - 1]);
      assert rules == rules[..|rules| - 1] + [rules[|rules| - 1]];
    }
  }

  /** Neither a mandatory denial anywhere nor a denial in the governing position. */
  ghost predicate PolicyAllows(rules: seq<Rule>) {
    && (forall rule :: rule in rules ==> !(rule.mandatory && rule.effect == Deny))
    && (rules != [] ==> Governing(rules).value.effect == Allow)
  }

  ghost predicate RoleChecksPass(input: Input) {
    && input.action !in Forbidden(input.userType)
    && input.moduleKey in input.visibleModules
    && input.action in input.grantedActions
  }

  /** The closed form of the answer. */
  lemma {:induction false} AllowedExactlyWhen(input: Input)
    ensures Evaluate(input).allowed <==>
            RoleChecksPass(input) && PolicyAllows(Applicable(input.rules, input.moduleKey, input.action))
  {
    var rules := Applicable(input.rules, input.moduleKey, input.action);
    MembersOfSort(rules, LayerRank);
    SealsAreFound(Chain(input));
    if rules != [] { ChainEndsWithGoverning(rules); }
  }

  // ----- insertion -----

  lemma {:induction false} ApplicableAppend(a: seq<Rule>, b: seq<Rule>, moduleKey: string, action: Action)
    ensures Applicable(a + b, moduleKey, action) == Applicable(a, moduleKey, action) + Applicable(b, moduleKey, action)
  {
    if a == [] {
      assert a + b == b;
    } else {
      ApplicableAppend(a[1..], b, moduleKey, action);
      assert (a + b)[1..] == a[1..] + b;
    }
  }

  lemma {:induction false} GoverningAfterInsertion(a: seq<Rule>, rule: Rule, b: seq<Rule>)
    ensures Governing(a + [rule] + b) == Some(rule) || Governing(a + [rule] + b) == Governing(a + b)
  {
    if a == [] {
      assert a + [rule] + b == [rule] + b && a + b == b;
      assert ([rule] + b)[1..] == b;
    } else {
      GoverningAfterInsertion(a[1..], rule, b);
      assert (a + [rule] + b)[1..] == a[1..] + [rule] + b;
      assert (a + b)[1..] == a[1..] + b;
    }
  }

  /** A denial inserted at any place, in any layer, never turns a refusal into a permission. */
  lemma {:induction false} DenialsOnlyTighten(input: Input, a: seq<Rule>, denial: Rule, b: seq<Rule>)
    requires denial.effect == Deny
    ensures Evaluate(input.(rules := a + [denial] + b)).allowed ==> Evaluate(input.(rules := a + b)).allowed
  {
    var before, after := input.(rules := a + b), input.(rules := a + [denial] + b);
    AllowedExactlyWhen(before);
    AllowedExactlyWhen(after);
    InsertedApplicable(input, a, denial, b);
    var m, x := input.moduleKey, input.action;
    GoverningAfterInsertion(Applicable(a, m, x), denial, Applicable(b, m, x));
  }

  lemma {:induction false} ApplicableOne(rule: Rule, moduleKey: string, action: Action)
    ensures Applicable([rule], moduleKey, action) == if Applies(rule, moduleKey, action) then [rule] else []
  {
    assert [rule][1..] == [];
  }

  lemma {:induction false} InsertedApplicable(input: Input, a: seq<Rule>, rule: Rule, b: seq<Rule>)
    ensures var m, x := input.moduleKey, input.action;
            && Applicable(a + b, m, x) == Applicable(a, m, x) + Applicable(b, m, x)
            && Applicable(a + [rule] + b, m, x)
               == if Applies(rule, m, x) then Applicable(a, m, x) + [rule] + Applicable(b, m, x) else Applicable(a + b, m, x)
  {
    var m, x := input.moduleKey, input.action;
    ApplicableAppend(a, b, m, x);
    ApplicableAppend(a + [rule], b, m, x);
    ApplicableAppend(a, [rule], m, x);
    ApplicableOne(rule, m, x);
  }

  /** A rule for another module or another action changes nothing, wherever it stands. */
  lemma {:induction false} ForeignRuleChangesNothing(input: Input, a: seq<Rule>, rule: Rule, b: seq<Rule>)
    requires (rule.ruleModule.Some? && rule.ruleModule.value != input.moduleKey)
             || (rule.action.Some? && rule.action.value != input.action)
    ensures Evaluate(input.(rules := a + [rule] + b)) == Evaluate(input.(rules := a + b))
    ensures EffectiveScope(input.assignedScope, input.moduleKey, input.action, a + [rule] + b)
         == EffectiveScope(input.assignedScope, input.moduleKey, input.action, a + b)
  {
    InsertedApplicable(input, a, rule, b);
    SameApplicableSameResult(input, a + [rule] + b, a + b);
  }

  /** The result depends on the rules only through those that apply. */
  lemma {:induction false} SameApplicableSameResult(input: Input, x: seq<Rule>, y: seq<Rule>)
    requires Applicable(x, input.moduleKey, input.action) == Applicable(y, input.moduleKey, input.action)
    ensures Evaluate(input.(rules := x)) == Evaluate(input.(rules := y))
  {
    assert Chain(input.(rules := x)) == Chain(input.(rules := y));
  }

  /** A mandatory denial that names this module or none, and this action or none, refuses wherever it stands. */
  lemma {:induction false} OwnMandatoryDenialRefuses(input: Input, denial: Rule)
    requires denial in input.rules && denial.effect == Deny && denial.mandatory
    requires denial.ruleModule == None || denial.ruleModule == Some(input.moduleKey)
    requires denial.action == None || denial.action == Some(input.action)
    ensures !Evaluate(input).allowed
  {
    AllowedExactlyWhen(input);
  }

  /** Such a rule's ceiling, whatever else it says, bounds the scope of every list. */
  lemma {:induction false} OwnCeilingBounds(granted: ScopeKind, moduleKey: string, action: Action, rules: seq<Rule>, rule: Rule)
    requires rule in rules && rule.maxScope.Some?
    requires rule.ruleModule == None || rule.ruleModule == Some(moduleKey)
    requires rule.action == None || rule.action == Some(action)
    ensures NoWiderThan(EffectiveScope(granted, moduleKey, action, rules), rule.maxScope.value)
  {
    NarrowestIsTheMinimum(granted, Applicable(rules, moduleKey, action));
  }

  /** No rule, inserted at any place, ever widens the scope. */
  lemma {:induction false} RulesNeverWiden(input: Input, a: seq<Rule>, rule: Rule, b: seq<Rule>)
    ensures NoWiderThan(Evaluate(input.(rules := a + [rule] + b)).effectiveScope,
                        Evaluate(input.(rules := a + b)).effectiveScope)
  {
    var before, after := input.(rules := a + b), input.(rules := a + [rule] + b);
    forall r | r in Chain(before) ensures r in Chain(after) {
      InsertedApplicable(input, a, rule, b);
      MembersOfSort(Applicable(before.rules, input.moduleKey, input.action), LayerRank);
      MembersOfSort(Applicable(after.rules, input.moduleKey, input.action), LayerRank);
    }
    MoreRulesNarrow(input.assignedScope, Chain(before), Chain(after));
  }

  /** Nothing that is added around a mandatory denial lifts it. */
  lemma {:induction false} SealsCannotBeLifted(input: Input, denial: Rule)
    requires denial in input.rules && denial.mandatory && denial.effect == Deny
    requires Applies(denial, input.moduleKey, input.action)
    ensures !Evaluate(input).allowed
  {
    AllowedExactlyWhen(input);
  }

  lemma {:induction false} LastSealIsInnermost(chain: seq<Rule>)
    requires Ascending(chain, LayerRank)
    ensures forall rule :: rule in chain && Seals(rule) ==>
              LastSeal(chain).Some? && LayerRank(rule) <= LayerRank(LastSeal(chain).value)
  {
    if chain != [] {
      var front, last := chain[..|chain| - 1], chain[|chain| - 1];
      LastSealIsInnermost(front);
      assert chain == front + [last];
      forall rule | rule in chain ensures LayerRank(rule) <= LayerRank(last) {
        var i :| 0 <= i < |chain| && chain[i] == rule;
      }
    }
  }

  lemma {:induction false} LastSealIsASeal(chain: seq<Rule>)
    requires LastSeal(chain).Some?
    ensures LastSeal(chain).value in chain && Seals(LastSeal(chain).value)
  {
    if !Seals(chain[|chain| - 1]) {
      LastSealIsASeal(chain[..|chain| - 1]);
    }
  }

  /** A mandatory denial among the rules that applies to the input. */
  ghost predicate SealsInput(input: Input, rule: Rule) {
    rule in input.rules && rule.mandatory && rule.effect == Deny && Applies(rule, input.moduleKey, input.action)
  }

  lemma {:induction false} ReportedSeal(input: Input) returns (reported: Rule)
    requires RoleChecksPass(input) && exists rule :: SealsInput(input, rule)
    ensures SealsInput(input, reported)
    ensures Evaluate(input).decision == PolicyDenied(reported.reason, reported.layer)
    ensures forall rule :: SealsInput(input, rule) ==> LayerOrder(rule.layer) <= LayerOrder(reported.layer)
  {
    var rules := Applicable(input.rules, input.moduleKey, input.action);
    SortIsStable(rules, LayerRank);
    MembersOfSort(rules, LayerRank);
    LastSealIsInnermost(Chain(input));
    var rule :| SealsInput(input, rule);
    assert rule in Chain(input);
    LastSealIsASeal(Chain(input));
    reported := LastSeal(Chain(input)).value;
    forall rule | SealsInput(input, rule) ensures LayerOrder(rule.layer) <= LayerOrder(reported.layer) {
      assert rule in Chain(input) && LayerRank(rule) <= LayerRank(reported);
    }
  }

  lemma {:induction false} SameOrderSameLayer(a: Layer, b: Layer)
    requires LayerOrder(a) == LayerOrder(b)
    ensures a == b
  {
  }

  /**
    Of the mandatory denials that apply an innermost one is reported, reason and layer. So the
    outermost is named exactly when they are all of one layer.
   */
  lemma {:induction false} DenialNamesInnermostSeal(input: Input) returns (reported: Rule)
    requires RoleChecksPass(input) && exists rule :: SealsInput(input, rule)
    ensures SealsInput(input, reported)
    ensures Evaluate(input).decision == PolicyDenied(reported.reason, reported.layer)
    ensures forall rule :: SealsInput(input, rule) ==> LayerOrder(rule.layer) <= LayerOrder(reported.layer)
    ensures (forall rule :: SealsInput(input, rule) ==> LayerOrder(reported.layer) <= LayerOrder(rule.layer))
            <==> (forall a, b :: SealsInput(input, a) && SealsInput(input, b) ==> a.layer == b.layer)
  {
    reported := ReportedSeal(input);
    if forall rule :: SealsInput(input, rule) ==> LayerOrder(reported.layer) <= LayerOrder(rule.layer) {
      forall a, b | SealsInput(input, a) && SealsInput(input, b) ensures a.layer == b.layer {
        SameOrderSameLayer(a.layer, reported.layer);
        SameOrderSameLayer(b.layer, reported.layer);
      }
    }
  }

  /** A platform and a department each forbid everything: the department is named, not the platform. */
  lemma {:induction false} OuterSealGoesUnnamed(input: Input)
    requires RoleChecksPass(input)
    requires input.rules == [Rule(Platform, None, None, Deny, true, None, "platform"),
                             Rule(Department, None, None, Deny, true, None, "department")]
    ensures Evaluate(input).decision == PolicyDenied("department", Department)
  {
    var inner := input.rules[1];
    assert SealsInput(input, inner);
    var reported := DenialNamesInnermostSeal(input);
    assert LayerOrder(inner.layer) <= LayerOrder(reported.layer);
    assert reported == inner;
  }

  // ----- the reason that is given -----

  /** The decision names the first check that fails, and only past the role checks do rules touch the scope. */
  lemma {:induction false} DecisionNamesTheFirstFailure(input: Input)
    ensures var decision := Evaluate(input).decision;
            && (decision == UserTypeCeiling <==> input.action in Forbidden(input.userType))
            && (decision == ModuleNotVisible <==> input.action !in Forbidden(input.userType) && input.moduleKey !in input.visibleModules)
            && (decision == RoleLacksAction <==>
                  && input.action !in Forbidden(input.userType) && input.moduleKey in input.visibleModules
                  && input.action !in input.grantedActions)
            && (decision == Permitted <==> Evaluate(input).allowed)
    ensures !RoleChecksPass(input) ==> Evaluate(input).effectiveScope == input.assignedScope
  {
  }

  /** Without a mandatory denial what refuses is the latest rule of the innermost layer, and it is named. */
  lemma {:induction false} StandingDenialIsNamed(input: Input)
    requires RoleChecksPass(input) && !Evaluate(input).allowed
    requires forall rule :: rule in input.rules && Applies(rule, input.moduleKey, input.action) ==>
               !(rule.mandatory && rule.effect == Deny)
    ensures var rules := Applicable(input.rules, input.moduleKey, input.action);
            && rules != []
            && Evaluate(input).decision == PolicyDenied(Governing(rules).value.reason, Governing(rules).value.layer)
  {
    var rules := Applicable(input.rules, input.moduleKey, input.action);
    MembersOfSort(rules, LayerRank);
    SealsAreFound(Chain(input));
    if rules != [] { ChainEndsWithGoverning(rules); }
  }

  // ----- the tables -----

  const OUTER_TO_INNER := [Platform, Company, Department, Objective, EngineAgent]

  const NARROW_TO_WIDE := [OwnWork, SelectedResource, TeamSubtree, DepartmentScope, MultipleDepartments, WholeCompany]

  /** Of two rules that apply the one of the inner layer decides, in whatever order they are listed. */
  lemma {:induction false} InnerLayerDecides(input: Input, i: nat, j: nat, outer: Rule, inner: Rule)
    requires RoleChecksPass(input) && i < j < |OUTER_TO_INNER|
    requires outer.layer == OUTER_TO_INNER[i] && inner.layer == OUTER_TO_INNER[j]
    requires (outer.effect == Allow || !outer.mandatory) && (inner.effect == Allow || !inner.mandatory)
    requires Applies(outer, input.moduleKey, input.action) && Applies(inner, input.moduleKey, input.action)
    ensures Evaluate(input.(rules := [outer, inner])).allowed <==> inner.effect == Allow
    ensures Evaluate(input.(rules := [inner, outer])).allowed <==> inner.effect == Allow
  {
    TwoRulesAreGoverned(input, outer, inner, inner);
    TwoRulesAreGoverned(input, inner, outer, inner);
  }

  lemma {:induction false} TwoRulesAreGoverned(input: Input, x: Rule, y: Rule, inner: Rule)
    requires RoleChecksPass(input) && !Seals(x) && !Seals(y)
    requires Applies(x, input.moduleKey, input.action) && Applies(y, input.moduleKey, input.action)
    requires (inner == x && LayerRank(y) < LayerRank(x)) || (inner == y && LayerRank(x) < LayerRank(y))
    ensures Evaluate(input.(rules := [x, y])).allowed <==> inner.effect == Allow
  {
    BothApply([x, y], input.moduleKey, input.action);
    AllowedExactlyWhen(input.(rules := [x, y]));
    GoverningOfTwo(x, y, inner);
  }

  lemma {:induction false} GoverningOfTwo(x: Rule, y: Rule, inner: Rule)
    requires (inner == x && LayerRank(y) < LayerRank(x)) || (inner == y && LayerRank(x) < LayerRank(y))
    ensures Governing([x, y]) == Some(inner)
  {
    assert [x, y][0] == x && [x, y][1] == y;
    assert x in [x, y] && y in [x, y];
  }

  lemma {:induction false} BothApply(rules: seq<Rule>, moduleKey: string, action: Action)
    requires |rules| == 2 && Applies(rules[0], moduleKey, action) && Applies(rules[1], moduleKey, action)
    ensures Applicable(rules, moduleKey, action) == rules
  {
    ApplicableOne(rules[0], moduleKey, action);
    ApplicableOne(rules[1], moduleKey, action);
    ApplicableAppend([rules[0]], [rules[1]], moduleKey, action);
    assert [rules[0]] + [rules[1]] == rules;
  }

  /** A ceiling narrows a scope exactly when it comes earlier among the six. */
  lemma {:induction false} CeilingNarrowsByPlace(i: nat, j: nat, rule: Rule)
    requires i < |NARROW_TO_WIDE| && j < |NARROW_TO_WIDE| && rule.maxScope == Some(NARROW_TO_WIDE[i])
    ensures Narrowest(NARROW_TO_WIDE[j], [rule]) == NARROW_TO_WIDE[if i < j then i else j]
  {
    assert [rule][..0] == [];
  }

  /** With everything granted and no rules, what each type of user may do. */
  lemma {:induction false} WhatAUserTypeMayDo(input: Input)
    requires input.rules == [] && input.moduleKey in input.visibleModules && input.action in input.grantedActions
    ensures input.userType == InternalUser ==> Evaluate(input).allowed
    ensures input.userType == ExternalGuest ==>
              (Evaluate(input).allowed <==> input.action in {View, Comment, Create, EditDraft, Assign})
    ensures input.userType == PlatformUser ==>
              (Evaluate(input).allowed <==>
                 input.action in {View, Comment, Create, EditDraft, Export, ManageAccess, Administer, Audit})
  {
    AllowedExactlyWhen(input);
    match input.action {
      case View => case Comment => case Create => case EditDraft => case Assign => case Approve => case Publish =>
      case Run => case Schedule => case Pause => case Export => case ManageAccess => case Administer => case Audit =>
    }
  }

  // ----- reordering -----

  lemma {:induction false} ApplicableWithinLayer(rules: seq<Rule>, moduleKey: string, action: Action, k: real)
    ensures WithKey(Applicable(rules, moduleKey, action), LayerRank, k) == Applicable(WithKey(rules, LayerRank, k), moduleKey, action)
  {
    if rules != [] {
      ApplicableWithinLayer(rules[1..], moduleKey, action, k);
      var rest := WithKey(rules[1..], LayerRank, k);
      assert ([rules[0]] + rest)[1..] == rest;
      var inner := Applicable(rules[1..], moduleKey, action);
      assert ([rules[0]] + inner)[1..] == inner;
    }
  }

  /** The whole result depends on the rules only up to the order between different layers. */
  lemma {:induction false} LayersMayBeListedInAnyOrder(input: Input, others: seq<Rule>)
    requires SameOrderWithinKeys(input.rules, others, LayerRank)
    ensures Evaluate(input) == Evaluate(input.(rules := others))
  {
    var m, x := input.moduleKey, input.action;
    forall k ensures WithKey(Applicable(input.rules, m, x), LayerRank, k) == WithKey(Applicable(others, m, x), LayerRank, k) {
      ApplicableWithinLayer(input.rules, m, x, k);
      ApplicableWithinLayer(others, m, x, k);
      assert WithKey(input.rules, LayerRank, k) == WithKey(others, LayerRank, k);
    }
    SortForgetsOrderBetweenKeys(Applicable(input.rules, m, x), Applicable(others, m, x), LayerRank);
  }

  /** The answer is the same for every listing of the same rules. */
  ghost predicate AnyOrderAgrees(input: Input) {
    forall others: seq<Rule> :: multiset(others) == multiset(input.rules) ==>
      Evaluate(input.(rules := others)).allowed == Evaluate(input).allowed
  }

  ghost predicate Innermost(rule: Rule, rules: seq<Rule>) {
    rule in rules && forall other :: other in rules ==> LayerRank(other) <= LayerRank(rule)
  }

  /** All applicable rules of the innermost layer say the same. */
  ghost predicate InnermostAgree(rules: seq<Rule>) {
    forall x, y :: Innermost(x, rules) && Innermost(y, rules) ==> x.effect == y.effect
  }

  lemma {:induction false} SameMembers(a: seq<Rule>, b: seq<Rule>, moduleKey: string, action: Action)
    requires multiset(a) == multiset(b)
    ensures forall rule :: rule in Applicable(a, moduleKey, action) <==> rule in Applicable(b, moduleKey, action)
  {
    assert forall rule :: rule in a <==> rule in multiset(a);
    assert forall rule :: rule in b <==> rule in multiset(b);
  }

  /** Moving an innermost rule to the end of the list makes it govern. */
  lemma {:induction false} LastInnermostGoverns(rules: seq<Rule>, rule: Rule)
    requires forall other :: other in rules ==> LayerRank(other) <= LayerRank(rule)
    ensures Governing(rules + [rule]) == Some(rule)
  {
    if rules != [] {
      LastInnermostGoverns(rules[1..], rule);
      assert (rules + [rule])[1..] == rules[1..] + [rule];
    }
  }

  lemma {:induction false} MoveToEnd(input: Input, rule: Rule) returns (others: seq<Rule>)
    requires RoleChecksPass(input) && Innermost(rule, Applicable(input.rules, input.moduleKey, input.action))
    ensures multiset(others) == multiset(input.rules)
    ensures Governing(Applicable(others, input.moduleKey, input.action)) == Some(rule)
  {
    var m, x := input.moduleKey, input.action;
    var i :| 0 <= i < |input.rules| && input.rules[i] == rule;
    var rest := input.rules[..i] + input.rules[i + 1..];
    others := rest + [rule];
    assert input.rules == input.rules[..i] + [rule] + input.rules[i + 1..];
    ApplicableAppend(rest, [rule], m, x);
    assert Applicable([rule], m, x) == [rule] by { assert [rule][1..] == []; }
    LastInnermostGoverns(Applicable(rest, m, x), rule);
  }

  /** No ordering of the rules can change the answer. */
  ghost predicate Settled(rules: seq<Rule>) {
    (exists rule :: rule in rules && rule.mandatory && rule.effect == Deny) || InnermostAgree(rules)
  }

  lemma {:induction false} SettledMeansAnyOrder(input: Input, others: seq<Rule>)
    requires RoleChecksPass(input) && multiset(others) == multiset(input.rules)
    requires Settled(Applicable(input.rules, input.moduleKey, input.action))
    ensures Evaluate(input.(rules := others)).allowed == Evaluate(input).allowed
  {
    var m, x := input.moduleKey, input.action;
    AllowedExactlyWhen(input);
    AllowedExactlyWhen(input.(rules := others));
    SameMembers(input.rules, others, m, x);
    GoverningRulesAgree(Applicable(input.rules, m, x), Applicable(others, m, x));
  }

  lemma {:induction false} UnsettledMeansOrderMatters(input: Input) returns (first: seq<Rule>, second: seq<Rule>)
    requires RoleChecksPass(input) && !Settled(Applicable(input.rules, input.moduleKey, input.action))
    ensures multiset(first) == multiset(input.rules) == multiset(second)
    ensures Evaluate(input.(rules := first)).allowed != Evaluate(input.(rules := second)).allowed
  {
    var m, x := input.moduleKey, input.action;
    var rules := Applicable(input.rules, m, x);
    var a, b :| Innermost(a, rules) && Innermost(b, rules) && a.effect != b.effect;
    first := MoveToEnd(input, a);
    second := MoveToEnd(input, b);
    AllowedExactlyWhen(input.(rules := first));
    AllowedExactlyWhen(input.(rules := second));
    SameMembers(input.rules, first, m, x);
    SameMembers(input.rules, second, m, x);
  }

  /**
    Exactly when listing the rules in any order is safe: some applicable rule is a mandatory
    denial, or the applicable rules of the innermost layer all have the same effect.
   */
  lemma {:induction false} OrderIsIrrelevantExactlyWhen(input: Input)
    requires RoleChecksPass(input)
    ensures AnyOrderAgrees(input) <==> Settled(Applicable(input.rules, input.moduleKey, input.action))
  {
    if Settled(Applicable(input.rules, input.moduleKey, input.action)) {
      forall others: seq<Rule> | multiset(others) == multiset(input.rules)
        ensures Evaluate(input.(rules := others)).allowed == Evaluate(input).allowed
      {
        SettledMeansAnyOrder(input, others);
      }
    } else {
      var first, second := UnsettledMeansOrderMatters(input);
    }
  }

  lemma {:induction false} GoverningRulesAgree(rules: seq<Rule>, others: seq<Rule>)
    requires forall rule :: rule in rules <==> rule in others
    ensures rules == [] <==> others == []
    ensures rules != [] && InnermostAgree(rules) ==> Governing(rules).value.effect == Governing(others).value.effect
  {
    if rules != [] { assert rules[0] in others; }
    if others != [] { assert others[0] in rules; }
    if rules != [] && InnermostAgree(rules) {
      assert Innermost(Governing(rules).value, rules) && Innermost(Governing(others).value, rules);
    }
  }

  lemma {:induction false} InFiltered(actions: seq<Action>, keep: Action -> bool, action: Action)
    ensures action in Filtered(actions, keep) <==> action in actions && keep(action)
  {
    if actions != [] { InFiltered(actions[1..], keep, action); }
  }

  lemma {:induction false} FilteredAppends(a: seq<Action>, b: seq<Action>, keep: Action -> bool)
    ensures Filtered(a + b, keep) == Filtered(a, keep) + Filtered(b, keep)
  {
    if a == [] {
      assert a + b == b;
    } else {
      FilteredAppends(a[1..], b, keep);
      assert (a + b)[1..] == a[1..] + b;
    }
  }

  /** The permission matrix lists exactly the actions that evaluation permits. */
  lemma {:induction false} MatrixAgreesWithEnforcement(input: Input, actions: seq<Action>, action: Action)
    ensures action in PermittedActions(input, actions) <==> action in actions && Evaluate(input.(action := action)).allowed
  {
    InFiltered(actions, (x: Action) => Evaluate(input.(action := x)).allowed, action);
  }

  /** And it lists them in the order in which they were asked for. */
  lemma {:induction false} MatrixFollowsTheActions(input: Input, a: seq<Action>, b: seq<Action>)
    ensures PermittedActions(input, a + b) == PermittedActions(input, a) + PermittedActions(input, b)
  {
    FilteredAppends(a, b, (x: Action) => Evaluate(input.(action := x)).allowed);
  }
}
