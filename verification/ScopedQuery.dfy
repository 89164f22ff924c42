/**
  Turning an ability into a query filter: `src/modules/authorization/ability-scoped-query.service.ts`,
  under an evaluator that silently drops an empty OR below an AND.
 */
module ScopedQuery {
  import opened Prelude
  import opened SubjectKeys
  import opened Abilities
  import opened Authority

  // ---------------------------------------------------------------- filters and their evaluators

  /** A filter is the conjunction of its clauses; `Passes` stands for any other column test. */
  datatype Filter = Filter(clauses: seq<Clause>)

  datatype Clause =
    | Equals(column: Column, value: Identifier)
    | IdInNothing
    | Passes(fact: nat)
    | Or(branches: seq<Filter>)
    | And(parts: seq<Filter>)
    | Not(negated: Filter)

  const UNRESTRICTED := Filter([])

  /** The evaluator of the table at the head of the service; `isNested` says an AND lies above. */
  predicate Selects(f: Filter, record: Record, isNested: bool)
    decreases f
  {
    forall i :: 0 <= i < |f.clauses| ==> ClauseSelects(f.clauses[i], record, isNested)
  }

  predicate ClauseSelects(c: Clause, record: Record, isNested: bool)
    decreases c
  {
    match c
    case Equals(column, value) => HasValue(record, column, value)
    case IdInNothing => false
    case Passes(fact) => fact in record.facts
    case Or(branches) =>
      || (isNested && branches == [])
      || exists i :: 0 <= i < |branches| && Selects(branches[i], record, isNested)
    case And(parts) => forall i :: 0 <= i < |parts| ==> Selects(parts[i], record, true)
    case Not(negated) => !Selects(negated, record, isNested)
  }

  /** What a filter says: an empty OR matches nothing, wherever it stands. */
  predicate Means(f: Filter, record: Record)
    decreases f
  {
    forall i :: 0 <= i < |f.clauses| ==> ClauseMeans(f.clauses[i], record)
  }

  predicate ClauseMeans(c: Clause, record: Record)
    decreases c
  {
    match c
    case Equals(column, value) => HasValue(record, column, value)
    case IdInNothing => false
    case Passes(fact) => fact in record.facts
    case Or(branches) => exists i :: 0 <= i < |branches| && Means(branches[i], record)
    case And(parts) => forall i :: 0 <= i < |parts| ==> Means(parts[i], record)
    case Not(negated) => !Means(negated, record)
  }

  predicate HasNoEmptyOr(f: Filter)
    decreases f
  {
    forall i :: 0 <= i < |f.clauses| ==> ClauseHasNoEmptyOr(f.clauses[i])
  }

  predicate ClauseHasNoEmptyOr(c: Clause)
    decreases c
  {
    match c
    case Or(branches) => branches != [] && forall i :: 0 <= i < |branches| ==> HasNoEmptyOr(branches[i])
    case And(parts) => forall i :: 0 <= i < |parts| ==> HasNoEmptyOr(parts[i])
    case Not(negated) => HasNoEmptyOr(negated)
    case _ => true
  }

  /** Without an empty OR in it, a filter selects what it says, at any depth. */
  lemma {:induction false} QuirkNeedsAnEmptyOr(f: Filter, record: Record, isNested: bool)
    requires HasNoEmptyOr(f)
    ensures Selects(f, record, isNested) <==> Means(f, record)
    decreases f
  {
    forall i | 0 <= i < |f.clauses|
      ensures ClauseSelects(f.clauses[i], record, isNested) <==> ClauseMeans(f.clauses[i], record)
    {
      ClauseQuirkNeedsAnEmptyOr(f.clauses[i], record, isNested);
    }
  }

  lemma {:induction false} ClauseQuirkNeedsAnEmptyOr(c: Clause, record: Record, isNested: bool)
    requires ClauseHasNoEmptyOr(c)
    ensures ClauseSelects(c, record, isNested) <==> ClauseMeans(c, record)
    decreases c
  {
    match c
    case Or(branches) =>
      forall i | 0 <= i < |branches|
        ensures Selects(branches[i], record, isNested) <==> Means(branches[i], record)
      {
        QuirkNeedsAnEmptyOr(branches[i], record, isNested);
      }
    case And(parts) =>
      forall i | 0 <= i < |parts|
        ensures Selects(parts[i], record, true) <==> Means(parts[i], record)
      {
        QuirkNeedsAnEmptyOr(parts[i], record, true);
      }
    case Not(negated) => QuirkNeedsAnEmptyOr(negated, record, isNested);
    case _ =>
  }

  // ---------------------------------------------------------------- from rules to a filter

  /** The rules on (`action`, `subject`), the last defined first. */
  function Relevant(rules: seq<Rule>, action: Action, subject: Subject): seq<Rule> {
    if rules == [] then []
    else Relevant(rules[1..], action, subject) + if Applies(rules[0], action, subject) then [rules[0]] else []
  }

  function Condition(rule: Rule): Filter {
    if rule.condition.Always? then UNRESTRICTED else Filter([Equals(rule.condition.column, rule.condition.value)])
  }

  function Branches(relevant: seq<Rule>): seq<Filter> {
    seq(|relevant|, i requires 0 <= i < |relevant| => Condition(relevant[i]))
  }

  /** CASL's `accessibleBy`: no filter as soon as one rule is unconditional, else one OR of conditions. */
  function AccessibleBy(rules: seq<Rule>, action: Action, subject: Subject): Filter {
    var relevant := Relevant(rules, action, subject);
    if exists rule <- relevant :: rule.condition.Always? then UNRESTRICTED
    else Filter([Or(Branches(relevant))])
  }

  datatype Denied = PermissionDenied | WorkspaceNotFound

  function BuildWhere(rules: seq<Rule>, action: Action, subject: Subject, caller: Filter): Result<Filter, Denied> {
    if !CanSome(rules, action, subject) then Err(PermissionDenied)
    else
      var fragment := AccessibleBy(rules, action, subject);
      if fragment.clauses == [Or([])] then Err(PermissionDenied)
      else Ok(Filter(fragment.clauses + [And([caller])]))
  }

  function BuildWhereOrEmpty(rules: seq<Rule>, action: Action, subject: Subject, caller: Filter): Result<Filter, Denied> {
    if !CanSome(rules, action, subject) then Ok(Filter([IdInNothing, And([caller])]))
    else BuildWhere(rules, action, subject, caller)
  }

  function AssertWorkspaceReachable(rules: seq<Rule>, action: Action, subject: Subject, workspaceId: Identifier)
    : Result<(), Denied>
    requires TenantKey(subject).Some? && OwnerKey(subject).None?
  {
    if !Can(rules, action, subject, Stub(subject, workspaceId)) then Err(WorkspaceNotFound) else Ok(())
  }

  /** A record of which only the tenant key is known. */
  function Stub(subject: Subject, workspaceId: Identifier): Record
    requires TenantKey(subject).Some?
  {
    Record(map[TenantKey(subject).value := workspaceId], {})
  }

  // ---------------------------------------------------------------- the filter means what the rules mean

  lemma {:induction false} RelevantExactly(rules: seq<Rule>, action: Action, subject: Subject, rule: Rule)
    ensures rule in Relevant(rules, action, subject) <==> rule in rules && Applies(rule, action, subject)
  {
    if rules != [] {
      RelevantExactly(rules[1..], action, subject, rule);
    }
  }

  lemma OneClause(c: Clause, record: Record, isNested: bool)
    ensures Selects(Filter([c]), record, isNested) <==> ClauseSelects(c, record, isNested)
    ensures HasNoEmptyOr(Filter([c])) <==> ClauseHasNoEmptyOr(c)
  {
    assert Filter([c]).clauses[0] == c;
  }

  /** The fragment of an ability with a rule on the request, at top level or below an AND. */
  lemma FragmentMeansTheRules(rules: seq<Rule>, action: Action, subject: Subject, record: Record, isNested: bool)
    requires CanSome(rules, action, subject)
    ensures Selects(AccessibleBy(rules, action, subject), record, isNested) <==> Can(rules, action, subject, record)
    ensures HasNoEmptyOr(AccessibleBy(rules, action, subject))
    ensures AccessibleBy(rules, action, subject).clauses != [Or([])]
  {
    var relevant := Relevant(rules, action, subject);
    forall rule: Rule
      ensures rule in relevant <==> rule in rules && Applies(rule, action, subject)
    {
      RelevantExactly(rules, action, subject, rule);
    }
    CanIsSomeRelevant(rules, relevant, action, subject, record);
    if rule :| rule in relevant && rule.condition.Always? {
      assert Holds(rule.condition, record);
    } else {
      BranchesMeanTheRules(relevant, record, isNested);
      OneClause(Or(Branches(relevant)), record, isNested);
    }
  }

  lemma CanIsSomeRelevant(rules: seq<Rule>, relevant: seq<Rule>, action: Action, subject: Subject, record: Record)
    requires forall rule :: rule in relevant <==> rule in rules && Applies(rule, action, subject)
    requires CanSome(rules, action, subject)
    ensures relevant != []
    ensures Can(rules, action, subject, record) <==> exists rule <- relevant :: Holds(rule.condition, record)
  {
  }

  lemma BranchesMeanTheRules(relevant: seq<Rule>, record: Record, isNested: bool)
    requires relevant != [] && forall rule <- relevant :: !rule.condition.Always?
    ensures ClauseSelects(Or(Branches(relevant)), record, isNested)
       <==> exists rule <- relevant :: Holds(rule.condition, record)
    ensures ClauseHasNoEmptyOr(Or(Branches(relevant)))
  {
    var branches := Branches(relevant);
    forall i | 0 <= i < |relevant|
      ensures Selects(branches[i], record, isNested) <==> Holds(relevant[i].condition, record)
      ensures HasNoEmptyOr(branches[i])
    {
      var clause := Equals(relevant[i].condition.column, relevant[i].condition.value);
      assert relevant[i] in relevant && branches[i].clauses == [clause] && branches[i].clauses[0] == clause;
    }
    if rule :| rule in relevant && Holds(rule.condition, record) {
      var i :| 0 <= i < |relevant| && relevant[i] == rule;
      assert Selects(branches[i], record, isNested);
    }
  }

  lemma SpreadSelects(fragment: Filter, caller: Filter, record: Record)
    ensures Selects(Filter(fragment.clauses + [And([caller])]), record, false)
       <==> Selects(fragment, record, false) && Selects(caller, record, true)
  {
    var f := Filter(fragment.clauses + [And([caller])]);
    assert f.clauses[|fragment.clauses|] == And([caller]);
    assert ClauseSelects(And([caller]), record, false) <==> Selects([caller][0], record, true);
    assert forall i :: 0 <= i < |fragment.clauses| ==> f.clauses[i] == fragment.clauses[i];
  }

  /**
    For every ability, action, subject, caller filter and record: `buildWhere` throws exactly when
    no rule covers the request, and otherwise selects the record exactly when the instance check
    allows it and the caller's filter, as it is read below an AND, matches it.
   */
  lemma BuildWhereMeansTheRules(rules: seq<Rule>, action: Action, subject: Subject, caller: Filter, record: Record)
    ensures BuildWhere(rules, action, subject, caller).Ok? <==> CanSome(rules, action, subject)
    ensures var built := BuildWhere(rules, action, subject, caller);
      built.Ok? ==>
        (Selects(built.value, record, false) <==> Can(rules, action, subject, record) && Selects(caller, record, true))
  {
    if CanSome(rules, action, subject) {
      FragmentMeansTheRules(rules, action, subject, record, false);
      SpreadSelects(AccessibleBy(rules, action, subject), caller, record);
    }
  }

  /** For a caller filter without an empty OR, the built filter selects what it says. */
  lemma BuiltWhereIsPlain(rules: seq<Rule>, action: Action, subject: Subject, caller: Filter, record: Record)
    requires HasNoEmptyOr(caller) && CanSome(rules, action, subject)
    ensures BuildWhere(rules, action, subject, caller).Ok?
    ensures Means(BuildWhere(rules, action, subject, caller).value, record)
       <==> Can(rules, action, subject, record) && Means(caller, record)
  {
    BuildWhereMeansTheRules(rules, action, subject, caller, record);
    FragmentMeansTheRules(rules, action, subject, record, false);
    QuirkNeedsAnEmptyOr(caller, record, true);
    QuirkNeedsAnEmptyOr(BuildWhere(rules, action, subject, caller).value, record, false);
  }

  /** `buildWhereOrEmpty` never throws, and selects exactly what the instance check and the caller allow. */
  lemma BuildWhereOrEmptyMeansTheRules(
    rules: seq<Rule>, action: Action, subject: Subject, caller: Filter, record: Record)
    ensures BuildWhereOrEmpty(rules, action, subject, caller).Ok?
    ensures Selects(BuildWhereOrEmpty(rules, action, subject, caller).value, record, false)
       <==> Can(rules, action, subject, record) && Selects(caller, record, true)
  {
    if CanSome(rules, action, subject) {
      BuildWhereMeansTheRules(rules, action, subject, caller, record);
    } else {
      assert Filter([IdInNothing, And([caller])]).clauses[0] == IdInNothing;
    }
  }

  /** The obvious merge, `AND` of the caller's filter and the fragment. */
  function NaiveMerge(rules: seq<Rule>, action: Action, subject: Subject, caller: Filter): Filter {
    Filter([And([caller, AccessibleBy(rules, action, subject)])])
  }

  /** The merge agrees with the rules as long as one covers the request, and lets everything through when none does. */
  lemma NaiveMergeNeedsARule(rules: seq<Rule>, action: Action, subject: Subject, caller: Filter, record: Record)
    ensures Selects(NaiveMerge(rules, action, subject, caller), record, false)
       <==> Selects(caller, record, true) && (CanSome(rules, action, subject) ==> Can(rules, action, subject, record))
  {
    var fragment := AccessibleBy(rules, action, subject);
    MergeSelects(fragment, caller, record);
    if CanSome(rules, action, subject) {
      FragmentMeansTheRules(rules, action, subject, record, true);
    } else {
      var relevant := Relevant(rules, action, subject);
      if relevant != [] {
        RelevantExactly(rules, action, subject, relevant[0]);
      }
      assert relevant == [] && Branches(relevant) == [];
      OneClause(Or([]), record, true);
    }
  }

  lemma MergeSelects(fragment: Filter, caller: Filter, record: Record)
    ensures Selects(Filter([And([caller, fragment])]), record, false)
       <==> Selects(caller, record, true) && Selects(fragment, record, true)
  {
    var parts := [caller, fragment];
    OneClause(And(parts), record, false);
    assert parts[0] == caller && parts[1] == fragment;
  }

  // ---------------------------------------------------------------- one key is enough for a workspace

  /**
    On a compiled ability, the check on the one-key stub is the check on every record of that
    workspace: `assertWorkspaceReachable` answers for all of them.
   */
  lemma StubAnswersForItsWorkspace(
    userId: Identifier, grants: Grants, action: Action, subject: Subject, workspaceId: Identifier, record: Record)
    requires Compile(userId, grants).Ok? && TenantKey(subject).Some? && OwnerKey(subject).None?
    requires HasValue(record, TenantKey(subject).value, workspaceId)
    ensures AssertWorkspaceReachable(Compile(userId, grants).value, action, subject, workspaceId).Ok?
       <==> Can(Compile(userId, grants).value, action, subject, record)
  {
    AuthorityIsExact(userId, grants, action, subject, record);
    AuthorityIsExact(userId, grants, action, subject, Stub(subject, workspaceId));
    SameTenantSameAnswer(userId, grants, action, subject, workspaceId, record, Stub(subject, workspaceId));
    SameTenantSameAnswer(userId, grants, action, subject, workspaceId, Stub(subject, workspaceId), record);
  }

  /** The grants that reach one record of a workspace reach another, unless they are the owner's. */
  lemma SameTenantSameAnswer(
    userId: Identifier, grants: Grants, action: Action, subject: Subject, workspaceId: Identifier,
    one: Record, two: Record)
    requires TenantKey(subject).Some? && OwnerKey(subject).None?
    requires HasValue(one, TenantKey(subject).value, workspaceId) && HasValue(two, TenantKey(subject).value, workspaceId)
    ensures PlatformAllows(userId, grants, action, subject, one) ==> PlatformAllows(userId, grants, action, subject, two)
    ensures WorkspaceAllows(grants, action, subject, one) ==> WorkspaceAllows(grants, action, subject, two)
  {
    forall g | PlatformReaches(userId, g, action, subject, one)
      ensures PlatformReaches(userId, g, action, subject, two)
    {
    }
    forall g, id | TenantReaches(id, g, action, subject, one)
      ensures TenantReaches(id, g, action, subject, two)
    {
    }
  }

  /**
    Why memberships are excluded: with no grant at all, a member may read their own membership row
    of every workspace, and the stub of none of them says so.
   */
  lemma StubMissesTheOwnRow(userId: Identifier, workspaceId: Identifier)
    ensures var own := Record(map[WorkspaceIdColumn := workspaceId, UserIdColumn := userId], {});
      && Compile(userId, Grants([], [])).Ok?
      && Can(Compile(userId, Grants([], [])).value, Read, WorkspaceMembership, own)
      && !Can(Compile(userId, Grants([], [])).value, Read, WorkspaceMembership, Stub(WorkspaceMembership, workspaceId))
  {
    var grants := Grants([], []);
    var own := Record(map[WorkspaceIdColumn := workspaceId, UserIdColumn := userId], {});
    FailureIsExact(userId, grants);
    AuthorityIsExact(userId, grants, Read, WorkspaceMembership, own);
    AuthorityIsExact(userId, grants, Read, WorkspaceMembership, Stub(WorkspaceMembership, workspaceId));
    assert PlatformReaches(userId, INTRINSIC[4], Read, WorkspaceMembership, own);
  }
}
