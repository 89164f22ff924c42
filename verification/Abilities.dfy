/**
  Rules, the questions asked of them, and the compiler of
  `src/modules/authorization/ability.factory.ts` that derives them from a user's grants.
 */
module Abilities {
  import opened Prelude
  import opened SubjectKeys

  /** An identifier, as an opaque number; `EMPTY` stands for the empty string. */
  type Identifier = nat

  const EMPTY: Identifier := 0

  // Grants are read back from a cache, so any of their fields may be out of range.
  datatype Scope = PlatformScope | WorkspaceScope | UnknownScope
  datatype Ownership = Own | Any | UnknownOwnership
  datatype MembershipStatus = Active | Suspended | Left | UnknownStatus

  datatype Grant = Grant(action: Action, subject: Subject, scope: Scope, ownership: Ownership)

  datatype MembershipGrant = MembershipGrant(
    workspaceId: Option<Identifier>,
    status: MembershipStatus,
    permissions: seq<Grant>)
  {
    predicate Confers() {
      status.Active? && workspaceId.Some? && workspaceId.value != EMPTY
    }
  }

  datatype Grants = Grants(platform: seq<Grant>, memberships: seq<MembershipGrant>)

  /** What every authenticated caller holds with no role at all. */
  const INTRINSIC: seq<Grant> := [
    Grant(Read, User, PlatformScope, Own),
    Grant(Update, User, PlatformScope, Own),
    Grant(Delete, User, PlatformScope, Own),
    Grant(Manage, DeviceToken, PlatformScope, Own),
    Grant(Read, WorkspaceMembership, PlatformScope, Own),
    Grant(Create, Workspace, PlatformScope, Any),
    Grant(Read, Role, PlatformScope, Any),
    Grant(Read, Permission, PlatformScope, Any)]

  // ---------------------------------------------------------------- rules

  datatype Condition = Always | Where(column: Column, value: Identifier)

  datatype Rule = Rule(action: Action, subject: Subject, condition: Condition)

  /** A record, as far as conditions and filters read it; `facts` are the other tests it passes. */
  datatype Record = Record(columns: map<Column, Identifier>, facts: set<nat>)

  predicate HasValue(record: Record, column: Column, value: Identifier) {
    column in record.columns && record.columns[column] == value
  }

  predicate Holds(condition: Condition, record: Record) {
    condition.Where? ==> HasValue(record, condition.column, condition.value)
  }

  /** A rule or a grant on (`action`, `subject`) speaks of what is asked. */
  predicate Covers(action: Action, subject: Subject, askedAction: Action, askedSubject: Subject) {
    (action == askedAction || action == Manage) && (subject == askedSubject || subject == All)
  }

  predicate Applies(rule: Rule, action: Action, subject: Subject) {
    Covers(rule.action, rule.subject, action, subject)
  }

  /** The subject-type check: conditions are ignored, as there is no record to test. */
  predicate CanSome(rules: seq<Rule>, action: Action, subject: Subject) {
    exists rule <- rules :: Applies(rule, action, subject)
  }

  /** The subject-instance check. */
  predicate Can(rules: seq<Rule>, action: Action, subject: Subject, record: Record) {
    exists rule <- rules :: Applies(rule, action, subject) && Holds(rule.condition, record)
  }

  // ---------------------------------------------------------------- what each grant compiles to

  /** What a grant adds to the ability. */
  datatype Outcome = Dropped | Added(rule: Rule) | Thrown(subject: Subject)

  function Conditioned(grant: Grant, key: Option<Column>, value: Identifier): Outcome {
    if key.Some? then Added(Rule(grant.action, grant.subject, Where(key.value, value))) else Thrown(grant.subject)
  }

  function PlatformOutcome(userId: Identifier, grant: Grant): Outcome {
    if grant.scope != PlatformScope then Dropped
    else if grant.ownership == Own then Conditioned(grant, OwnerKey(grant.subject), userId)
    else if grant.ownership == Any then Added(Rule(grant.action, grant.subject, Always))
    else Dropped
  }

  function TenantOutcome(workspaceId: Identifier, grant: Grant): Outcome {
    if grant.scope != WorkspaceScope then Dropped
    else Conditioned(grant, TenantKey(grant.subject), workspaceId)
  }

  function PlatformOutcomes(userId: Identifier, grants: seq<Grant>): (outcomes: seq<Outcome>)
    ensures |outcomes| == |grants| && forall i :: 0 <= i < |grants| ==> outcomes[i] == PlatformOutcome(userId, grants[i])
  {
    seq(|grants|, i requires 0 <= i < |grants| => PlatformOutcome(userId, grants[i]))
  }

  function TenantOutcomes(workspaceId: Identifier, grants: seq<Grant>): (outcomes: seq<Outcome>)
    ensures |outcomes| == |grants|
    ensures forall i :: 0 <= i < |grants| ==> outcomes[i] == TenantOutcome(workspaceId, grants[i])
  {
    seq(|grants|, i requires 0 <= i < |grants| => TenantOutcome(workspaceId, grants[i]))
  }

  function MembershipOutcome(membership: MembershipGrant): seq<Outcome> {
    if membership.Confers() then TenantOutcomes(membership.workspaceId.value, membership.permissions) else []
  }

  /** The outcomes of the first `count` memberships. */
  function MembershipOutcomes(memberships: seq<MembershipGrant>, count: nat): seq<Outcome>
    requires count <= |memberships|
  {
    if count == 0 then [] else MembershipOutcomes(memberships, count - 1) + MembershipOutcome(memberships[count - 1])
  }

  function Outcomes(userId: Identifier, grants: Grants): seq<Outcome> {
    PlatformOutcomes(userId, INTRINSIC) + PlatformOutcomes(userId, grants.platform)
    + MembershipOutcomes(grants.memberships, |grants.memberships|)
  }

  /** The rules added, in order, or the first subject a key could not be found for. */
  function Compiled(outcomes: seq<Outcome>): Result<seq<Rule>, Subject> {
    if outcomes == [] then Ok([])
    else
      var before := Compiled(outcomes[..|outcomes| - 1]);
      if before.Err? then before else Extended(before.value, outcomes[|outcomes| - 1])
  }

  function Extended(rules: seq<Rule>, outcome: Outcome): Result<seq<Rule>, Subject> {
    match outcome
    case Dropped => Ok(rules)
    case Added(rule) => Ok(rules + [rule])
    case Thrown(subject) => Err(subject)
  }

  function Compile(userId: Identifier, grants: Grants): Result<seq<Rule>, Subject> {
    Compiled(Outcomes(userId, grants))
  }

  lemma CompiledSnoc(outcomes: seq<Outcome>, outcome: Outcome)
    ensures Compiled(outcomes + [outcome]) ==
      (if Compiled(outcomes).Err? then Compiled(outcomes)
       else Extended(Compiled(outcomes).value, outcome))
  {
    assert (outcomes + [outcome])[..|outcomes|] == outcomes;
  }

  lemma {:induction false} FailureIsFinal(outcomes: seq<Outcome>, all: seq<Outcome>)
    requires outcomes <= all && Compiled(outcomes).Err?
    ensures Compiled(all) == Compiled(outcomes)
  {
    if outcomes == all {
    } else {
      var n := |all| - 1;
      FailureIsFinal(outcomes, all[..n]);
      CompiledSnoc(all[..n], all[n]);
      assert all == all[..n] + [all[n]];
    }
  }

  /** One more outcome compiled: the step of every loop below. */
  lemma CompiledStep(before: seq<Outcome>, outcomes: seq<Outcome>, i: nat)
    requires i < |outcomes| && Compiled(before + outcomes[..i]).Ok?
    ensures var next := Compiled(before + outcomes[..i + 1]);
      && next == Extended(Compiled(before + outcomes[..i]).value, outcomes[i])
      && (next.Err? ==> Compiled(before + outcomes) == next)
  {
    CompiledSnoc(before + outcomes[..i], outcomes[i]);
    assert before + outcomes[..i + 1] == before + outcomes[..i] + [outcomes[i]];
    if Compiled(before + outcomes[..i + 1]).Err? {
      FailureIsFinal(before + outcomes[..i + 1], before + outcomes);
    }
  }

  lemma CompiledEnds(before: seq<Outcome>, outcomes: seq<Outcome>)
    ensures Compiled(before + outcomes[..0]) == Compiled(before)
    ensures Compiled(before + outcomes[..|outcomes|]) == Compiled(before + outcomes)
  {
    assert before + outcomes[..0] == before;
    assert outcomes[..|outcomes|] == outcomes;
  }

  lemma {:induction false} MembershipPrefix(memberships: seq<MembershipGrant>, i: nat, j: nat)
    requires i <= j <= |memberships|
    ensures MembershipOutcomes(memberships, i) <= MembershipOutcomes(memberships, j)
  {
    if i < j {
      MembershipPrefix(memberships, i, j - 1);
    }
  }

  lemma MembershipStep(before: seq<Outcome>, memberships: seq<MembershipGrant>, i: nat)
    requires i < |memberships|
    ensures var m := memberships[i];
      before + MembershipOutcomes(memberships, i + 1) == before + MembershipOutcomes(memberships, i)
        + if m.Confers() then TenantOutcomes(m.workspaceId.value, m.permissions) else []
    ensures !memberships[i].Confers() ==>
      before + MembershipOutcomes(memberships, i + 1) == before + MembershipOutcomes(memberships, i)
  {
  }

  lemma MembershipFailure(before: seq<Outcome>, memberships: seq<MembershipGrant>, i: nat)
    requires i <= |memberships| && Compiled(before + MembershipOutcomes(memberships, i)).Err?
    ensures Compiled(before + MembershipOutcomes(memberships, |memberships|))
         == Compiled(before + MembershipOutcomes(memberships, i))
  {
    var done, all := MembershipOutcomes(memberships, i), MembershipOutcomes(memberships, |memberships|);
    MembershipPrefix(memberships, i, |memberships|);
    FailureIsFinal(before + done, before + all);
  }

  // ---------------------------------------------------------------- the compiler

  class AbilityBuilder {
    var rules: seq<Rule>

    constructor ()
      ensures rules == []
    {
      rules := [];
    }

    method Can(action: Action, subject: Subject, condition: Condition)
      modifies this
      ensures rules == old(rules) + [Rule(action, subject, condition)]
    {
      rules := rules + [Rule(action, subject, condition)];
    }

    /** `grant`: ownership is matched against both known values, and anything else is dropped. */
    method GrantPlatform(permission: Grant, userId: Identifier) returns (fault: Option<Subject>)
      requires permission.scope == PlatformScope
      modifies this
      ensures Extended(old(rules), PlatformOutcome(userId, permission))
           == (if fault.Some? then Err(fault.value) else Ok(rules))
    {
      fault := None;
      if permission.ownership == Own {
        var key := OwnerKey(permission.subject);
        if key.None? {
          return Some(permission.subject);
        }
        Can(permission.action, permission.subject, Where(key.value, userId));
        return;
      }
      if permission.ownership == Any {
        Can(permission.action, permission.subject, Always);
      }
    }

    /** Each of the two platform loops. */
    method GrantAllPlatform(permissions: seq<Grant>, userId: Identifier, ghost before: seq<Outcome>)
      returns (fault: Option<Subject>)
      requires Compiled(before) == Ok(rules)
      modifies this
      ensures Compiled(before + PlatformOutcomes(userId, permissions))
           == (if fault.Some? then Err(fault.value) else Ok(rules))
    {
      ghost var outcomes := PlatformOutcomes(userId, permissions);
      CompiledEnds(before, outcomes);
      var i := 0;
      while i < |permissions|
        invariant 0 <= i <= |permissions|
        invariant Compiled(before + outcomes[..i]) == Ok(rules)
      {
        CompiledStep(before, outcomes, i);
        var permission := permissions[i];
        i := i + 1;
        if permission.scope != PlatformScope {
          continue;
        }
        fault := GrantPlatform(permission, userId);
        if fault.Some? {
          return;
        }
      }
      fault := None;
    }

    /** The inner membership loop, for a membership that confers authority. */
    method GrantTenant(permissions: seq<Grant>, workspaceId: Identifier, ghost before: seq<Outcome>)
      returns (fault: Option<Subject>)
      requires Compiled(before) == Ok(rules)
      modifies this
      ensures Compiled(before + TenantOutcomes(workspaceId, permissions))
           == (if fault.Some? then Err(fault.value) else Ok(rules))
    {
      ghost var outcomes := TenantOutcomes(workspaceId, permissions);
      CompiledEnds(before, outcomes);
      var i := 0;
      while i < |permissions|
        invariant 0 <= i <= |permissions|
        invariant Compiled(before + outcomes[..i]) == Ok(rules)
      {
        CompiledStep(before, outcomes, i);
        var permission := permissions[i];
        i := i + 1;
        if permission.scope != WorkspaceScope {
          continue;
        }
        var key := TenantKey(permission.subject);
        if key.None? {
          return Some(permission.subject);
        }
        Can(permission.action, permission.subject, Where(key.value, workspaceId));
      }
      fault := None;
    }

    /** The outer membership loop. */
    method GrantMemberships(memberships: seq<MembershipGrant>, ghost before: seq<Outcome>)
      returns (fault: Option<Subject>)
      requires Compiled(before) == Ok(rules)
      modifies this
      ensures Compiled(before + MembershipOutcomes(memberships, |memberships|))
           == (if fault.Some? then Err(fault.value) else Ok(rules))
    {
      var i := 0;
      assert before + MembershipOutcomes(memberships, 0) == before;
      while i < |memberships|
        invariant 0 <= i <= |memberships|
        invariant Compiled(before + MembershipOutcomes(memberships, i)) == Ok(rules)
      {
        var membership := memberships[i];
        ghost var outcomes := before + MembershipOutcomes(memberships, i);
        MembershipStep(before, memberships, i);
        i := i + 1;
        if membership.status != Active {
          continue;
        }
        if membership.workspaceId.None? || membership.workspaceId.value == EMPTY {
          continue;
        }
        fault := GrantTenant(membership.permissions, membership.workspaceId.value, outcomes);
        if fault.Some? {
          MembershipFailure(before, memberships, i);
          return;
        }
      }
      fault := None;
    }
  }

  /** Compiles a user's grants into one ability, or fails on the first subject without a key. */
  method CreateForUser(userId: Identifier, grants: Grants) returns (ability: Result<seq<Rule>, Subject>)
    ensures ability == Compile(userId, grants)
  {
    var builder := new AbilityBuilder();
    ghost var intrinsic := PlatformOutcomes(userId, INTRINSIC);
    ghost var platform := intrinsic + PlatformOutcomes(userId, grants.platform);
    var fault := builder.GrantAllPlatform(INTRINSIC, userId, []);
    assert [] + intrinsic == intrinsic;
    if fault.Some? {
      FailureIsFinal(intrinsic, Outcomes(userId, grants));
      return Err(fault.value);
    }
    fault := builder.GrantAllPlatform(grants.platform, userId, intrinsic);
    if fault.Some? {
      FailureIsFinal(platform, Outcomes(userId, grants));
      return Err(fault.value);
    }
    fault := builder.GrantMemberships(grants.memberships, platform);
    return if fault.Some? then Err(fault.value) else Ok(builder.rules);
  }
}
