/** Exactly what a compiled ability allows, and exactly when compilation fails. */
module Authority {
  import opened Prelude
  import opened SubjectKeys
  import opened Abilities

  // ---------------------------------------------------------------- the rules are the outcomes

  lemma {:induction false} CompiledExactly(outcomes: seq<Outcome>)
    ensures Compiled(outcomes).Err? <==> exists outcome <- outcomes :: outcome.Thrown?
    ensures Compiled(outcomes).Ok? ==> forall rule :: rule in Compiled(outcomes).value <==> Added(rule) in outcomes
  {
    if outcomes != [] {
      var n := |outcomes| - 1;
      CompiledExactly(outcomes[..n]);
      assert outcomes == outcomes[..n] + [outcomes[n]];
    }
  }

  /** The outcome is a rule that allows the action on the record. */
  predicate Allows(outcome: Outcome, action: Action, subject: Subject, record: Record) {
    outcome.Added? && Applies(outcome.rule, action, subject) && Holds(outcome.rule.condition, record)
  }

  lemma CanComesFromAnOutcome(
    rules: seq<Rule>, outcomes: seq<Outcome>, action: Action, subject: Subject, record: Record) returns (outcome: Outcome)
    requires forall rule :: rule in rules ==> Added(rule) in outcomes
    requires Can(rules, action, subject, record)
    ensures outcome in outcomes && Allows(outcome, action, subject, record)
  {
    var rule :| rule in rules && Applies(rule, action, subject) && Holds(rule.condition, record);
    outcome := Added(rule);
  }

  // ---------------------------------------------------------------- where the outcomes come from

  ghost predicate IsPlatformOutcome(userId: Identifier, grants: Grants, outcome: Outcome) {
    exists g :: (g in INTRINSIC || g in grants.platform) && outcome == PlatformOutcome(userId, g)
  }

  ghost predicate IsTenantOutcome(grants: Grants, outcome: Outcome) {
    exists m, g :: m in grants.memberships && m.Confers() && g in m.permissions
      && outcome == TenantOutcome(m.workspaceId.value, g)
  }

  lemma LastMembership(memberships: seq<MembershipGrant>, count: nat, outcome: Outcome)
    requires 0 < count <= |memberships|
    ensures outcome in MembershipOutcomes(memberships, count) <==>
      outcome in MembershipOutcomes(memberships, count - 1) || outcome in MembershipOutcome(memberships[count - 1])
  {
  }

  lemma {:induction false} MembershipOutcomeOrigins(memberships: seq<MembershipGrant>, count: nat, outcome: Outcome)
    requires count <= |memberships|
    ensures outcome in MembershipOutcomes(memberships, count)
       <==> exists i :: 0 <= i < count && outcome in MembershipOutcome(memberships[i])
  {
    if count > 0 {
      MembershipOutcomeOrigins(memberships, count - 1, outcome);
      LastMembership(memberships, count, outcome);
    }
  }

  lemma OutcomeOrigins(userId: Identifier, grants: Grants, outcome: Outcome)
    requires outcome in Outcomes(userId, grants)
    ensures IsPlatformOutcome(userId, grants, outcome) || IsTenantOutcome(grants, outcome)
  {
    var intrinsic, platform := PlatformOutcomes(userId, INTRINSIC), PlatformOutcomes(userId, grants.platform);
    if outcome in intrinsic {
      var i :| 0 <= i < |intrinsic| && intrinsic[i] == outcome;
      assert INTRINSIC[i] in INTRINSIC;
    } else if outcome in platform {
      var i :| 0 <= i < |platform| && platform[i] == outcome;
      assert grants.platform[i] in grants.platform;
    } else {
      MembershipOutcomeOrigins(grants.memberships, |grants.memberships|, outcome);
      var i :| 0 <= i < |grants.memberships| && outcome in MembershipOutcome(grants.memberships[i]);
      var m := grants.memberships[i];
      var j :| 0 <= j < |MembershipOutcome(m)| && MembershipOutcome(m)[j] == outcome;
      assert m in grants.memberships && m.permissions[j] in m.permissions;
    }
  }

  lemma PlatformOutcomeIsThere(userId: Identifier, grants: Grants, g: Grant)
    requires g in INTRINSIC || g in grants.platform
    ensures PlatformOutcome(userId, g) in Outcomes(userId, grants)
  {
    if g in grants.platform {
      var i :| 0 <= i < |grants.platform| && grants.platform[i] == g;
      assert PlatformOutcomes(userId, grants.platform)[i] == PlatformOutcome(userId, g);
    } else {
      var i :| 0 <= i < |INTRINSIC| && INTRINSIC[i] == g;
      assert PlatformOutcomes(userId, INTRINSIC)[i] == PlatformOutcome(userId, g);
    }
  }

  lemma TenantOutcomeIsThere(userId: Identifier, grants: Grants, m: MembershipGrant, g: Grant)
    requires m in grants.memberships && m.Confers() && g in m.permissions
    ensures TenantOutcome(m.workspaceId.value, g) in Outcomes(userId, grants)
  {
    var outcome := TenantOutcome(m.workspaceId.value, g);
    var i :| 0 <= i < |grants.memberships| && grants.memberships[i] == m;
    var j :| 0 <= j < |m.permissions| && m.permissions[j] == g;
    assert MembershipOutcome(m)[j] == outcome;
    MembershipOutcomeOrigins(grants.memberships, |grants.memberships|, outcome);
  }

  // ---------------------------------------------------------------- the exact authority

  // What a grant reaches, in columns: no operation of the compiler is named here.

  /** An intrinsic or platform grant reaches a record: any record, or one the user owns. */
  predicate PlatformReaches(userId: Identifier, g: Grant, action: Action, subject: Subject, record: Record) {
    && g.scope == PlatformScope && (g.action == action || g.action == Manage) && (g.subject == subject || g.subject == All)
    && (|| g.ownership == Any
        || (g.ownership == Own && subject == User && IdColumn in record.columns && record.columns[IdColumn] == userId)
        || (g.ownership == Own && (subject == DeviceToken || subject == WorkspaceMembership)
            && UserIdColumn in record.columns && record.columns[UserIdColumn] == userId))
  }

  /** A workspace's grant reaches a record of that very workspace, and no other. */
  predicate TenantReaches(workspaceId: Identifier, g: Grant, action: Action, subject: Subject, record: Record) {
    && g.scope == WorkspaceScope && (g.action == action || g.action == Manage) && (g.subject == subject || g.subject == All)
    && (|| (subject == Workspace && IdColumn in record.columns && record.columns[IdColumn] == workspaceId)
        || ((subject == WorkspaceMembership || subject == WorkspaceInvitation)
            && WorkspaceIdColumn in record.columns && record.columns[WorkspaceIdColumn] == workspaceId))
  }

  ghost predicate PlatformAllows(userId: Identifier, grants: Grants, action: Action, subject: Subject, record: Record) {
    exists g :: (g in INTRINSIC || g in grants.platform) && PlatformReaches(userId, g, action, subject, record)
  }

  ghost predicate WorkspaceAllows(grants: Grants, action: Action, subject: Subject, record: Record) {
    exists m, g :: m in grants.memberships && m.status.Active? && m.workspaceId.Some? && m.workspaceId.value != EMPTY
      && g in m.permissions && TenantReaches(m.workspaceId.value, g, action, subject, record)
  }

  /** A platform grant that does not throw allows exactly what it reaches. */
  lemma PlatformReach(userId: Identifier, g: Grant, action: Action, subject: Subject, record: Record)
    requires !PlatformOutcome(userId, g).Thrown?
    ensures Allows(PlatformOutcome(userId, g), action, subject, record)
       <==> PlatformReaches(userId, g, action, subject, record)
  {
    if g.ownership == Own && OwnerKey(g.subject).Some? {
      assert g.subject != All;
    }
  }

  lemma TenantReach(workspaceId: Identifier, g: Grant, action: Action, subject: Subject, record: Record)
    requires !TenantOutcome(workspaceId, g).Thrown?
    ensures Allows(TenantOutcome(workspaceId, g), action, subject, record)
       <==> TenantReaches(workspaceId, g, action, subject, record)
  {
    if TenantKey(g.subject).Some? {
      assert g.subject != All;
    }
  }

  lemma AllowedIsReached(
    userId: Identifier, grants: Grants, outcome: Outcome, action: Action, subject: Subject, record: Record)
    requires IsPlatformOutcome(userId, grants, outcome) || IsTenantOutcome(grants, outcome)
    requires Allows(outcome, action, subject, record)
    ensures PlatformAllows(userId, grants, action, subject, record) || WorkspaceAllows(grants, action, subject, record)
  {
    if IsPlatformOutcome(userId, grants, outcome) {
      var g :| (g in INTRINSIC || g in grants.platform) && outcome == PlatformOutcome(userId, g);
      PlatformReach(userId, g, action, subject, record);
    } else {
      var m, g :| m in grants.memberships && m.Confers() && g in m.permissions
        && outcome == TenantOutcome(m.workspaceId.value, g);
      TenantReach(m.workspaceId.value, g, action, subject, record);
    }
  }

  lemma ReachedIsAllowed(userId: Identifier, grants: Grants, action: Action, subject: Subject, record: Record)
    returns (outcome: Outcome)
    requires forall outcome <- Outcomes(userId, grants) :: !outcome.Thrown?
    requires PlatformAllows(userId, grants, action, subject, record) || WorkspaceAllows(grants, action, subject, record)
    ensures outcome in Outcomes(userId, grants) && Allows(outcome, action, subject, record)
  {
    if PlatformAllows(userId, grants, action, subject, record) {
      var g :| (g in INTRINSIC || g in grants.platform) && PlatformReaches(userId, g, action, subject, record);
      outcome := PlatformOutcome(userId, g);
      PlatformOutcomeIsThere(userId, grants, g);
      PlatformReach(userId, g, action, subject, record);
    } else {
      var m, g :| m in grants.memberships && m.status.Active? && m.workspaceId.Some? && m.workspaceId.value != EMPTY
        && g in m.permissions && TenantReaches(m.workspaceId.value, g, action, subject, record);
      outcome := TenantOutcome(m.workspaceId.value, g);
      TenantOutcomeIsThere(userId, grants, m, g);
      TenantReach(m.workspaceId.value, g, action, subject, record);
    }
  }

  lemma AuthorityByReach(userId: Identifier, grants: Grants, action: Action, subject: Subject, record: Record)
    requires Compile(userId, grants).Ok?
    ensures Can(Compile(userId, grants).value, action, subject, record)
       <==> PlatformAllows(userId, grants, action, subject, record) || WorkspaceAllows(grants, action, subject, record)
  {
    var outcomes := Outcomes(userId, grants);
    CompiledExactly(outcomes);
    if Can(Compiled(outcomes).value, action, subject, record) {
      var outcome := CanComesFromAnOutcome(Compiled(outcomes).value, outcomes, action, subject, record);
      OutcomeOrigins(userId, grants, outcome);
      AllowedIsReached(userId, grants, outcome, action, subject, record);
    }
    if PlatformAllows(userId, grants, action, subject, record) || WorkspaceAllows(grants, action, subject, record) {
      var outcome := ReachedIsAllowed(userId, grants, action, subject, record);
      assert outcome == Added(outcome.rule);
    }
  }

  /**
    When compilation succeeds, the ability allows an action on a record exactly when an intrinsic or
    platform grant reaches it, or a grant of an ACTIVE membership of the record's own workspace does.
   */
  lemma AuthorityIsExact(userId: Identifier, grants: Grants, action: Action, subject: Subject, record: Record)
    requires Compile(userId, grants).Ok?
    ensures Can(Compile(userId, grants).value, action, subject, record) <==>
      || (exists g :: (g in INTRINSIC || g in grants.platform) && PlatformReaches(userId, g, action, subject, record))
      || (exists m, g :: m in grants.memberships && m.status.Active? && m.workspaceId.Some? && m.workspaceId.value != EMPTY
            && g in m.permissions && TenantReaches(m.workspaceId.value, g, action, subject, record))
  {
    AuthorityByReach(userId, grants, action, subject, record);
    ReachesInColumns(userId, grants, action, subject, record);
  }

  lemma ReachesInColumns(userId: Identifier, grants: Grants, action: Action, subject: Subject, record: Record)
    ensures PlatformAllows(userId, grants, action, subject, record) <==>
      exists g :: (g in INTRINSIC || g in grants.platform) && PlatformReaches(userId, g, action, subject, record)
    ensures WorkspaceAllows(grants, action, subject, record) <==>
      exists m, g :: m in grants.memberships && m.status.Active? && m.workspaceId.Some? && m.workspaceId.value != EMPTY
        && g in m.permissions && TenantReaches(m.workspaceId.value, g, action, subject, record)
  {
  }

  predicate NeedsMissingOwnerKey(g: Grant) {
    g.scope == PlatformScope && g.ownership == Own && !g.subject.User? && !g.subject.DeviceToken? && !g.subject.WorkspaceMembership?
  }

  predicate NeedsMissingTenantKey(g: Grant) {
    g.scope == WorkspaceScope && !g.subject.Workspace? && !g.subject.WorkspaceMembership? && !g.subject.WorkspaceInvitation?
  }

  /** Compilation fails exactly on a grant that would need a key its subject does not have. */
  lemma FailureIsExact(userId: Identifier, grants: Grants)
    ensures Compile(userId, grants).Err? <==>
      || (exists g <- grants.platform :: NeedsMissingOwnerKey(g))
      || (exists m, g :: m in grants.memberships && m.status.Active? && m.workspaceId.Some? && m.workspaceId.value != EMPTY
            && g in m.permissions && NeedsMissingTenantKey(g))
  {
    var outcomes := Outcomes(userId, grants);
    CompiledExactly(outcomes);
    if outcome :| outcome in outcomes && outcome.Thrown? {
      OutcomeOrigins(userId, grants, outcome);
      if IsTenantOutcome(grants, outcome) {
        var m, g :| m in grants.memberships && m.Confers() && g in m.permissions
          && outcome == TenantOutcome(m.workspaceId.value, g);
        assert NeedsMissingTenantKey(g);
      }
    }
    if g :| g in grants.platform && NeedsMissingOwnerKey(g) {
      PlatformOutcomeIsThere(userId, grants, g);
    }
    if m, g :| m in grants.memberships && m.Confers() && g in m.permissions && NeedsMissingTenantKey(g) {
      TenantOutcomeIsThere(userId, grants, m, g);
    }
  }

  /** Neither an intrinsic grant nor one over the user's own records reaches a workspace or an invitation. */
  lemma NoPlatformReach(userId: Identifier, grants: Grants, action: Action, subject: Subject, record: Record)
    requires subject == Workspace || subject == WorkspaceInvitation
    requires !(action == Create && subject == Workspace)
    requires forall g <- grants.platform :: g.ownership == Any ==>
      !((g.action == action || g.action == Manage) && (g.subject == subject || g.subject == All))
    ensures !PlatformAllows(userId, grants, action, subject, record)
  {
  }

  /**
    Tenant isolation: with no platform-wide grant over them, a workspace and its invitations are
    reached only through an ACTIVE membership of that very workspace.
   */
  lemma TenantIsolation(userId: Identifier, grants: Grants, action: Action, subject: Subject, record: Record)
    requires Compile(userId, grants).Ok? && subject in {Workspace, WorkspaceInvitation}
    requires !(action == Create && subject == Workspace)
    requires forall g <- grants.platform :: g.ownership == Any ==>
      !((g.action == action || g.action == Manage) && (g.subject == subject || g.subject == All))
    ensures Can(Compile(userId, grants).value, action, subject, record) <==>
      exists m, g :: m in grants.memberships && m.status.Active? && m.workspaceId.Some? && m.workspaceId.value != EMPTY
        && g in m.permissions && TenantReaches(m.workspaceId.value, g, action, subject, record)
  {
    AuthorityByReach(userId, grants, action, subject, record);
    NoPlatformReach(userId, grants, action, subject, record);
  }

  /** What an account with no role and no membership can do. */
  lemma IntrinsicAuthority(userId: Identifier, action: Action, subject: Subject, record: Record)
    ensures Compile(userId, Grants([], [])).Ok?
    ensures Can(Compile(userId, Grants([], [])).value, action, subject, record) <==>
      || (subject == User && (action == Read || action == Update || action == Delete)
          && IdColumn in record.columns && record.columns[IdColumn] == userId)
      || (subject == DeviceToken && UserIdColumn in record.columns && record.columns[UserIdColumn] == userId)
      || (subject == WorkspaceMembership && action == Read
          && UserIdColumn in record.columns && record.columns[UserIdColumn] == userId)
      || (subject == Workspace && action == Create)
      || ((subject == Role || subject == Permission) && action == Read)
  {
    FailureIsExact(userId, Grants([], []));
    AuthorityIsExact(userId, Grants([], []), action, subject, record);
    IntrinsicReach(userId, action, subject, record);
  }

  lemma IntrinsicReach(userId: Identifier, action: Action, subject: Subject, record: Record)
    ensures (exists g :: g in INTRINSIC && PlatformReaches(userId, g, action, subject, record)) <==>
      || (subject == User && (action == Read || action == Update || action == Delete)
          && IdColumn in record.columns && record.columns[IdColumn] == userId)
      || (subject == DeviceToken && UserIdColumn in record.columns && record.columns[UserIdColumn] == userId)
      || (subject == WorkspaceMembership && action == Read
          && UserIdColumn in record.columns && record.columns[UserIdColumn] == userId)
      || (subject == Workspace && action == Create)
      || ((subject == Role || subject == Permission) && action == Read)
  {
    var i := if subject == User then (if action == Read then 0 else if action == Update then 1 else 2)
             else if subject == DeviceToken then 3 else if subject == WorkspaceMembership then 4
             else if subject == Workspace then 5 else if subject == Role then 6 else 7;
    assert INTRINSIC[i] in INTRINSIC;
  }

  // ---------------------------------------------------------------- idle memberships change nothing

  lemma {:induction false} SameMembershipsSameOutcomes(one: seq<MembershipGrant>, two: seq<MembershipGrant>, count: nat)
    requires count <= |one| && count <= |two| && forall j :: 0 <= j < count ==> one[j] == two[j]
    ensures MembershipOutcomes(one, count) == MembershipOutcomes(two, count)
  {
    if count > 0 {
      SameMembershipsSameOutcomes(one, two, count - 1);
    }
  }

  lemma NothingMore(memberships: seq<MembershipGrant>, i: nat)
    requires i < |memberships| && !memberships[i].Confers()
    ensures MembershipOutcomes(memberships, i + 1) == MembershipOutcomes(memberships, i)
  {
    assert MembershipOutcomes(memberships, i + 1) == MembershipOutcomes(memberships, i) + [];
  }

  /** `rest` is `memberships` without the idle one at `i`. */
  lemma {:induction false} OutcomesWithoutIdle(
    memberships: seq<MembershipGrant>, rest: seq<MembershipGrant>, i: nat, count: nat)
    requires i <= count <= |rest| && |rest| == |memberships| - 1 && !memberships[i].Confers()
    requires forall j :: 0 <= j < i ==> rest[j] == memberships[j]
    requires forall j :: i <= j < |rest| ==> rest[j] == memberships[j + 1]
    ensures MembershipOutcomes(rest, count) == MembershipOutcomes(memberships, count + 1)
    decreases count
  {
    if count == i {
      SameMembershipsSameOutcomes(rest, memberships, i);
      NothingMore(memberships, i);
    } else {
      OutcomesWithoutIdle(memberships, rest, i, count - 1);
    }
  }

  lemma SameOutcomesCompileAlike(userId: Identifier, one: Grants, two: Grants)
    requires one.platform == two.platform
    requires MembershipOutcomes(one.memberships, |one.memberships|) == MembershipOutcomes(two.memberships, |two.memberships|)
    ensures Compile(userId, one) == Compile(userId, two)
  {
  }

  /** A membership that is not ACTIVE, or has no workspace id, is as good as none. */
  lemma IdleMembershipsChangeNothing(userId: Identifier, grants: Grants, i: nat)
    requires i < |grants.memberships|
    requires var m := grants.memberships[i]; m.status != Active || m.workspaceId.None? || m.workspaceId.value == EMPTY
    ensures Compile(userId, grants.(memberships := grants.memberships[..i] + grants.memberships[i + 1..]))
         == Compile(userId, grants)
  {
    var rest := grants.memberships[..i] + grants.memberships[i + 1..];
    OutcomesWithoutIdle(grants.memberships, rest, i, |rest|);
    SameOutcomesCompileAlike(userId, grants.(memberships := rest), grants);
  }

  // ---------------------------------------------------------------- misplaced grants change nothing

  predicate IsSoundPlatformGrant(g: Grant) {
    g.scope == PlatformScope && (g.ownership == Own || g.ownership == Any)
  }

  function KeptPlatform(grants: seq<Grant>): seq<Grant> {
    if grants == [] then []
    else
      var n := |grants| - 1;
      KeptPlatform(grants[..n]) + if IsSoundPlatformGrant(grants[n]) then [grants[n]] else []
  }

  function KeptWorkspace(grants: seq<Grant>): seq<Grant> {
    if grants == [] then []
    else
      var n := |grants| - 1;
      KeptWorkspace(grants[..n]) + if grants[n].scope == WorkspaceScope then [grants[n]] else []
  }

  /** Without the grants of a wrong scope, and without the platform grants of unknown ownership. */
  function Cleaned(grants: Grants): Grants {
    Grants(
      KeptPlatform(grants.platform),
      seq(|grants.memberships|, i requires 0 <= i < |grants.memberships| =>
        grants.memberships[i].(permissions := KeptWorkspace(grants.memberships[i].permissions))))
  }

  lemma {:induction false} KeptPlatformCompilesAlike(userId: Identifier, before: seq<Outcome>, grants: seq<Grant>)
    ensures Compiled(before + PlatformOutcomes(userId, KeptPlatform(grants))) == Compiled(before + PlatformOutcomes(userId, grants))
  {
    if grants != [] {
      var n := |grants| - 1;
      KeptPlatformCompilesAlike(userId, before, grants[..n]);
      SnocPlatform(userId, before, grants[..n], grants[n]);
      SnocPlatform(userId, before, KeptPlatform(grants[..n]), grants[n]);
      assert grants == grants[..n] + [grants[n]];
      CompiledSnoc(before + PlatformOutcomes(userId, grants[..n]), PlatformOutcome(userId, grants[n]));
      CompiledSnoc(before + PlatformOutcomes(userId, KeptPlatform(grants[..n])), PlatformOutcome(userId, grants[n]));
      if !IsSoundPlatformGrant(grants[n]) {
        assert KeptPlatform(grants) == KeptPlatform(grants[..n]);
      }
    }
  }

  lemma SnocPlatform(userId: Identifier, before: seq<Outcome>, grants: seq<Grant>, g: Grant)
    ensures before + PlatformOutcomes(userId, grants + [g]) == before + PlatformOutcomes(userId, grants) + [PlatformOutcome(userId, g)]
  {
  }

  lemma SnocWorkspace(before: seq<Outcome>, grants: seq<Grant>, g: Grant, workspaceId: Identifier)
    ensures before + TenantOutcomes(workspaceId, grants + [g])
         == before + TenantOutcomes(workspaceId, grants) + [TenantOutcome(workspaceId, g)]
  {
  }

  lemma {:induction false} KeptWorkspaceCompilesAlike(
    before: seq<Outcome>, grants: seq<Grant>, workspaceId: Identifier)
    ensures Compiled(before + TenantOutcomes(workspaceId, KeptWorkspace(grants)))
         == Compiled(before + TenantOutcomes(workspaceId, grants))
  {
    if grants != [] {
      var n := |grants| - 1;
      KeptWorkspaceCompilesAlike(before, grants[..n], workspaceId);
      SnocWorkspace(before, grants[..n], grants[n], workspaceId);
      SnocWorkspace(before, KeptWorkspace(grants[..n]), grants[n], workspaceId);
      assert grants == grants[..n] + [grants[n]];
      CompiledSnoc(before + TenantOutcomes(workspaceId, grants[..n]), TenantOutcome(workspaceId, grants[n]));
      CompiledSnoc(before + TenantOutcomes(workspaceId, KeptWorkspace(grants[..n])),
                   TenantOutcome(workspaceId, grants[n]));
      if grants[n].scope != WorkspaceScope {
        assert KeptWorkspace(grants) == KeptWorkspace(grants[..n]);
      }
    }
  }

  /** Compilation goes on alike from offers that compile alike. */
  lemma {:induction false} CompilesOnAlike(one: seq<Outcome>, two: seq<Outcome>, later: seq<Outcome>)
    requires Compiled(one) == Compiled(two)
    ensures Compiled(one + later) == Compiled(two + later)
  {
    if later == [] {
      assert one + later == one && two + later == two;
    } else {
      var n := |later| - 1;
      CompilesOnAlike(one, two, later[..n]);
      assert one + later == one + later[..n] + [later[n]] && two + later == two + later[..n] + [later[n]];
      CompiledSnoc(one + later[..n], later[n]);
      CompiledSnoc(two + later[..n], later[n]);
    }
  }

  lemma MembershipCompilesAlike(one: seq<Outcome>, two: seq<Outcome>, m: MembershipGrant)
    requires Compiled(one) == Compiled(two)
    ensures Compiled(one + MembershipOutcome(m.(permissions := KeptWorkspace(m.permissions))))
         == Compiled(two + MembershipOutcome(m))
  {
    CompilesOnAlike(one, two, MembershipOutcome(m));
    if m.Confers() {
      KeptWorkspaceCompilesAlike(one, m.permissions, m.workspaceId.value);
    }
  }

  lemma Regrouped(a: seq<Outcome>, b: seq<Outcome>, c: seq<Outcome>)
    ensures Compiled(a + b + c) == Compiled(a + (b + c))
  {
    assert a + b + c == a + (b + c);
  }

  lemma MembershipCompilesAlikeAfter(
    before: seq<Outcome>, one: seq<Outcome>, two: seq<Outcome>, m: MembershipGrant, cleaned: MembershipGrant)
    requires cleaned == m.(permissions := KeptWorkspace(m.permissions))
    requires Compiled(before + one) == Compiled(before + two)
    ensures Compiled(before + (one + MembershipOutcome(cleaned))) == Compiled(before + (two + MembershipOutcome(m)))
  {
    MembershipCompilesAlike(before + one, before + two, m);
    Regrouped(before, one, MembershipOutcome(cleaned));
    Regrouped(before, two, MembershipOutcome(m));
  }

  lemma {:induction false} CleanedMembershipsCompileAlike(
    before: seq<Outcome>, memberships: seq<MembershipGrant>, cleaned: seq<MembershipGrant>, count: nat)
    requires count <= |memberships| == |cleaned|
    requires forall i :: 0 <= i < |cleaned| ==>
      cleaned[i] == memberships[i].(permissions := KeptWorkspace(memberships[i].permissions))
    ensures Compiled(before + MembershipOutcomes(cleaned, count)) == Compiled(before + MembershipOutcomes(memberships, count))
  {
    if count > 0 {
      CleanedMembershipsCompileAlike(before, memberships, cleaned, count - 1);
      var one, two := MembershipOutcomes(cleaned, count - 1), MembershipOutcomes(memberships, count - 1);
      MembershipCompilesAlikeAfter(before, one, two, memberships[count - 1], cleaned[count - 1]);
    }
  }

  /** A misplaced grant is no rule: the ability, or the failure, is the same without it. */
  lemma MisplacedGrantsChangeNothing(userId: Identifier, grants: Grants)
    ensures Compile(userId, Cleaned(grants)) == Compile(userId, grants)
  {
    var cleaned := Cleaned(grants);
    var n := |grants.memberships|;
    var intrinsic := PlatformOutcomes(userId, INTRINSIC);
    KeptPlatformCompilesAlike(userId, intrinsic, grants.platform);
    CompilesOnAlike(intrinsic + PlatformOutcomes(userId, cleaned.platform), intrinsic + PlatformOutcomes(userId, grants.platform),
                    MembershipOutcomes(cleaned.memberships, n));
    CleanedMembershipsCompileAlike(intrinsic + PlatformOutcomes(userId, grants.platform),
                                   grants.memberships, cleaned.memberships, n);
  }
}
