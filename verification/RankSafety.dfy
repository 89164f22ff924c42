/** Ranks do not inflate, over every run. */
module RankSafety {
  import opened Prelude
  import opened RoleAssignment

  ghost predicate CeilingAtMost(ceiling: Ceiling, rank: nat) {
    ceiling.Some? && ceiling.value <= rank
  }

  ghost predicate RoleAtMost(roles: Roles, roleId: RoleId, rank: nat) {
    roleId in roles && roles[roleId].rank <= rank
  }

  /** A request past its checks can bring nobody above `rank`. */
  ghost predicate RequestAtMost(roles: Roles, request: Request, rank: nat) {
    && (request.Adding? || request.Changing? ==> RoleAtMost(roles, request.roleId, rank))
    && (!request.Adding? ==> CeilingAtMost(request.ceiling, rank))
  }

  /** Every ACTIVE member, every role handed out, and every request under way is at most at `rank`. */
  ghost predicate IsCapped(s: State, rank: nat) {
    && MatchesRoles(s.roles, s.roster)
    && (forall user <- s.roster :: s.roster[user].status == Active ==> s.roles[s.roster[user].roleId].rank <= rank)
    && (forall p <- s.requests :: RequestAtMost(s.roles, s.requests[p], rank))
    && (forall roleId <- s.handedOut :: RoleAtMost(s.roles, roleId, rank))
  }

  /** What one step may not be: an unbounded actor's, or a transfer above the cap. */
  ghost predicate KeepsTheCap(e: Event, rank: nat) {
    !e.IsByPlatformAdmin() && (e.Transfer? ==> OWNER_RANK <= rank)
  }

  lemma CheckedRoleIsCapped(s: State, actor: UserId, ability: Ability, roleId: RoleId, rank: nat)
    requires IsCapped(s, rank) && !ability.isPlatformAdmin && CheckAssignment(s, actor, ability, roleId).Ok?
    ensures RoleAtMost(s.roles, roleId, rank) && CeilingAtMost(CheckAssignment(s, actor, ability, roleId).value, rank)
  {
  }

  lemma JoinKeepsTheCap(s: State, target: UserId, roleId: RoleId, rank: nat)
    requires IsCapped(s, rank) && RoleAtMost(s.roles, roleId, rank)
    ensures IsCapped(Joined(s, target, roleId), rank)
  {
  }

  lemma CheckKeepsTheCap(s: State, e: Event, rank: nat)
    requires IsCapped(s, rank) && KeepsTheCap(e, rank)
    requires e.CheckAdd? || e.CheckChange? || e.CheckReactivate? || e.CheckWithdraw?
    ensures IsCapped(StepCheck(s, e), rank)
  {
    if (e.CheckAdd? || e.CheckChange?) && CheckAssignment(s, e.actor, e.ability, e.roleId).Ok? {
      CheckedRoleIsCapped(s, e.actor, e.ability, e.roleId, rank);
    }
  }

  lemma CommitKeepsTheCap(s: State, p: Process, rank: nat)
    requires IsCapped(s, rank) && p in s.requests
    ensures IsCapped(Committed(s, p, s.requests[p]), rank)
  {
    var request := s.requests[p];
    assert RequestAtMost(s.roles, request, rank);
    if request.Adding? {
      JoinKeepsTheCap(s.(requests := s.requests - {p}), request.target, request.roleId, rank);
    }
  }

  lemma StepKeepsTheCap(s: State, e: Event, rank: nat)
    requires IsCapped(s, rank) && KeepsTheCap(e, rank)
    ensures IsCapped(Step(s, e), rank)
  {
    if e.Commit? {
      if e.p in s.requests { CommitKeepsTheCap(s, e.p, rank); }
    } else if e.Invite? || e.Abandon? || e.Transfer? {
    } else if e.Accept? {
      if e.invitation in s.invitations {
        var Invitation(roleId, invitedBy) := s.invitations[e.invitation];
        if CheckAssignment(s, invitedBy, e.ability, roleId).Ok? {
          CheckedRoleIsCapped(s, invitedBy, e.ability, roleId, rank);
          JoinKeepsTheCap(s.(invitations := s.invitations - {e.invitation}), e.user, roleId, rank);
        }
      }
    } else {
      CheckKeepsTheCap(s, e, rank);
    }
  }

  lemma StepMatchesRoles(s: State, e: Event)
    requires MatchesRoles(s.roles, s.roster) && RequestsMatchRoles(s)
    ensures MatchesRoles(Step(s, e).roles, Step(s, e).roster) && RequestsMatchRoles(Step(s, e)) && Step(s, e).roles == s.roles
  {
  }

  ghost predicate RequestsMatchRoles(s: State) {
    forall p <- s.requests :: s.requests[p].Adding? || s.requests[p].Changing? ==> s.requests[p].roleId in s.roles
  }

  function Run(s: State, events: seq<Event>): State
    requires MatchesRoles(s.roles, s.roster) && RequestsMatchRoles(s)
    decreases |events|
  {
    if events == [] then s
    else
      StepMatchesRoles(s, events[0]);
      Run(Step(s, events[0]), events[1..])
  }

  lemma {:induction false} RunKeepsTheCap(s: State, events: seq<Event>, rank: nat)
    requires IsCapped(s, rank) && forall e <- events :: KeepsTheCap(e, rank)
    ensures IsCapped(Run(s, events), rank)
    decreases |events|
  {
    if events != [] {
      StepMatchesRoles(s, events[0]);
      assert KeepsTheCap(events[0], rank);
      StepKeepsTheCap(s, events[0], rank);
      RunKeepsTheCap(Step(s, events[0]), events[1..], rank);
    }
  }

  /**
    If every ACTIVE member is at rank `rank` or below, then in any run without a `manage all` actor
    every role ever handed out is too, and so is every ACTIVE member, however the requests interleave
    and whatever stale abilities answer. Ownership transfers come under the cap of the owner's rank.
   */
  lemma RanksDoNotInflate(s: State, events: seq<Event>, rank: nat)
    requires MatchesRoles(s.roles, s.roster) && s.requests == map[] && s.handedOut == {}
    requires forall user <- s.roster :: s.roster[user].status == Active ==> s.roles[s.roster[user].roleId].rank <= rank
    requires forall e <- events :: !e.IsByPlatformAdmin() && (e.Transfer? ==> OWNER_RANK <= rank)
    ensures forall roleId <- Run(s, events).handedOut :: RoleAtMost(s.roles, roleId, rank)
    ensures var roster := Run(s, events).roster;
      forall user <- roster :: roster[user].status == Active ==> RoleAtMost(s.roles, roster[user].roleId, rank)
  {
    assert forall e <- events :: KeepsTheCap(e, rank);
    RunKeepsTheCap(s, events, rank);
    RolesAreConstant(s, events);
  }

  lemma {:induction false} RolesAreConstant(s: State, events: seq<Event>)
    requires MatchesRoles(s.roles, s.roster) && RequestsMatchRoles(s)
    ensures Run(s, events).roles == s.roles
    decreases |events|
  {
    if events != [] {
      StepMatchesRoles(s, events[0]);
      RolesAreConstant(Step(s, events[0]), events[1..]);
    }
  }

  /** Both bounds, and nothing else, decide an assignment. */
  lemma AssignmentIsExact(s: State, actor: UserId, ability: Ability, roleId: RoleId)
    requires MatchesRoles(s.roles, s.roster)
    ensures CheckAssignment(s, actor, ability, roleId).Ok? <==>
      && roleId in s.roles && s.roles[roleId].isWorkspaceRole
      && (ability.mayAssignRoles || s.roles[roleId].name == STAFF)
      && (|| ability.isPlatformAdmin
          || (actor in s.roster && s.roster[actor].status == Active
              && s.roles[roleId].rank <= s.roles[s.roster[actor].roleId].rank))
  {
  }

  /**
    Whoever is given a role, by someone with `assignRole`, can hand out nothing their patron could not
    have handed out directly, whatever their own ability answers short of `manage all`.
   */
  lemma DelegationGainsNothing(s: State, patron: UserId, ability: Ability, roleId: RoleId, client: UserId,
                               clientAbility: Ability, nextRoleId: RoleId)
    requires MatchesRoles(s.roles, s.roster) && ability.mayAssignRoles && !clientAbility.isPlatformAdmin
    requires CheckAssignment(s, patron, ability, roleId).Ok?
    requires MatchesRoles(s.roles, s.roster[client := Membership(roleId, Active)])
    requires CheckAssignment(s.(roster := s.roster[client := Membership(roleId, Active)]), client, clientAbility, nextRoleId).Ok?
    ensures CheckAssignment(s, patron, ability, nextRoleId).Ok?
  {
    var given := s.(roster := s.roster[client := Membership(roleId, Active)]);
    AssignmentIsExact(s, patron, ability, roleId);
    AssignmentIsExact(given, client, clientAbility, nextRoleId);
    AssignmentIsExact(s, patron, ability, nextRoleId);
  }

  // ---------------------------------------------------------------- the last owner

  /** By the columns of the seat and of its role. */
  ghost predicate Owns(s: State, user: UserId) {
    && user in s.roster && s.roster[user].status == Active
    && s.roster[user].roleId in s.roles && s.roles[s.roster[user].roleId].name == OWNER
  }

  ghost predicate HasActiveOwner(s: State) {
    exists user :: Owns(s, user)
  }

  lemma CommitKeepsAnOwner(s: State, p: Process, user: UserId)
    requires MatchesRoles(s.roles, s.roster) && p in s.requests && Owns(s, user)
    ensures HasActiveOwner(Committed(s, p, s.requests[p]))
  {
    var request := s.requests[p];
    var s' := Committed(s, p, request);
    if user == request.target && IsAccepted(s, request) && HasAnotherActiveOwner(s, user) {
      var other :| other in s.roster && other != user && s.roster[other].status == Active && IsOwner(s, other);
      assert Owns(s', other);
    } else {
      assert Owns(s', user);
    }
  }

  lemma StepKeepsAnOwner(s: State, e: Event)
    requires MatchesRoles(s.roles, s.roster) && RequestsMatchRoles(s) && HasActiveOwner(s)
    ensures HasActiveOwner(Step(s, e))
  {
    var user :| Owns(s, user);
    if e.Commit? && e.p in s.requests {
      CommitKeepsAnOwner(s, e.p, user);
    } else if e.Transfer? && HandOver(s, e) != s {
      assert Owns(Step(s, e), e.target);
    } else {
      assert Owns(Step(s, e), user);
    }
  }

  /** A workspace with an ACTIVE owner keeps one, whatever is requested of its roster and by whom. */
  lemma {:induction false} RosterKeepsAnOwner(s: State, events: seq<Event>)
    requires MatchesRoles(s.roles, s.roster) && RequestsMatchRoles(s) && HasActiveOwner(s)
    ensures HasActiveOwner(Run(s, events))
    decreases |events|
  {
    if events != [] {
      StepMatchesRoles(s, events[0]);
      StepKeepsAnOwner(s, events[0]);
      RosterKeepsAnOwner(Step(s, events[0]), events[1..]);
    }
  }

  /** A transfer that takes effect leaves one ACTIVE holder of the owner role; only other ACTIVE holders lose it. */
  lemma TransferLeavesOneOwner(s: State, e: Event, user: UserId)
    requires MatchesRoles(s.roles, s.roster) && e.Transfer? && e.adminRole != e.ownerRole && user in s.roster
    ensures var s' := Step(s, e);
      && s' == s.(roster := s'.roster) && s'.roster.Keys == s.roster.Keys && s'.roster[user].status == s.roster[user].status
      && (s' != s ==> (s'.roster[user] == Membership(e.ownerRole, Active) <==> user == e.target))
      && (s'.roster[user] != s.roster[user] && user != e.target ==>
            s.roster[user] == Membership(e.ownerRole, Active) && s'.roster[user].roleId == e.adminRole)
  {
  }

  // ---------------------------------------------------------------- what the transactions write, column by column

  /** The seat a request is about, before and after: each request has its own guard under the workspace lock. */
  lemma CommittedByColumns(s: State, p: Process, request: Request)
    requires MatchesRoles(s.roles, s.roster) && request.target in s.roster
    ensures var roster := Committed(s, p, request).roster;
      var before := s.roster[request.target];
      var isWithin := request.ceiling.None? || s.roles[before.roleId].rank <= request.ceiling.value;
      var isOwner := s.roles[before.roleId].name == OWNER;
      var isReplaceable := exists other <- s.roster ::
        other != request.target && s.roster[other].status == Active && s.roles[s.roster[other].roleId].name == OWNER;
      && roster.Keys == s.roster.Keys && (forall user <- s.roster :: user != request.target ==> roster[user] == s.roster[user])
      && roster[request.target] ==
           match request
           case Adding(_, _, _, roleId) => if before.status == Left then Membership(roleId, Active) else before
           case Changing(_, _, _, roleId) =>
             if isWithin && roleId in s.roles && (isOwner ==> s.roles[roleId].name == OWNER || isReplaceable)
             then Membership(roleId, before.status) else before
           case Reactivating(_, _, _) =>
             if isWithin && before.status == Suspended then Membership(before.roleId, Active) else before
           case Withdrawing(_, _, _, status) =>
             if isWithin && (before.status == Active || (status == Left && before.status == Suspended))
               && (status == Suspended || status == Left) && (isOwner && before.status == Active ==> isReplaceable)
             then Membership(before.roleId, status) else before
  {
    assert HasAnotherActiveOwner(s, request.target) <==>
      exists other <- s.roster ::
        other != request.target && s.roster[other].status == Active && s.roles[s.roster[other].roleId].name == OWNER;
  }

  // ---------------------------------------------------------------- without assignRole

  ghost predicate IsStaffOnly(s: State) {
    && (forall p <- s.requests :: s.requests[p].Adding? || s.requests[p].Changing? ==>
          s.requests[p].roleId in s.roles && s.roles[s.requests[p].roleId].name == STAFF)
    && (forall roleId <- s.handedOut :: roleId in s.roles && s.roles[roleId].name == STAFF)
  }

  lemma StepKeepsStaffOnly(s: State, e: Event)
    requires MatchesRoles(s.roles, s.roster) && IsStaffOnly(s) && !e.IsByRoleAssigner()
    ensures IsStaffOnly(Step(s, e))
  {
  }

  /** Actors without `assignRole` hand out only the staff role, even by accepted invitations. */
  lemma {:induction false} OnlyStaffWithoutAssignRole(s: State, events: seq<Event>)
    requires MatchesRoles(s.roles, s.roster) && IsStaffOnly(s) && forall e <- events :: !e.IsByRoleAssigner()
    ensures IsStaffOnly(Run(s, events))
    decreases |events|
  {
    if events != [] {
      StepMatchesRoles(s, events[0]);
      StepKeepsStaffOnly(s, events[0]);
      OnlyStaffWithoutAssignRole(Step(s, events[0]), events[1..]);
    }
  }
}
