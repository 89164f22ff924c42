/**
  Who may hand out which workspace role, `src/modules/workspaces/workspace-role-assignment.policy.ts`,
  and every interleaving of the requests that ask it.

  Checks are made before a request's transaction and its writes inside it, so an actor may have been
  demoted or suspended in between; and what an ability answers may be stale. Neither is restricted here.
 */
module RoleAssignment {
  import opened Prelude

  type UserId = nat
  type RoleId = nat
  type InvitationId = nat
  type Process = nat

  datatype Role = Role(name: nat, rank: nat, isWorkspaceRole: bool)

  datatype MembershipStatus = Active | Suspended | Left

  datatype Membership = Membership(roleId: RoleId, status: MembershipStatus)

  type Roles = map<RoleId, Role>
  type Roster = map<UserId, Membership>

  /** What the actor's ability answers: `manage all`, `assignRole` on the membership, and the request's own action. */
  datatype Ability = Ability(isPlatformAdmin: bool, mayAssignRoles: bool, mayAct: bool)

  datatype Refusal = RoleNotFound | RoleNotAssignable | MembershipNotFound | NotPermitted

  /** None is the platform admin's: unbounded. */
  type Ceiling = Option<nat>

  /** Names: of the one role anyone who may add a member can hand out, and of the owner's. */
  const STAFF := 0
  const OWNER := 1

  const OWNER_RANK := 100

  // ---------------------------------------------------------------- the policy

  function LoadAssignableRole(roles: Roles, roleId: RoleId): Result<Role, Refusal> {
    if roleId !in roles then Err(RoleNotFound)
    else if !roles[roleId].isWorkspaceRole then Err(RoleNotAssignable)
    else Ok(roles[roleId])
  }

  predicate MatchesRoles(roles: Roles, roster: Roster) {
    forall user <- roster :: roster[user].roleId in roles
  }

  function ResolveActorRank(roles: Roles, roster: Roster, actor: UserId, ability: Ability): Result<Ceiling, Refusal>
    requires MatchesRoles(roles, roster)
  {
    if ability.isPlatformAdmin then Ok(None)
    else if actor !in roster || roster[actor].status != Active then Err(RoleNotAssignable)
    else Ok(Some(roles[roster[actor].roleId].rank))
  }

  predicate RankPermits(ceiling: Ceiling, rank: nat) {
    ceiling.None? || rank <= ceiling.value
  }

  function AssertMayAssign(roles: Roles, roster: Roster, actor: UserId, role: Role, ability: Ability)
    : Result<Ceiling, Refusal>
    requires MatchesRoles(roles, roster)
  {
    if !ability.mayAssignRoles && role.name != STAFF then Err(RoleNotAssignable)
    else
      var actorRank := ResolveActorRank(roles, roster, actor, ability);
      if actorRank.Err? then actorRank
      else if !RankPermits(actorRank.value, role.rank) then Err(RoleNotAssignable)
      else actorRank
  }

  // ---------------------------------------------------------------- requests on one workspace

  /**
    A request past its checks, about to open its transaction. The code keeps neither the actor, nor,
    for an added member, the ceiling: they are here so that the properties can speak of them.
   */
  datatype Request =
    | Adding(actor: UserId, ceiling: Ceiling, target: UserId, roleId: RoleId)
    | Changing(actor: UserId, ceiling: Ceiling, target: UserId, roleId: RoleId)
    | Reactivating(actor: UserId, ceiling: Ceiling, target: UserId)
    | Withdrawing(actor: UserId, ceiling: Ceiling, target: UserId, status: MembershipStatus)
  {
    predicate IsAssignment() {
      Adding? || Changing?
    }
  }

  datatype Invitation = Invitation(roleId: RoleId, invitedBy: UserId)

  /** `handedOut` is the history of every role put on a membership by an assignment. */
  datatype State = State(
    roles: Roles,
    roster: Roster,
    requests: map<Process, Request>,
    invitations: map<InvitationId, Invitation>,
    handedOut: set<RoleId>)

  datatype Event =
    | CheckAdd(p: Process, actor: UserId, ability: Ability, target: UserId, roleId: RoleId)
    | CheckChange(p: Process, actor: UserId, ability: Ability, target: UserId, roleId: RoleId)
    | CheckReactivate(p: Process, actor: UserId, ability: Ability, target: UserId)
    | CheckWithdraw(p: Process, actor: UserId, ability: Ability, target: UserId, status: MembershipStatus)
    | Commit(p: Process)
    | Abandon(p: Process)
    | Invite(invitation: InvitationId, actor: UserId, ability: Ability, roleId: RoleId)
    | Accept(invitation: InvitationId, user: UserId, ability: Ability)
    | Transfer(target: UserId, ownerRole: RoleId, adminRole: RoleId)
  {
    predicate IsByPlatformAdmin() {
      (CheckAdd? || CheckChange? || CheckReactivate? || CheckWithdraw? || Invite? || Accept?) && ability.isPlatformAdmin
    }

    predicate IsByRoleAssigner() {
      (CheckAdd? || CheckChange? || Invite? || Accept?) && ability.mayAssignRoles
    }
  }

  /** Both checks an assignment makes: the role, then the actor. */
  function CheckAssignment(s: State, actor: UserId, ability: Ability, roleId: RoleId): Result<Ceiling, Refusal>
    requires MatchesRoles(s.roles, s.roster)
  {
    var role := LoadAssignableRole(s.roles, roleId);
    if role.Err? then Err(role.error) else AssertMayAssign(s.roles, s.roster, actor, role.value, ability)
  }

  function Step(s: State, e: Event): State
    requires MatchesRoles(s.roles, s.roster)
  {
    if e.Transfer? then HandOver(s, e)
    else if e.Commit? then (if e.p in s.requests then Committed(s, e.p, s.requests[e.p]) else s)
    else if e.Abandon? then s.(requests := s.requests - {e.p})
    else if e.Invite? || e.Accept? then StepInvitation(s, e)
    else StepCheck(s, e)
  }

  function StepCheck(s: State, e: Event): State
    requires MatchesRoles(s.roles, s.roster)
    requires e.CheckAdd? || e.CheckChange? || e.CheckReactivate? || e.CheckWithdraw?
  {
    if e.p in s.requests || !e.ability.mayAct then s
    else
      var ceiling :=
        if e.CheckAdd? || e.CheckChange? then CheckAssignment(s, e.actor, e.ability, e.roleId)
        else ResolveActorRank(s.roles, s.roster, e.actor, e.ability);
      if ceiling.Err? then s
      else
        var request := match e
          case CheckAdd(_, actor, _, target, roleId) => Adding(actor, ceiling.value, target, roleId)
          case CheckChange(_, actor, _, target, roleId) => Changing(actor, ceiling.value, target, roleId)
          case CheckReactivate(_, actor, _, target) => Reactivating(actor, ceiling.value, target)
          case CheckWithdraw(_, actor, _, target, status) => Withdrawing(actor, ceiling.value, target, status);
        s.(requests := s.requests[e.p := request])
  }

  predicate IsOwner(s: State, user: UserId)
    requires MatchesRoles(s.roles, s.roster) && user in s.roster
  {
    s.roles[s.roster[user].roleId].name == OWNER
  }

  predicate HasAnotherActiveOwner(s: State, user: UserId)
    requires MatchesRoles(s.roles, s.roster)
  {
    exists other <- s.roster :: other != user && s.roster[other].status == Active && IsOwner(s, other)
  }

  /** What the transaction of a request requires of the row it re-reads under the workspace lock. */
  predicate IsAccepted(s: State, request: Request)
    requires MatchesRoles(s.roles, s.roster)
  {
    var target := request.target;
    if request.Adding? then target in s.roster ==> s.roster[target].status == Left
    else
      && target in s.roster && RankPermits(request.ceiling, s.roles[s.roster[target].roleId].rank)
      && match request
         case Changing(_, _, _, roleId) =>
           roleId in s.roles && (IsOwner(s, target) && s.roles[roleId].name != OWNER ==> HasAnotherActiveOwner(s, target))
         case Reactivating(_, _, _) => s.roster[target].status == Suspended
         case Withdrawing(_, _, _, status) =>
           && status != Active && s.roster[target].status != status
           && (status == Suspended ==> s.roster[target].status == Active)
           && (IsOwner(s, target) && s.roster[target].status == Active ==> HasAnotherActiveOwner(s, target))
  }

  /** The transaction of a request, under the workspace lock. */
  function Committed(s: State, p: Process, request: Request): State
    requires MatchesRoles(s.roles, s.roster)
  {
    var done := s.(requests := s.requests - {p});
    if !IsAccepted(s, request) then done
    else
      var target := request.target;
      match request
      case Adding(_, _, _, roleId) => Joined(done, target, roleId)
      case Changing(_, _, _, roleId) =>
        done.(roster := s.roster[target := s.roster[target].(roleId := roleId)], handedOut := s.handedOut + {roleId})
      case Reactivating(_, _, _) => done.(roster := s.roster[target := s.roster[target].(status := Active)])
      case Withdrawing(_, _, _, status) => done.(roster := s.roster[target := s.roster[target].(status := status)])
  }

  /** A new or a former member gets the role, and is active; a current member keeps what they have. */
  function Joined(s: State, target: UserId, roleId: RoleId): State {
    if target in s.roster && s.roster[target].status != Left then s
    else s.(roster := s.roster[target := Membership(roleId, Active)], handedOut := s.handedOut + {roleId})
  }

  /** An invitation is checked when it is made, and again, with its inviter as they are then, when accepted. */
  function StepInvitation(s: State, e: Event): State
    requires MatchesRoles(s.roles, s.roster) && (e.Invite? || e.Accept?)
  {
    match e
    case Invite(invitation, actor, ability, roleId) =>
      if invitation in s.invitations || CheckAssignment(s, actor, ability, roleId).Err? then s
      else s.(invitations := s.invitations[invitation := Invitation(roleId, actor)])
    case Accept(invitation, user, ability) =>
      if invitation !in s.invitations then s
      else
        var Invitation(roleId, invitedBy) := s.invitations[invitation];
        if CheckAssignment(s, invitedBy, ability, roleId).Err? || (user in s.roster && s.roster[user].status != Left) then s
        else Joined(s.(invitations := s.invitations - {invitation}), user, roleId)
  }

  /** `transferOwnership` asks this policy nothing: its target becomes owner, and every other owner an admin. */
  function HandOver(s: State, e: Event): State
    requires MatchesRoles(s.roles, s.roster) && e.Transfer?
  {
    if e.target !in s.roster || s.roster[e.target].status != Active || e.ownerRole !in s.roles || e.adminRole !in s.roles
      || s.roles[e.ownerRole].name != OWNER || s.roles[e.ownerRole].rank != OWNER_RANK || s.roles[e.adminRole].rank > OWNER_RANK
    then s
    else
      s.(roster := map user <- s.roster ::
           if user == e.target then s.roster[user].(roleId := e.ownerRole)
           else if s.roster[user] == Membership(e.ownerRole, Active) then Membership(e.adminRole, Active)
           else s.roster[user])
  }
}
