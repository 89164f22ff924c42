/**
  The ceiling of one assignment at its commit. It is read before the transaction: it still binds as long
  as the actor's membership stands, and no longer once somebody withdraws it.
 */
module RankCeiling {
  import opened Prelude
  import opened RoleAssignment
  import opened RankSafety

  ghost predicate IsSound(s: State) {
    MatchesRoles(s.roles, s.roster) && RequestsMatchRoles(s)
  }

  /** The actor is ACTIVE, at the role's rank or above. */
  predicate IsWithinRank(s: State, actor: UserId, roleId: RoleId)
    requires MatchesRoles(s.roles, s.roster)
  {
    && actor in s.roster && s.roster[actor].status == Active && roleId in s.roles
    && s.roles[roleId].rank <= s.roles[s.roster[actor].roleId].rank
  }

  ghost predicate IsPending(s: State, p: Process, request: Request) {
    p in s.requests && s.requests[p] == request
  }

  // ---------------------------------------------------------------- while the membership stands

  /** No step of the run rewrites the user's row. */
  ghost predicate RowStands(s: State, events: seq<Event>, user: UserId)
    requires IsSound(s) && user in s.roster
    decreases |events|
  {
    if events == [] then true
    else
      StepMatchesRoles(s, events[0]);
      var s' := Step(s, events[0]);
      user in s'.roster && s'.roster[user] == s.roster[user] && RowStands(s', events[1..], user)
  }

  ghost predicate LeavesPending(events: seq<Event>, p: Process) {
    forall e <- events :: e.Commit? || e.Abandon? ==> e.p != p
  }

  lemma {:induction false} RowStandsToTheEnd(s: State, events: seq<Event>, user: UserId, p: Process)
    requires IsSound(s) && user in s.roster && RowStands(s, events, user) && p in s.requests && LeavesPending(events, p)
    ensures var s' := Run(s, events);
      && IsSound(s') && s'.roles == s.roles && user in s'.roster && s'.roster[user] == s.roster[user]
      && IsPending(s', p, s.requests[p])
    decreases |events|
  {
    if events != [] {
      StepMatchesRoles(s, events[0]);
      StepLeavesPending(s, events[0], p);
      RowStandsToTheEnd(Step(s, events[0]), events[1..], user, p);
    }
  }

  lemma StepLeavesPending(s: State, e: Event, p: Process)
    requires IsSound(s) && p in s.requests && (e.Commit? || e.Abandon? ==> e.p != p)
    ensures IsPending(Step(s, e), p, s.requests[p])
  {
  }

  /**
    In every run, an assignment checked without `manage all` hands out a role within its actor's rank at
    the moment it commits, as long as no step between its check and its commit rewrote the actor's row.
   */
  lemma CeilingHoldsWhileTheActorStands(s: State, check: Event, between: seq<Event>)
    requires IsSound(s) && (check.CheckAdd? || check.CheckChange?) && !check.ability.isPlatformAdmin
    requires check.p !in s.requests && check.p in Step(s, check).requests && IsSound(Step(s, check))
    requires check.actor in s.roster && RowStands(Step(s, check), between, check.actor) && LeavesPending(between, check.p)
    ensures var s' := Run(Step(s, check), between);
      && IsSound(s') && check.p in s'.requests && s'.requests[check.p].IsAssignment()
      && s'.requests[check.p].actor == check.actor
      && s'.requests[check.p].roleId == check.roleId && IsWithinRank(s', check.actor, check.roleId)
  {
    AssignmentIsExact(s, check.actor, check.ability, check.roleId);
    RowStandsToTheEnd(Step(s, check), between, check.actor, check.p);
  }

  // ---------------------------------------------------------------- once it is withdrawn

  /** The transaction of an assignment puts its role on its target. */
  ghost predicate HandsOut(s: State, s': State, request: Request)
    requires request.IsAssignment()
  {
    request.target in s'.roster && s'.roster[request.target].roleId == request.roleId && request.roleId in s'.handedOut
  }

  /** What another ACTIVE member can put in place of the actor's row: a suspension, or a lower role. */
  ghost predicate MayBringDown(s: State, other: UserId, actor: UserId, row: Membership)
    requires IsSound(s)
  {
    && other in s.roster && s.roster[other].status == Active && actor in s.roster && s.roster[actor].status == Active
    && s.roles[s.roster[actor].roleId].rank <= s.roles[s.roster[other].roleId].rank
    && (|| (row == Membership(s.roster[actor].roleId, Suspended) && (IsOwner(s, actor) ==> HasAnotherActiveOwner(s, actor)))
        || (row.status == Active && CheckAssignment(s, other, ASSIGNER, row.roleId).Ok?
            && (IsOwner(s, actor) && s.roles[row.roleId].name != OWNER ==> HasAnotherActiveOwner(s, actor))))
  }

  const ASSIGNER := Ability(false, true, true)

  function BringingDown(q: Process, other: UserId, actor: UserId, row: Membership): Event {
    if row.status == Suspended then CheckWithdraw(q, other, ASSIGNER, actor, Suspended)
    else CheckChange(q, other, ASSIGNER, actor, row.roleId)
  }

  lemma ActorIsBroughtDown(s: State, q: Process, other: UserId, actor: UserId, row: Membership)
    requires IsSound(s) && q !in s.requests && MayBringDown(s, other, actor, row)
    ensures var s1 := Step(s, BringingDown(q, other, actor, row));
      && IsSound(s1) && Step(s1, Commit(q)).roster == s.roster[actor := row]
      && Step(s1, Commit(q)).requests == s.requests && Step(s1, Commit(q)).roles == s.roles
  {
    var check := BringingDown(q, other, actor, row);
    StepMatchesRoles(s, check);
    var s1 := Step(s, check);
    var ceiling := Some(s.roles[s.roster[other].roleId].rank);
    var request := if row.status == Suspended then Withdrawing(other, ceiling, actor, Suspended)
                   else Changing(other, ceiling, actor, row.roleId);
    assert s1 == s.(requests := s.requests[q := request]);
    assert HasAnotherActiveOwner(s1, actor) == HasAnotherActiveOwner(s, actor);
    assert IsAccepted(s1, request);
    assert s1.requests - {q} == s.requests;
  }

  /**
    From every state with an assignment pending whose actor another ACTIVE member may suspend, or demote
    below the role, there is a continuation in which it still hands the role out, beyond the rank its
    actor has at that moment, if any.
   */
  lemma CeilingOutlivesItsActor(s: State, p: Process, other: UserId, row: Membership) returns (later: seq<Event>)
    requires IsSound(s) && p in s.requests && s.requests[p].IsAssignment()
    requires MayBringDown(s, other, s.requests[p].actor, row)
    requires row.status == Suspended || s.roles[row.roleId].rank < s.roles[s.requests[p].roleId].rank
    requires IsAccepted(s.(roster := s.roster[s.requests[p].actor := row]), s.requests[p])
    ensures IsSound(Run(s, later)) && IsPending(Run(s, later), p, s.requests[p])
    ensures !IsWithinRank(Run(s, later), s.requests[p].actor, s.requests[p].roleId)
    ensures HandsOut(Run(s, later), Run(s, later + [Commit(p)]), s.requests[p])
  {
    var request := s.requests[p];
    var q := FreshNumber(s.requests.Keys);
    var check := BringingDown(q, other, request.actor, row);
    ActorIsBroughtDown(s, q, other, request.actor, row);
    var s1 := Step(s, check);
    StepMatchesRoles(s1, Commit(q));
    var s2 := Step(s1, Commit(q));
    Unrolled(s, check, Commit(q), []);
    Unrolled(s, check, Commit(q), [Commit(p)]);
    later := [check, Commit(q)];
    assert later + [] == later;
    AcceptedAlike(s.(roster := s2.roster), s2, request);
    Last(s2, Commit(p));
  }

  lemma AcceptedAlike(s: State, s': State, request: Request)
    requires MatchesRoles(s.roles, s.roster) && s'.roles == s.roles && s'.roster == s.roster
    ensures IsAccepted(s, request) <==> IsAccepted(s', request)
  {
    assert HasAnotherActiveOwner(s, request.target) <==> HasAnotherActiveOwner(s', request.target);
  }

  lemma Last(s: State, e: Event)
    requires IsSound(s)
    ensures IsSound(Step(s, e)) && Run(s, [e]) == Step(s, e)
  {
    StepMatchesRoles(s, e);
    assert [e][1..] == [];
  }

  lemma Unrolled(s: State, first: Event, second: Event, rest: seq<Event>)
    requires IsSound(s)
    ensures IsSound(Step(s, first)) && IsSound(Step(Step(s, first), second))
    ensures Run(s, [first, second] + rest) == Run(Step(Step(s, first), second), rest)
  {
    StepMatchesRoles(s, first);
    StepMatchesRoles(Step(s, first), second);
    var events := [first, second] + rest;
    assert events[1..] == [second] + rest && events[1..][1..] == rest;
  }

  const EXAMPLE_ROLES: Roles := map[0 := Role(STAFF, 20, true), 2 := Role(2, 70, true)]

  /** User 1, checked as an admin and then demoted by user 3, still makes user 2 an admin. */
  lemma DemotedAdminAppointsAnAdmin(s: State) returns (later: seq<Event>)
    requires s.roles == EXAMPLE_ROLES && s.requests == map[]
    requires s.roster == map[1 := Membership(2, Active), 2 := Membership(0, Active), 3 := Membership(2, Active)]
    ensures var s1 := Step(s, CheckChange(0, 1, ASSIGNER, 2, 2));
      && IsSound(s1) && IsSound(Run(s1, later)) && !IsWithinRank(Run(s1, later), 1, 2)
      && HandsOut(Run(s1, later), Run(s1, later + [Commit(0)]), Changing(1, Some(70), 2, 2))
  {
    var demoted := Membership(0, Active);
    var s1 := s.(requests := map[0 := Changing(1, Some(70), 2, 2)]);
    assert Step(s, CheckChange(0, 1, ASSIGNER, 2, 2)) == s1;
    AssignmentIsExact(s1, 3, ASSIGNER, 0);
    assert MayBringDown(s1, 3, 1, demoted);
    assert IsAccepted(s1.(roster := s1.roster[1 := demoted]), s1.requests[0]);
    later := CeilingOutlivesItsActor(s1, 0, 3, demoted);
  }
}
