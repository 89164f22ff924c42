/**
  `RefreshTokenService` in its own form: the two tables as fields that its transactions update.
  Each method is proved against the function of `RefreshTokens` that the runs are made of.
  The clock, new digests and new family ids are parameters.
 */
module SessionService {
  import opened Prelude
  import opened SessionCutoff
  import opened RefreshTokens

  class RefreshTokenService {
    var users: map<UserId, User>
    var rows: map<Token, Row>
    const lifetime: nat

    constructor (lifetime: nat)
      ensures Contents() == Store(map[], map[], lifetime)
    {
      this.lifetime := lifetime;
      users, rows := map[], map[];
    }

    function Contents(): Store
      reads this
    {
      Store(users, rows, lifetime)
    }

    /** The foreign key from `refresh_tokens` to `users`. */
    ghost predicate Valid()
      reads this
    {
      forall token <- rows :: rows[token].userId in users
    }

    method IssueForNewSession(userId: UserId, expected: Option<nat>, familyId: FamilyId, token: Token, now: nat)
      returns (issuedAt: Option<nat>)
      requires Valid()
      modifies this`rows
      ensures Valid()
      ensures issuedAt == if old(MayIssue(Contents(), userId, expected)) then Some(now) else None
      ensures issuedAt.Some? <==>
        userId in users && users[userId].isActive && !users[userId].isDeleted && users[userId].cutoff == expected
      ensures rows == if issuedAt.None? then old(rows)
                      else old(rows)[token := Row(userId, familyId, now, now + lifetime, None, None)]
    {
      if userId !in users || users[userId].isDeleted || !users[userId].isActive {
        return None;
      }
      if users[userId].cutoff != expected {
        return None;
      }
      PersistRow(userId, familyId, token, now);
      return Some(now);
    }

    /** The sleep of `waitForSessionCutoff`, which may end late but not early. */
    method WaitForSessionCutoff(cutoff: Option<nat>, now: nat, delay: nat) returns (later: nat)
      ensures later == now + RemainingWait(cutoff, now) + delay
      ensures later == (if cutoff.Some? && cutoff.value > now then cutoff.value else now) + delay
    {
      var remaining := if cutoff.None? || cutoff.value <= now then 0 else cutoff.value - now;
      later := now + remaining + delay;
    }

    /** A session is started exactly for the cutoff it was asked for, and its access token is accepted. */
    method StartSession(userId: UserId, expected: Option<nat>, familyId: FamilyId, token: Token, now: nat, delay: nat)
      returns (issuedAt: Option<nat>)
      requires Valid()
      modifies this`rows
      ensures Valid()
      ensures issuedAt.Some? <==>
        userId in users && users[userId].isActive && !users[userId].isDeleted && users[userId].cutoff == expected
      ensures issuedAt.Some? ==>
        && issuedAt.value >= now && (expected.Some? ==> issuedAt.value >= expected.value)
        && rows == old(rows)[token := Row(userId, familyId, issuedAt.value, issuedAt.value + lifetime, None, None)]
        && Accepts(users[userId].cutoff, IssuedAtSecond(issuedAt.value))
      ensures issuedAt.None? ==> rows == old(rows)
    {
      var later := WaitForSessionCutoff(expected, now, delay);
      WaitSuffices(expected, now, later);
      issuedAt := IssueForNewSession(userId, expected, familyId, token, later);
    }

    /** The row can be exchanged, at any time, exactly as long as its owner is eligible and its lifetime lasts. */
    method PersistRow(userId: UserId, familyId: FamilyId, token: Token, now: nat)
      requires Valid() && userId in users
      modifies this`rows
      ensures Valid() && Contents() == Persist(old(Contents()), now, userId, familyId, token)
      ensures !Predates(Contents(), userId, now) ==>
        forall later: nat :: Judge(Contents(), later, token, rows[token]).Rotated?
                        <==> IsEligible(Contents(), userId) && later < now + lifetime
      ensures forall other <- old(rows) :: other != token ==>
        forall later: nat :: Judge(Contents(), later, other, rows[other]) == Judge(old(Contents()), later, other, old(rows)[other])
    {
      rows := rows[token := Row(userId, familyId, now, now + lifetime, None, None)];
    }

    /** The transaction of `rotate`, entered with the row as it was read before the locks. */
    method CommitRotation(token: Token, existing: Row, child: Token, now: nat) returns (verdict: Verdict)
      requires Valid()
      modifies this`rows
      ensures Valid()
      ensures verdict == old(Judge(Contents(), now, token, existing))
      ensures Contents() ==
        if verdict.Rotated? then Rotate(old(Contents()), now, token, existing, child) else old(Contents())
      ensures verdict.OwnerIneligible? <==>
        !(existing.userId in users && users[existing.userId].isActive && !users[existing.userId].isDeleted)
      ensures !verdict.OwnerIneligible? ==>
        var cutoff := users[existing.userId].cutoff;
        (verdict.PredatesCutoff? <==> cutoff.Some? && existing.createdAt < cutoff.value)
      ensures verdict.Rotated? || verdict.Replay? ==>
        var isLive := && token in old(rows) && old(rows)[token].consumedAt.None? && old(rows)[token].revokedAt.None?
                      && now < old(rows)[token].expiresAt;
        verdict.Rotated? <==> isLive
      ensures verdict.Rotated? && child !in old(rows) ==>
        && rows.Keys == old(rows.Keys) + {child}
        && rows[child] == Row(existing.userId, existing.familyId, now, now + lifetime, None, None)
        && rows[token] == old(rows)[token].(consumedAt := Some(now))
        && forall other <- old(rows) :: other != token ==> rows[other] == old(rows)[other]
      ensures !verdict.Rotated? ==> rows == old(rows)
    {
      if existing.userId !in users || users[existing.userId].isDeleted || !users[existing.userId].isActive {
        return OwnerIneligible;
      }
      var owner := users[existing.userId];
      if owner.cutoff.Some? && existing.createdAt < owner.cutoff.value {
        return PredatesCutoff;
      }
      var consumed := 0;
      if token in rows && rows[token].consumedAt.None? && rows[token].revokedAt.None? && rows[token].expiresAt > now {
        rows := rows[token := rows[token].(consumedAt := Some(now))];
        consumed := 1;
      }
      if consumed != 1 {
        return Replay;
      }
      PersistRow(existing.userId, existing.familyId, child, now);
      return Rotated;
    }

    /**
      `rotate` with nothing else running: a live row of an eligible owner is exchanged, a consumed
      one ends its family, an ineligible owner loses every session, and the rest changes nothing.
     */
    method RotateToken(token: Token, child: Token, now: nat) returns (granted: bool)
      requires Valid()
      modifies this
      ensures Valid()
      ensures granted <==>
        token in old(rows) &&
        var row := old(rows)[token];
        && row.consumedAt.None? && row.revokedAt.None? && now < row.expiresAt && row.userId in old(users)
        && old(users)[row.userId].isActive && !old(users)[row.userId].isDeleted
        && !(old(users)[row.userId].cutoff.Some? && row.createdAt < old(users)[row.userId].cutoff.value)
      ensures granted ==> users == old(users)
      ensures granted && child !in old(rows) ==>
        var row := old(rows)[token];
        && rows.Keys == old(rows.Keys) + {child}
        && rows[token] == row.(consumedAt := Some(now))
        && rows[child] == Row(row.userId, row.familyId, now, now + lifetime, None, None)
        && forall other <- old(rows) :: other != token ==> rows[other] == old(rows)[other]
      ensures !granted && token !in old(rows) ==> users == old(users) && rows == old(rows)
      ensures !granted && token in old(rows) ==>
        var row := old(rows)[token];
        var owner := old(users)[row.userId];
        && rows.Keys == old(rows.Keys)
        && (forall other <- rows ::
              var isReplayed := row.consumedAt.Some? && old(rows)[other].familyId == row.familyId;
              var isOrphaned := row.consumedAt.None? && row.revokedAt.None? && now < row.expiresAt
                                && (owner.isDeleted || !owner.isActive) && old(rows)[other].userId == row.userId;
              rows[other] == old(rows)[other] ||
                ((isReplayed || isOrphaned) && old(rows)[other].revokedAt.None?
                 && rows[other] == old(rows)[other].(revokedAt := Some(now))))
        && (forall other <- rows ::
              row.consumedAt.Some? && old(rows)[other].familyId == row.familyId ==> rows[other].revokedAt.Some?)
      ensures var before := old(Contents());
        if token !in before.rows then !granted && Contents() == before
        else
          var row := before.rows[token];
          if row.consumedAt.Some? then !granted && Contents() == RevokeFamily(before, now, row.familyId)
          else if row.revokedAt.Some? || row.expiresAt <= now then !granted && Contents() == before
          else if !IsEligible(before, row.userId) then
            !granted && Contents() == EndAllSessions(before, now, row.userId, UserData(None, None))
          else if Predates(before, row.userId, row.createdAt) then !granted && Contents() == before
          else granted && Contents() == Rotate(before, now, token, row, child)
    {
      granted := false;
      if token !in rows {
        return;
      }
      var existing := rows[token];
      if existing.consumedAt.Some? {
        RevokeTokenFamily(existing.familyId, now);
        return;
      }
      if existing.revokedAt.Some? || existing.expiresAt <= now {
        return;
      }
      var verdict := CommitRotation(token, existing, child, now);
      granted := Settle(existing, verdict, now);
    }

    /**
      The child of an exchange is itself exchanged, at any later time and whatever became of its owner,
      exactly while the owner is eligible, no cutoff has passed its creation, and its lifetime lasts.
     */
    method RotateChild(token: Token, child: Token, grandchild: Token, now: nat, later: nat, owner: User)
      returns (granted: bool, grantedAgain: bool)
      requires Valid() && child !in rows
      modifies this
      ensures granted ==>
        (grantedAgain <==>
          && owner.isActive && !owner.isDeleted && later < now + lifetime
          && (owner.cutoff.Some? ==> owner.cutoff.value <= now))
      ensures !granted ==> !grantedAgain
    {
      grantedAgain := false;
      granted := RotateToken(token, child, now);
      if granted {
        users := users[rows[child].userId := owner];
        grantedAgain := RotateToken(child, grandchild, later);
      }
    }

    /** What follows the transaction of `rotate`, outside it. */
    method Settle(existing: Row, verdict: Verdict, now: nat) returns (granted: bool)
      requires Valid() && (verdict.OwnerIneligible? ==> existing.userId in users)
      modifies this
      ensures Valid() && granted == verdict.Rotated?
      ensures Contents() ==
        match verdict
        case Replay => RevokeFamily(old(Contents()), now, existing.familyId)
        case OwnerIneligible => EndAllSessions(old(Contents()), now, existing.userId, UserData(None, None))
        case _ => old(Contents())
    {
      granted := verdict.Rotated?;
      match verdict
      case Replay => RevokeTokenFamily(existing.familyId, now);
      case OwnerIneligible => EndSessions(existing.userId, UserData(None, None), now);
      case _ =>
    }

    method RevokeTokenFamily(familyId: FamilyId, now: nat)
      requires Valid()
      modifies this`rows
      ensures Valid() && Contents() == RevokeFamily(old(Contents()), now, familyId)
      ensures rows.Keys == old(rows.Keys) && forall token <- rows ::
        rows[token] == (if old(rows)[token].familyId == familyId && old(rows)[token].revokedAt.None?
                        then old(rows)[token].(revokedAt := Some(now)) else old(rows)[token])
    {
      if !exists token <- rows :: rows[token].familyId == familyId {
        assert Contents() == RevokeFamily(Contents(), now, familyId);
        return;
      }
      rows := map token | token in rows ::
        if rows[token].familyId == familyId && rows[token].revokedAt.None?
        then rows[token].(revokedAt := Some(now)) else rows[token];
    }

    /** `endAllSessionsInTransaction`: the cutoff and the rows, together. */
    method EndSessions(userId: UserId, userData: UserData, now: nat)
      requires Valid() && userId in users
      modifies this
      ensures Valid() && Contents() == EndAllSessions(old(Contents()), now, userId, userData)
      ensures users.Keys == old(users.Keys) && forall other <- users :: other != userId ==> users[other] == old(users)[other]
      ensures users[userId].isActive == if userData.isActive.Some? then userData.isActive.value else old(users)[userId].isActive
      ensures users[userId].isDeleted == if userData.isDeleted.Some? then userData.isDeleted.value else old(users)[userId].isDeleted
      ensures users[userId].cutoff.Some? && now <= users[userId].cutoff.value < now + 1000 && users[userId].cutoff.value % 1000 == 0
      ensures rows.Keys == old(rows.Keys) && forall token <- rows ::
        rows[token] == (if old(rows)[token].userId == userId && old(rows)[token].revokedAt.None?
                        then old(rows)[token].(revokedAt := Some(now)) else old(rows)[token])
    {
      var updated := users[userId];
      if userData.isActive.Some? {
        updated := updated.(isActive := userData.isActive.value);
      }
      if userData.isDeleted.Some? {
        updated := updated.(isDeleted := userData.isDeleted.value);
      }
      users := users[userId := updated.(cutoff := Some(NextWholeSecond(now)))];
      assert users == EndAllSessions(old(Contents()), now, userId, userData).users;
      rows := map token | token in rows ::
        if rows[token].userId == userId && rows[token].revokedAt.None?
        then rows[token].(revokedAt := Some(now)) else rows[token];
    }

    method PurgeExpiredRows(now: nat) returns (count: nat)
      requires Valid()
      modifies this`rows
      ensures Valid() && Contents() == PurgeExpired(old(Contents()), now)
      ensures forall token :: token in rows <==> token in old(rows) && old(rows)[token].expiresAt >= now
      ensures forall token <- rows :: rows[token] == old(rows)[token]
      ensures count == |old(rows)| - |rows|
    {
      var expired := set token | token in rows && rows[token].expiresAt < now;
      count := |expired|;
      assert |rows.Keys| == |rows.Keys - expired| + |expired|;
      assert (rows - expired).Keys == rows.Keys - expired;
      rows := rows - expired;
    }
  }
}
