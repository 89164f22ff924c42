/**
  What each transaction of `src/modules/auth/refresh-token.service.ts` does to the `users` and
  `refresh_tokens` tables, as a function of the tables before it.

  A row is named by its token digest; digests, family ids and user ids are opaque numbers.
 */
module RefreshTokens {
  import opened Prelude
  import opened SessionCutoff

  type UserId = nat
  type FamilyId = nat
  type Token = nat

  datatype User = User(isActive: bool, isDeleted: bool, cutoff: Option<nat>)

  datatype Row = Row(
    userId: UserId,
    familyId: FamilyId,
    createdAt: nat,
    expiresAt: nat,
    consumedAt: Option<nat>,
    revokedAt: Option<nat>)
  {
    predicate IsLive(now: nat) {
      consumedAt.None? && revokedAt.None? && now < expiresAt
    }

    function Revoke(now: nat): Row {
      if revokedAt.None? then this.(revokedAt := Some(now)) else this
    }

    /** The columns no statement ever rewrites agree. */
    predicate SameIdentity(other: Row) {
      userId == other.userId && familyId == other.familyId
      && createdAt == other.createdAt && expiresAt == other.expiresAt
    }
  }

  /** Both tables, and the configured lifetime of a row in milliseconds. */
  datatype Store = Store(users: map<UserId, User>, rows: map<Token, Row>, lifetime: nat)

  /** `loadEligibleSessionOwner` finds the account. */
  predicate IsEligible(store: Store, userId: UserId) {
    userId in store.users && store.users[userId].isActive && !store.users[userId].isDeleted
  }

  /** The account's session cutoff postdates `createdAt`. */
  predicate Predates(store: Store, userId: UserId, createdAt: nat)
    requires userId in store.users
  {
    var cutoff := store.users[userId].cutoff;
    cutoff.Some? && createdAt < cutoff.value
  }

  /** `persist`. */
  function Persist(store: Store, now: nat, userId: UserId, familyId: FamilyId, token: Token): Store {
    store.(rows := store.rows[token := Row(userId, familyId, now, now + store.lifetime, None, None)])
  }

  /** The decision `issueForNewSession` makes under the user lock. */
  predicate MayIssue(store: Store, userId: UserId, expected: Option<nat>) {
    IsEligible(store, userId) && store.users[userId].cutoff == expected
  }

  datatype Verdict = Rotated | Replay | OwnerIneligible | PredatesCutoff

  /** The decision `rotate` makes under both locks, from the snapshot it read before them. */
  function Judge(store: Store, now: nat, token: Token, snapshot: Row): Verdict {
    if !IsEligible(store, snapshot.userId) then OwnerIneligible
    else if Predates(store, snapshot.userId, snapshot.createdAt) then PredatesCutoff
    else if token !in store.rows || !store.rows[token].IsLive(now) then Replay
    else Rotated
  }

  /** Consume the presented row and issue its child. */
  function Rotate(store: Store, now: nat, token: Token, snapshot: Row, child: Token): Store
    requires Judge(store, now, token, snapshot) == Rotated
  {
    var consumed := store.(rows := store.rows[token := store.rows[token].(consumedAt := Some(now))]);
    Persist(consumed, now, snapshot.userId, snapshot.familyId, child)
  }

  function RevokeFamily(store: Store, now: nat, familyId: FamilyId): Store {
    store.(rows := map token | token in store.rows ::
      if store.rows[token].familyId == familyId then store.rows[token].Revoke(now) else store.rows[token])
  }

  /** The flags an `endAllSessions` caller folds into the same `users` update. */
  datatype UserData = UserData(isActive: Option<bool>, isDeleted: Option<bool>)

  function Applied(user: User, data: UserData): User {
    user.(
      isActive := if data.isActive.Some? then data.isActive.value else user.isActive,
      isDeleted := if data.isDeleted.Some? then data.isDeleted.value else user.isDeleted)
  }

  function EndAllSessions(store: Store, now: nat, userId: UserId, data: UserData): Store
    requires userId in store.users
  {
    var user := Applied(store.users[userId], data).(cutoff := Some(NextWholeSecond(now)));
    Store(
      store.users[userId := user],
      map token | token in store.rows ::
        if store.rows[token].userId == userId then store.rows[token].Revoke(now) else store.rows[token],
      store.lifetime)
  }

  function PurgeExpired(store: Store, now: nat): Store {
    store.(rows := map token | token in store.rows && now <= store.rows[token].expiresAt :: store.rows[token])
  }

  /** No row of the family can be exchanged any more. */
  ghost predicate IsDead(store: Store, familyId: FamilyId) {
    forall token <- store.rows :: store.rows[token].familyId == familyId ==> store.rows[token].revokedAt.Some?
  }
}
