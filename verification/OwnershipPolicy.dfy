/**
  `WorkspaceOwnershipPolicy` in its own form: each method runs inside one transaction, takes its
  locks there, reads the rows and, to close workspaces, writes them.
 */
module OwnershipPolicy {
  import opened Prelude
  import opened RowLocks
  import opened Ownership

  datatype PolicyError = UserNotFound | LastOwnerProtected(blocking: seq<WorkspaceId>)

  class WorkspaceOwnershipPolicy {
    const accounts: map<UserId, Account>
    const members: map<Seat, Member>
    var isLive: map<WorkspaceId, bool>

    constructor (accounts: map<UserId, Account>, members: map<Seat, Member>, isLive: map<WorkspaceId, bool>)
      ensures Rows() == Db(accounts, isLive, members)
    {
      this.accounts, this.members, this.isLive := accounts, members, isLive;
    }

    function Rows(): Db
      reads this
    {
      Db(accounts, isLive, members)
    }

    method AssertUserMayHoldActiveMembership(transaction: Transaction, userId: UserId)
      returns (outcome: Result<(), PolicyError>)
      modifies transaction
      ensures transaction.taken == old(transaction.taken) + [Key(Users, userId)]
      ensures outcome.Ok? <==> userId in accounts && accounts[userId].isActive && !accounts[userId].isDeleted
      ensures outcome.Err? ==> outcome.error == UserNotFound
    {
      transaction.LockUserRow(userId);
      if userId in accounts && !accounts[userId].isDeleted && accounts[userId].isActive {
        return Ok(());
      }
      return Err(UserNotFound);
    }

    /** The count excludes the membership about to go. */
    method AssertAnotherActiveOwnerExists(workspaceId: WorkspaceId, excluding: Seat)
      returns (outcome: Result<(), PolicyError>)
      requires excluding.workspaceId == workspaceId
      ensures outcome.Ok? <==> exists seat <- members ::
        && seat.workspaceId == workspaceId && seat.userId != excluding.userId && members[seat] == Member(Owner, Active)
        && seat.userId in accounts && accounts[seat.userId].isActive && !accounts[seat.userId].isDeleted
      ensures outcome.Err? ==> outcome.error == LastOwnerProtected([])
    {
      var remaining := set seat <- members |
        seat != excluding && seat.workspaceId == workspaceId && members[seat] == Member(Owner, Active)
        && IsUsable(Rows(), seat.userId);
      if |remaining| == 0 {
        assert forall seat <- members :: seat !in remaining;
        return Err(LastOwnerProtected([]));
      }
      var seat :| seat in remaining;
      assert IsServingOwner(Rows(), workspaceId, seat.userId) by {
        assert seat == Seat(workspaceId, seat.userId);
      }
      return Ok(());
    }

    method FindOwnedWorkspaces(userId: UserId) returns (owned: seq<WorkspaceId>)
      ensures owned == OwnedWorkspaces(Rows(), userId)
    {
      var seats := set seat <- members |
        seat.userId == userId && IsLiveWorkspace(Rows(), seat.workspaceId) && members[seat] == Member(Owner, Active);
      owned := [];
      ghost var done: set<Seat> := {};
      while seats != {}
        invariant Ascending(owned)
        invariant forall seat <- done + seats ::
          && seat in members && seat.userId == userId
          && IsLiveWorkspace(Rows(), seat.workspaceId) && members[seat] == Member(Owner, Active)
        invariant forall w ::
          IsLiveWorkspace(Rows(), w) && IsActiveOwner(Rows(), w, userId) ==> Seat(w, userId) in done + seats
        invariant Elements(owned) == set seat <- done :: seat.workspaceId
        decreases seats
      {
        var seat :| seat in seats;
        InsertIsSound(seat.workspaceId, owned);
        owned := Insert(seat.workspaceId, owned);
        seats, done := seats - {seat}, done + {seat};
      }
      forall w
        ensures w in Elements(owned) <==> w in Elements(OwnedWorkspaces(Rows(), userId))
      {
        assert w in Elements(OwnedWorkspaces(Rows(), userId)) <==> w in OwnedWorkspaces(Rows(), userId);
        if w in Elements(owned) {
          var seat :| seat in done && seat.workspaceId == w;
          assert seat == Seat(w, userId);
        }
      }
      AscendingIsCanonical(owned, OwnedWorkspaces(Rows(), userId));
    }

    /** Locks every live workspace the account owns, ascending, then keeps those nobody else serves. */
    method FindSolelyOwnedLiveWorkspaces(transaction: Transaction, userId: UserId)
      returns (alone: seq<WorkspaceId>)
      modifies transaction
      ensures transaction.taken == old(transaction.taken) + Keys(Workspaces, OwnedWorkspaces(Rows(), userId))
      ensures Ascending(alone)
      ensures forall w :: w in alone <==>
        IsLiveWorkspace(Rows(), w) && IsActiveOwner(Rows(), w, userId) && !HasAnotherOwner(Rows(), w, userId)
      ensures forall w :: w in alone <==>
        && w in isLive && isLive[w]
        && Seat(w, userId) in members && members[Seat(w, userId)] == Member(Owner, Active)
        && forall seat <- members | seat.workspaceId == w && seat.userId != userId && members[seat] == Member(Owner, Active) ::
             !(seat.userId in accounts && accounts[seat.userId].isActive && !accounts[seat.userId].isDeleted)
    {
      var owned := FindOwnedWorkspaces(userId);
      if |owned| == 0 {
        assert Keys(Workspaces, owned) == [];
        AloneByColumns(Rows(), userId);
        return [];
      }
      transaction.LockWorkspaceRows(owned);
      AscendingIsCanonical(SortedUnique(owned), owned);
      alone := KeepAlone(owned, userId);
      AloneByColumns(Rows(), userId);
    }

    method KeepAlone(owned: seq<WorkspaceId>, userId: UserId) returns (alone: seq<WorkspaceId>)
      requires Ascending(owned)
      ensures Ascending(alone) && forall w :: w in alone <==> w in owned && !HasAnotherOwner(Rows(), w, userId)
    {
      alone := [];
      for i := 0 to |owned|
        invariant Ascending(alone) && (i < |owned| ==> forall w <- alone :: w < owned[i])
        invariant forall w :: w in alone <==> w in owned[..i] && !HasAnotherOwner(Rows(), w, userId)
      {
        assert owned[..i + 1] == owned[..i] + [owned[i]];
        if !HasAnotherOwner(Rows(), owned[i], userId) {
          forall j | 0 <= j < |alone|
            ensures alone[j] < owned[i]
          {
            assert alone[j] in alone;
          }
          alone := alone + [owned[i]];
        }
      }
    }

    /** Deletion and deactivation are refused, naming the workspaces, exactly when one would be stranded. */
    method AssertUserIsNotASoleOwner(transaction: Transaction, userId: UserId)
      returns (outcome: Result<(), PolicyError>)
      modifies transaction
      ensures transaction.taken == old(transaction.taken) + Keys(Workspaces, OwnedWorkspaces(Rows(), userId))
      ensures outcome.Err? ==> outcome.error.LastOwnerProtected? && outcome.error.blocking != []
      ensures var blocking := if outcome.Ok? then [] else outcome.error.blocking;
        forall w :: w in blocking <==>
        && w in isLive && isLive[w]
        && Seat(w, userId) in members && members[Seat(w, userId)] == Member(Owner, Active)
        && forall seat <- members | seat.workspaceId == w && seat.userId != userId && members[seat] == Member(Owner, Active) ::
             !(seat.userId in accounts && accounts[seat.userId].isActive && !accounts[seat.userId].isDeleted)
    {
      var blocking := FindSolelyOwnedLiveWorkspaces(transaction, userId);
      if |blocking| > 0 {
        assert blocking[0] in blocking;
        return Err(LastOwnerProtected(blocking));
      }
      return Ok(());
    }

    /** Erasure closes exactly the workspaces it would strand, and reports everyone seated in them. */
    method CloseSolelyOwnedWorkspaces(transaction: Transaction, userId: UserId)
      returns (closed: seq<WorkspaceId>, affected: set<UserId>)
      modifies transaction, this`isLive
      ensures transaction.taken == old(transaction.taken) + Keys(Workspaces, OwnedWorkspaces(old(Rows()), userId))
      ensures forall w :: w in closed <==>
        && w in old(isLive) && old(isLive)[w]
        && Seat(w, userId) in members && members[Seat(w, userId)] == Member(Owner, Active)
        && forall seat <- members | seat.workspaceId == w && seat.userId != userId && members[seat] == Member(Owner, Active) ::
             !(seat.userId in accounts && accounts[seat.userId].isActive && !accounts[seat.userId].isDeleted)
      ensures isLive == map w | w in old(isLive) :: old(isLive)[w] && w !in closed
      ensures forall u :: u in affected <==> exists w <- closed :: Seat(w, u) in members
    {
      closed := FindSolelyOwnedLiveWorkspaces(transaction, userId);
      if |closed| == 0 {
        return [], {};
      }
      affected := set seat <- members | seat.workspaceId in closed :: seat.userId;
      forall u, w <- closed | Seat(w, u) in members
        ensures u in affected
      {
        assert Seat(w, u).userId == u;
      }
      isLive := map w | w in isLive :: if w in closed then false else isLive[w];
    }
  }

  /** What owning a live workspace alone means, column by column. */
  lemma AloneByColumns(db: Db, userId: UserId)
    ensures forall w ::
      (IsLiveWorkspace(db, w) && IsActiveOwner(db, w, userId) && !HasAnotherOwner(db, w, userId)) <==>
        && w in db.isLive && db.isLive[w]
        && Seat(w, userId) in db.members && db.members[Seat(w, userId)] == Member(Owner, Active)
        && forall seat <- db.members | seat.workspaceId == w && seat.userId != userId && db.members[seat] == Member(Owner, Active) ::
             !(seat.userId in db.accounts && db.accounts[seat.userId].isActive && !db.accounts[seat.userId].isDeleted)
  {
    forall w, seat | seat in db.members && seat.workspaceId == w
      ensures IsServingOwner(db, w, seat.userId) <==>
        && db.members[seat] == Member(Owner, Active) && seat.userId in db.accounts
        && db.accounts[seat.userId].isActive && !db.accounts[seat.userId].isDeleted
    {
      assert seat == Seat(w, seat.userId);
    }
  }

  /** The account can no longer be used: deleted, deactivated or erased. */
  ghost predicate IsRetirement(db: Db, db': Db, userId: UserId) {
    && db'.members == db.members && db'.isLive == db.isLive && !IsUsable(db', userId)
    && forall u: UserId :: u != userId ==> (IsUsable(db', u) <==> IsUsable(db, u))
  }

  ghost predicate OwnsNothingAlone(db: Db, userId: UserId) {
    forall w :: IsLiveWorkspace(db, w) && IsActiveOwner(db, w, userId) ==> HasAnotherOwner(db, w, userId)
  }

  /** The refusal is exact: retiring the account strands a workspace if and only if it is refused. */
  lemma RefusalIsExact(db: Db, db': Db, userId: UserId)
    requires EveryWorkspaceIsOwned(db) && IsRetirement(db, db', userId)
    ensures EveryWorkspaceIsOwned(db') <==> OwnsNothingAlone(db, userId)
  {
    if OwnsNothingAlone(db, userId) {
      forall w <- db'.isLive | db'.isLive[w]
        ensures exists u :: IsServingOwner(db', w, u)
      {
        var u :| IsServingOwner(db, w, u);
        if u == userId {
          assert HasAnotherOwner(db, w, userId);
          var seat :| seat in db.members && seat.workspaceId == w && seat.userId != userId
                      && IsServingOwner(db, w, seat.userId);
          assert IsServingOwner(db', w, seat.userId);
        } else {
          assert IsServingOwner(db', w, u);
        }
      }
    } else {
      var w :| IsLiveWorkspace(db, w) && IsActiveOwner(db, w, userId) && !HasAnotherOwner(db, w, userId);
      forall u
        ensures !IsServingOwner(db', w, u)
      {
        if IsServingOwner(db', w, u) {
          assert u != userId && Seat(w, u) in db.members && IsServingOwner(db, w, u);
        }
      }
    }
  }

  /** Closing the workspaces owned alone is what makes an erasure safe, and nothing more is closed. */
  lemma ErasureStrandsNothing(db: Db, closed: seq<WorkspaceId>, db': Db, userId: UserId)
    requires EveryWorkspaceIsOwned(db)
    requires forall w :: w in closed <==>
      IsLiveWorkspace(db, w) && IsActiveOwner(db, w, userId) && !HasAnotherOwner(db, w, userId)
    requires var after := db.(isLive := map w | w in db.isLive :: db.isLive[w] && w !in closed);
      IsRetirement(after, db', userId)
    ensures EveryWorkspaceIsOwned(db')
    ensures forall w <- closed, kept: Db :: IsRetirement(db, kept, userId) ==>
      !exists u :: IsServingOwner(kept, w, u)
  {
    var after := db.(isLive := map w | w in db.isLive :: db.isLive[w] && w !in closed);
    forall w <- after.isLive | after.isLive[w]
      ensures exists u :: IsServingOwner(after, w, u)
    {
      var u :| IsServingOwner(db, w, u);
      assert IsServingOwner(after, w, u);
    }
    assert OwnsNothingAlone(after, userId) by {
      forall w | IsLiveWorkspace(after, w) && IsActiveOwner(after, w, userId)
        ensures HasAnotherOwner(after, w, userId)
      {
        assert HasAnotherOwner(db, w, userId);
        var seat :| seat in db.members && seat.workspaceId == w && seat.userId != userId
                    && IsServingOwner(db, w, seat.userId);
        assert IsServingOwner(after, w, seat.userId);
      }
    }
    RefusalIsExact(after, db', userId);
    forall w <- closed, kept: Db, u | IsRetirement(db, kept, userId)
      ensures !IsServingOwner(kept, w, u)
    {
      if IsServingOwner(kept, w, u) {
        assert u != userId && Seat(w, u) in db.members && IsServingOwner(db, w, u);
      }
    }
  }
}
