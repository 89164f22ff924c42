/** Every live workspace keeps a usable owner, in every interleaving; and none of them deadlocks. */
module OwnershipSafety {
  import opened Prelude
  import opened RowLocks
  import opened Ownership
  import opened OwnershipPolicy

  // ---------------------------------------------------------------- the invariant

  ghost predicate Exclusive(s: State) {
    forall t <- s.txns, u <- s.txns, key ::
      s.txns[t].Holds(key) && s.txns[u].Holds(key) ==> t == u
  }

  ghost predicate KeepsOwnerWithout(db: Db, workspaceId: WorkspaceId, userId: UserId) {
    IsLiveWorkspace(db, workspaceId) ==> HasAnotherOwner(db, workspaceId, userId)
  }

  /** The list an account request captured still has every live workspace the account owns. */
  ghost predicate Covers(db: Db, owned: seq<WorkspaceId>, userId: UserId) {
    && (forall w <- owned :: w in db.isLive)
    && (forall w :: IsLiveWorkspace(db, w) && IsActiveOwner(db, w, userId) ==> w in owned)
  }

  /** What a membership transaction checked under its locks still holds. */
  ghost predicate Confirmed(db: Db, request: Request) {
    request.LocksWorkspace()
    && var seat := Seat(request.workspaceId, request.userId);
       match request
       case ChangeRole(w, u, role) =>
         seat in db.members && (db.members[seat].role.Owner? && !role.Owner? ==> KeepsOwnerWithout(db, w, u))
       case Join(w, u, role) => w in db.isLive && (seat in db.members ==> db.members[seat].status.Left?)
       case Reactivate(w, u) => seat in db.members
       case Suspend(w, u) => seat in db.members && (IsActiveOwner(db, w, u) ==> KeepsOwnerWithout(db, w, u))
       case Remove(w, u) => seat in db.members && (IsActiveOwner(db, w, u) ==> KeepsOwnerWithout(db, w, u))
       case Transfer(w, u) => seat in db.members && db.members[seat].status.Active?
  }

  /** Which requests reach which phase, and that a list of workspaces is locked in ascending order. */
  ghost predicate IsShaped(txn: Txn) {
    var request := txn.request;
    match txn.phase
    case Begun => true
    case UserHeld => request.LocksUser()
    case UserFound => request.LocksUser() && !request.IsAccountRequest()
    case WorkspaceHeld => request.LocksWorkspace()
    case Checked => request.LocksWorkspace()
    case Locking(owned, next) => request.IsAccountRequest() && Ascending(owned) && next <= |owned|
    case Grouped(owned, sole) => request.IsAccountRequest()
    case StaleWrite => request.Patch?
  }

  ghost predicate TxnSound(db: Db, txn: Txn) {
    var request := txn.request;
    && IsShaped(txn)
    && (txn.phase.UserFound? || txn.phase.WorkspaceHeld? || txn.phase.Checked? ==>
          (request.LocksUser() ==> IsUsable(db, request.userId)))
    && match txn.phase
       case Checked => Confirmed(db, request)
       case Locking(owned, next) => Covers(db, owned, request.userId)
       case Grouped(owned, sole) =>
         Covers(db, owned, request.userId)
         && forall w <- owned :: w !in sole ==> KeepsOwnerWithout(db, w, request.userId)
       case _ => true
  }

  ghost predicate SeatsSound(db: Db) {
    forall seat <- db.members :: seat.workspaceId in db.isLive
  }

  ghost predicate Inv(s: State) {
    && Exclusive(s)
    && SeatsSound(s.db)
    && EveryWorkspaceIsOwned(s.db)
    && forall t <- s.txns :: TxnSound(s.db, s.txns[t])
  }

  /** Any rows whose live workspaces are owned and whose seats have a workspace; nothing running. */
  ghost predicate Init(s: State) {
    s.txns == map[] && SeatsSound(s.db) && EveryWorkspaceIsOwned(s.db)
  }

  // ---------------------------------------------------------------- locks

  lemma EnteringTakesOnlyTheWantedLock(s: State, t: Name, key: Key)
    requires t in s.txns && IsShaped(s.txns[t]) && IsReady(s, s.txns[t])
    requires t in Proceed(s, t).txns && Proceed(s, t).txns[t].Holds(key)
    ensures s.txns[t].Holds(key) || IsFree(s, key)
  {
  }

  ghost predicate LocksSound(s: State) {
    Exclusive(s) && forall t <- s.txns :: IsShaped(s.txns[t])
  }

  lemma ProceedKeepsLocksSound(s: State, t: Name)
    requires LocksSound(s) && t in s.txns && IsReady(s, s.txns[t])
    ensures LocksSound(Proceed(s, t))
  {
    var s' := Proceed(s, t);
    forall a <- s'.txns, b <- s'.txns, key | a != b && s'.txns[a].Holds(key) && s'.txns[b].Holds(key)
      ensures false
    {
      if a == t {
        EnteringTakesOnlyTheWantedLock(s, t, key);
      } else if b == t {
        EnteringTakesOnlyTheWantedLock(s, t, key);
      }
    }
  }

  lemma StepKeepsLocksSound(s: State, e: Event)
    requires LocksSound(s)
    ensures LocksSound(Step(s, e))
  {
    if e.Advance? && e.t in s.txns && IsReady(s, s.txns[e.t]) {
      ProceedKeepsLocksSound(s, e.t);
    }
  }

  lemma {:induction false} RunKeepsLocksSound(s: State, events: seq<Event>)
    requires LocksSound(s)
    ensures LocksSound(Run(s, events))
    decreases |events|
  {
    if events != [] {
      StepKeepsLocksSound(s, events[0]);
      RunKeepsLocksSound(Step(s, events[0]), events[1..]);
    }
  }

  /** Users, then workspaces ascending: every lock a transaction holds comes before the one it wants. */
  lemma LocksAreTakenInOrder(txn: Txn, key: Key)
    requires IsShaped(txn) && txn.Wants().Some? && txn.Holds(key)
    ensures Before(key, txn.Wants().value)
  {
  }

  /** In every reachable state with an unfinished transaction, one of them has all it waits for. */
  lemma NoDeadlock(s: State, events: seq<Event>, waiting: Name) returns (t: Name)
    requires s.txns == map[] && waiting in Run(s, events).txns
    ensures t in Run(s, events).txns && IsReady(Run(s, events), Run(s, events).txns[t])
  {
    RunKeepsLocksSound(s, events);
    t := SomeoneIsReady(Run(s, events), waiting);
  }

  lemma SomeoneIsReady(s: State, waiting: Name) returns (t: Name)
    requires LocksSound(s) && waiting in s.txns
    ensures t in s.txns && IsReady(s, s.txns[t])
  {
    var wants := map u | u in s.txns :: s.txns[u].Wants();
    var holder := Holders(s);
    forall key <- holder | wants[holder[key]].Some?
      ensures Before(key, wants[holder[key]].value)
    {
      LocksAreTakenInOrder(s.txns[holder[key]], key);
    }
    var above := set key <- holder | wants[waiting].Some? && !Before(key, wants[waiting].value);
    t := SomeoneProceeds(s.txns.Keys, wants, holder, waiting, above);
  }

  ghost function LocksOf(txn: Txn): (keys: set<Key>)
    ensures forall key :: key in keys <==> txn.Holds(key)
  {
    var ofUser := if txn.HoldsUser() then {Key(Users, txn.request.userId)} else {};
    var ids :=
      match txn.phase
      case WorkspaceHeld => if txn.request.LocksWorkspace() then {txn.request.workspaceId} else {}
      case Checked => if txn.request.LocksWorkspace() then {txn.request.workspaceId} else {}
      case Locking(owned, next) => Elements(if next <= |owned| then owned[..next] else [])
      case Grouped(owned, _) => Elements(owned)
      case _ => {};
    ofUser + set id <- ids :: Key(Workspaces, id)
  }

  ghost function Holders(s: State): (holder: map<Key, Name>)
    ensures forall t <- s.txns, key :: s.txns[t].Holds(key) ==> key in holder
    ensures forall key <- holder :: holder[key] in s.txns && s.txns[holder[key]].Holds(key)
  {
    var locked := set t, key | t in s.txns && key in LocksOf(s.txns[t]) :: key;
    assert forall t <- s.txns, key :: s.txns[t].Holds(key) ==> key in LocksOf(s.txns[t]);
    map key | key in locked :: HolderOf(s, key)
  }

  ghost function HolderOf(s: State, key: Key): (t: Name)
    requires exists u <- s.txns :: s.txns[u].Holds(key)
    ensures t in s.txns && s.txns[t].Holds(key)
  {
    var t :| t in s.txns && s.txns[t].Holds(key);
    t
  }

  // ---------------------------------------------------------------- what a commit leaves alone

  /** Only seats of one workspace change, and only `newcomer` may become an active owner of it. */
  ghost predicate WritesRoster(db: Db, db': Db, workspaceId: WorkspaceId, newcomer: Option<UserId>) {
    && db'.accounts == db.accounts && db'.isLive == db.isLive && db.members.Keys <= db'.members.Keys
    && (forall seat <- db'.members :: seat.workspaceId != workspaceId ==>
          seat in db.members && db'.members[seat] == db.members[seat])
    && (forall u: UserId :: IsActiveOwner(db', workspaceId, u) ==> IsActiveOwner(db, workspaceId, u) || newcomer == Some(u))
  }

  lemma OtherRosterIsUnchanged(db: Db, db': Db, written: WorkspaceId, newcomer: Option<UserId>,
                               w: WorkspaceId, u: UserId)
    requires WritesRoster(db, db', written, newcomer) && w != written && KeepsOwnerWithout(db, w, u)
    ensures KeepsOwnerWithout(db', w, u)
  {
    if IsLiveWorkspace(db, w) {
      var seat :| seat in db.members && seat.workspaceId == w && seat.userId != u && IsServingOwner(db, w, seat.userId);
      assert seat in db'.members && IsServingOwner(db', w, seat.userId);
    }
  }

  /** A transaction that holds neither the workspace nor the newcomer's row is not disturbed. */
  lemma RosterWriteSpares(db: Db, db': Db, written: WorkspaceId, newcomer: Option<UserId>, txn: Txn)
    requires WritesRoster(db, db', written, newcomer) && TxnSound(db, txn)
    requires !txn.Holds(Key(Workspaces, written))
    requires newcomer.Some? ==> !txn.Holds(Key(Users, newcomer.value))
    ensures TxnSound(db', txn)
  {
    var request := txn.request;
    match txn.phase
    case Checked =>
      assert request.workspaceId != written;
      if KeepsOwnerWithout(db, request.workspaceId, request.userId) {
        OtherRosterIsUnchanged(db, db', written, newcomer, request.workspaceId, request.userId);
      }
    case Locking(owned, next) =>
    case Grouped(owned, sole) =>
      forall w <- owned | w !in sole
        ensures KeepsOwnerWithout(db', w, request.userId)
      {
        assert txn.HoldsWorkspace(w) && txn.Holds(Key(Workspaces, w));
        OtherRosterIsUnchanged(db, db', written, newcomer, w, request.userId);
      }
    case _ =>
  }

  /** An account leaves service; workspaces may close with it. */
  ghost predicate Retires(db: Db, db': Db, userId: UserId) {
    && db'.members == db.members && db'.isLive.Keys == db.isLive.Keys
    && (forall w <- db.isLive :: db'.isLive[w] ==> db.isLive[w])
    && (forall u: UserId :: u != userId && IsUsable(db, u) ==> IsUsable(db', u))
  }

  lemma RetirementKeepsOtherOwners(db: Db, db': Db, userId: UserId, w: WorkspaceId, u: UserId)
    requires Retires(db, db', userId) && KeepsOwnerWithout(db, w, u)
    requires IsLiveWorkspace(db', w) ==> !IsActiveOwner(db, w, userId)
    ensures KeepsOwnerWithout(db', w, u)
  {
    if IsLiveWorkspace(db', w) {
      var seat :| seat in db.members && seat.workspaceId == w && seat.userId != u && IsServingOwner(db, w, seat.userId);
      assert IsServingOwner(db', w, seat.userId);
    }
  }

  /** A transaction that holds neither the account's row nor any workspace it owns is not disturbed. */
  lemma RetirementSpares(db: Db, db': Db, userId: UserId, owned: seq<WorkspaceId>, txn: Txn)
    requires Retires(db, db', userId) && Covers(db, owned, userId) && TxnSound(db, txn)
    requires !txn.Holds(Key(Users, userId)) && forall w <- owned :: !txn.Holds(Key(Workspaces, w))
    ensures TxnSound(db', txn)
  {
    var request := txn.request;
    match txn.phase
    case Checked =>
      assert txn.Holds(Key(Workspaces, request.workspaceId));
      assert request.LocksUser() ==> txn.Holds(Key(Users, request.userId));
      if KeepsOwnerWithout(db, request.workspaceId, request.userId) {
        RetirementKeepsOtherOwners(db, db', userId, request.workspaceId, request.userId);
      }
    case Grouped(held, sole) =>
      forall w <- held | w !in sole
        ensures KeepsOwnerWithout(db', w, request.userId)
      {
        assert txn.Holds(Key(Workspaces, w));
        RetirementKeepsOtherOwners(db, db', userId, w, request.userId);
      }
    case Locking(_, _) =>
    case _ =>
      assert request.LocksUser() && txn.phase != Begun ==> txn.Holds(Key(Users, request.userId));
  }

  /** Rows change only in ways that take no owner away and add none. */
  ghost predicate IsBenign(db: Db, db': Db) {
    && db'.members == db.members && db'.isLive.Keys == db.isLive.Keys
    && (forall w <- db.isLive :: db'.isLive[w] ==> db.isLive[w])
    && (forall u: UserId :: IsUsable(db, u) ==> IsUsable(db', u))
  }

  lemma BenignKeepsOwners(db: Db, db': Db)
    requires IsBenign(db, db') && EveryWorkspaceIsOwned(db)
    ensures EveryWorkspaceIsOwned(db')
  {
    forall w <- db'.isLive | db'.isLive[w]
      ensures exists u :: IsServingOwner(db', w, u)
    {
      var u :| IsServingOwner(db, w, u);
      assert IsServingOwner(db', w, u);
    }
  }

  lemma BenignSpares(db: Db, db': Db, txn: Txn)
    requires IsBenign(db, db') && TxnSound(db, txn)
    ensures TxnSound(db', txn)
  {
    forall w, u: UserId | KeepsOwnerWithout(db, w, u)
      ensures KeepsOwnerWithout(db', w, u)
    {
      if IsLiveWorkspace(db', w) {
        var seat :| seat in db.members && seat.workspaceId == w && seat.userId != u && IsServingOwner(db, w, seat.userId);
        assert IsServingOwner(db', w, seat.userId);
      }
    }
  }

  lemma BenignKeepsInv(s: State, s': State)
    requires Inv(s) && IsBenign(s.db, s'.db) && s'.txns == s.txns
    ensures Inv(s')
  {
    BenignKeepsOwners(s.db, s'.db);
    forall t <- s.txns
      ensures TxnSound(s'.db, s.txns[t])
    {
      BenignSpares(s.db, s'.db, s.txns[t]);
    }
  }

  // ---------------------------------------------------------------- what the commits write, column by column

  /** A membership transaction writes its own seat, and a transfer demotes the other ACTIVE owners. */
  lemma WrittenByColumns(db: Db, request: Request, seat: Seat)
    requires request.LocksWorkspace() && (request.Join? || Seat(request.workspaceId, request.userId) in db.members)
    ensures var own := Seat(request.workspaceId, request.userId);
      var db' := Written(db, request);
      && db'.accounts == db.accounts && db'.isLive == db.isLive && db'.members.Keys == db.members.Keys + {own}
      && (seat == own ==>
            var after := db'.members[seat];
            && (after.role == match request
                              case ChangeRole(_, _, role) => role
                              case Join(_, _, role) => role
                              case Transfer(_, _) => Owner
                              case _ => db.members[seat].role)
            && (request.Join? || request.Reactivate? ==> after.status == Active)
            && (request.Suspend? ==> after.status == Suspended)
            && (request.Remove? ==> after.status == Left)
            && (request.ChangeRole? ==> after.status == db.members[seat].status)
            && (request.Transfer? && db.members[seat].status == Active ==> after.status == Active))
      && (seat != own && seat in db.members ==>
            db'.members[seat] ==
              if request.Transfer? && seat.workspaceId == request.workspaceId && db.members[seat] == Member(Owner, Active)
              then Member(Admin, Active) else db.members[seat])
  {
  }

  /**
    Deletion marks the account and leaves it active, deactivation makes it inactive, and both only with no
    workspace left alone; erasure marks it and closes those workspaces. Nothing else changes.
   */
  lemma RetiredByColumns(db: Db, request: Request, sole: set<WorkspaceId>)
    requires request.IsAccountRequest() && request.userId in db.accounts
    ensures var db' := Retired(db, request, sole);
      var before, after := db.accounts[request.userId], db'.accounts[request.userId];
      && db'.members == db.members && db'.accounts.Keys == db.accounts.Keys && db'.isLive.Keys == db.isLive.Keys
      && (forall u <- db.accounts :: u != request.userId ==> db'.accounts[u] == db.accounts[u])
      && after.isDeleted == (before.isDeleted || request.Erase? || (request.Delete? && sole == {}))
      && after.isActive == (before.isActive && !(request.Deactivate? && sole == {}))
      && (forall w <- db.isLive :: db'.isLive[w] == (db.isLive[w] && !(request.Erase? && w in sole)))
  {
  }

  // ---------------------------------------------------------------- each commit

  function Newcomer(request: Request): Option<UserId> {
    if request.LocksUser() then Some(request.userId) else None
  }

  lemma WrittenWritesRoster(db: Db, request: Request)
    requires Confirmed(db, request) && SeatsSound(db)
    ensures WritesRoster(db, Written(db, request), request.workspaceId, Newcomer(request))
    ensures SeatsSound(Written(db, request))
  {
  }

  /** After a membership write its own workspace still has a serving owner. */
  lemma WrittenKeepsItsOwner(db: Db, request: Request)
    requires Confirmed(db, request) && EveryWorkspaceIsOwned(db) && IsLiveWorkspace(db, request.workspaceId)
    requires request.LocksUser() ==> IsUsable(db, request.userId)
    ensures exists u :: IsServingOwner(Written(db, request), request.workspaceId, u)
  {
    var db' := Written(db, request);
    var w, u := request.workspaceId, request.userId;
    if request.LocksUser() && IsActiveOwner(db', w, u) {
      assert IsServingOwner(db', w, u);
    } else if IsActiveOwner(db, w, u) {
      assert HasAnotherOwner(db, w, u);
      var seat :| seat in db.members && seat.workspaceId == w && seat.userId != u && IsServingOwner(db, w, seat.userId);
      assert IsServingOwner(db', w, seat.userId);
    } else {
      var v :| IsServingOwner(db, w, v);
      assert IsServingOwner(db', w, v);
    }
  }

  lemma WrittenKeepsOwners(db: Db, request: Request)
    requires Confirmed(db, request) && EveryWorkspaceIsOwned(db) && SeatsSound(db)
    requires request.LocksUser() ==> IsUsable(db, request.userId)
    ensures EveryWorkspaceIsOwned(Written(db, request))
  {
    var db' := Written(db, request);
    WrittenWritesRoster(db, request);
    forall w <- db'.isLive | db'.isLive[w]
      ensures exists u :: IsServingOwner(db', w, u)
    {
      if w == request.workspaceId {
        WrittenKeepsItsOwner(db, request);
      } else {
        var u :| IsServingOwner(db, w, u);
        assert Seat(w, u) in db'.members && IsServingOwner(db', w, u);
      }
    }
  }

  lemma CommitWriteKeepsInv(s: State, t: Name)
    requires Inv(s) && t in s.txns && s.txns[t].phase.Checked?
    ensures Inv(Finish(s, t, Written(s.db, s.txns[t].request)))
  {
    var request := s.txns[t].request;
    var s' := Finish(s, t, Written(s.db, request));
    assert TxnSound(s.db, s.txns[t]);
    WrittenWritesRoster(s.db, request);
    WrittenKeepsOwners(s.db, request);
    assert s.txns[t].Holds(Key(Workspaces, request.workspaceId));
    assert request.LocksUser() ==> s.txns[t].Holds(Key(Users, request.userId));
    forall u <- s'.txns
      ensures TxnSound(s'.db, s'.txns[u])
    {
      RosterWriteSpares(s.db, s'.db, request.workspaceId, Newcomer(request), s.txns[u]);
    }
  }

  /** A founding commit disturbs no transaction but one that holds the founder's row. */
  lemma FoundSpares(db: Db, workspaceId: WorkspaceId, userId: UserId, txn: Txn)
    requires SeatsSound(db) && TxnSound(db, txn) && !txn.Holds(Key(Users, userId)) && workspaceId !in db.isLive
    ensures TxnSound(Found(db, workspaceId, userId), txn)
  {
    var db' := Found(db, workspaceId, userId);
    forall w, u: UserId | w in db.isLive && KeepsOwnerWithout(db, w, u)
      ensures KeepsOwnerWithout(db', w, u)
    {
      if IsLiveWorkspace(db, w) {
        var seat :| seat in db.members && seat.workspaceId == w && seat.userId != u && IsServingOwner(db, w, seat.userId);
        assert seat in db'.members && IsServingOwner(db', w, seat.userId);
      }
    }
    if txn.phase.Locking? || txn.phase.Grouped? {
      assert txn.Holds(Key(Users, txn.request.userId));
    }
  }

  lemma CommitFoundingKeepsInv(s: State, t: Name)
    requires Inv(s) && t in s.txns && s.txns[t].phase.UserFound? && s.txns[t].request.Create?
    ensures Inv(Finish(s, t, Found(s.db, s.txns[t].request.workspaceId, s.txns[t].request.userId)))
  {
    var Create(w0, u0) := s.txns[t].request;
    var s' := Finish(s, t, Found(s.db, w0, u0));
    assert TxnSound(s.db, s.txns[t]);
    assert s.txns[t].Holds(Key(Users, u0));
    if w0 !in s.db.isLive {
      forall w <- s'.db.isLive | s'.db.isLive[w]
        ensures exists u :: IsServingOwner(s'.db, w, u)
      {
        if w == w0 {
          assert IsServingOwner(s'.db, w0, u0);
        } else {
          var u :| IsServingOwner(s.db, w, u);
          assert IsServingOwner(s'.db, w, u);
        }
      }
      forall u <- s'.txns
        ensures TxnSound(s'.db, s'.txns[u])
      {
        FoundSpares(s.db, w0, u0, s.txns[u]);
      }
    }
  }

  /** The one commit that takes an account out of service strands no live workspace. */
  lemma RetirementKeepsOwners(db: Db, txn: Txn)
    requires TxnSound(db, txn) && txn.phase.Grouped? && EveryWorkspaceIsOwned(db)
    ensures EveryWorkspaceIsOwned(Retired(db, txn.request, txn.phase.sole))
  {
    var userId := txn.request.userId;
    var db' := Retired(db, txn.request, txn.phase.sole);
    forall w <- db'.isLive | db'.isLive[w]
      ensures exists u :: IsServingOwner(db', w, u)
    {
      if db' != db && IsActiveOwner(db, w, userId) {
        assert IsLiveWorkspace(db, w) && w !in txn.phase.sole;
        assert HasAnotherOwner(db, w, userId);
        var seat :| seat in db.members && seat.workspaceId == w && seat.userId != userId
                    && IsServingOwner(db, w, seat.userId);
        assert IsServingOwner(db', w, seat.userId);
      } else {
        var u :| IsServingOwner(db, w, u);
        assert IsServingOwner(db', w, u);
      }
    }
  }

  lemma CommitRetirementKeepsInv(s: State, t: Name)
    requires Inv(s) && t in s.txns && s.txns[t].phase.Grouped?
    ensures Inv(Finish(s, t, Retired(s.db, s.txns[t].request, s.txns[t].phase.sole)))
  {
    var txn := s.txns[t];
    var s' := Finish(s, t, Retired(s.db, txn.request, txn.phase.sole));
    assert TxnSound(s.db, txn);
    RetirementKeepsOwners(s.db, txn);
    assert Retires(s.db, s'.db, txn.request.userId);
    assert txn.Holds(Key(Users, txn.request.userId)) && forall w <- txn.phase.owned :: txn.Holds(Key(Workspaces, w));
    forall u <- s'.txns
      ensures TxnSound(s'.db, s'.txns[u])
    {
      RetirementSpares(s.db, s'.db, txn.request.userId, txn.phase.owned, s.txns[u]);
    }
  }

  // ---------------------------------------------------------------- every step

  /**
    The plain update of `UsersService.update` lands on an account that cannot be used anyway, or owns
    nothing alone and nothing anybody has locked: what the locks it does not take would have ensured.
   */
  ghost predicate PatchIsHarmless(s: State, e: Event) {
    e.Advance? && e.t in s.txns && s.txns[e.t].phase.StaleWrite? && IsUsable(s.db, s.txns[e.t].request.userId) ==>
      var u := s.txns[e.t].request.userId;
      && OwnsNothingAlone(s.db, u)
      && forall w :: IsLiveWorkspace(s.db, w) && IsActiveOwner(s.db, w, u) ==> IsFree(s, Key(Workspaces, w))
  }

  /** Its one statement strands a live workspace exactly when the account is usable and owns one alone. */
  lemma StaleWriteIsExact(s: State, t: Name)
    requires Inv(s) && t in s.txns && s.txns[t].phase.StaleWrite? && IsReady(s, s.txns[t])
    requires s.txns[t].request.userId in s.db.accounts
    ensures var u := s.txns[t].request.userId;
      EveryWorkspaceIsOwned(Step(s, Advance(t)).db) <==> !IsUsable(s.db, u) || OwnsNothingAlone(s.db, u)
  {
    var u := s.txns[t].request.userId;
    var db' := Step(s, Advance(t)).db;
    assert db' == SetActive(s.db, u, false);
    if IsUsable(s.db, u) {
      assert IsRetirement(s.db, db', u);
      RefusalIsExact(s.db, db', u);
    } else {
      BenignKeepsOwners(s.db, db');
    }
  }

  lemma HarmlessPatchKeepsInv(s: State, t: Name)
    requires Inv(s) && t in s.txns && s.txns[t].phase.StaleWrite? && IsReady(s, s.txns[t]) && PatchIsHarmless(s, Advance(t))
    ensures Inv(Proceed(s, t))
  {
    var u := s.txns[t].request.userId;
    var s' := Proceed(s, t);
    if u !in s.db.accounts {
      assert s'.db == s.db;
    } else {
      StaleWriteIsExact(s, t);
      var owned := if IsUsable(s.db, u) then OwnedWorkspaces(s.db, u) else [];
      forall v <- s'.txns
        ensures TxnSound(s'.db, s'.txns[v])
      {
        if IsUsable(s.db, u) {
          RetirementSpares(s.db, s'.db, u, owned, s.txns[v]);
        } else {
          BenignSpares(s.db, s'.db, s.txns[v]);
        }
      }
    }
  }

  lemma ProceedKeepsTxnSound(s: State, t: Name)
    requires Inv(s) && t in s.txns && IsReady(s, s.txns[t]) && t in Proceed(s, t).txns
    ensures TxnSound(s.db, Proceed(s, t).txns[t])
  {
    assert TxnSound(s.db, s.txns[t]);
  }

  lemma ProceedKeepsInv(s: State, t: Name)
    requires Inv(s) && t in s.txns && IsReady(s, s.txns[t]) && PatchIsHarmless(s, Advance(t))
    ensures Inv(Proceed(s, t))
  {
    var s' := Proceed(s, t);
    var Txn(request, phase) := s.txns[t];
    assert TxnSound(s.db, s.txns[t]);
    match phase
    case Checked => CommitWriteKeepsInv(s, t);
    case Grouped(_, _) => CommitRetirementKeepsInv(s, t);
    case StaleWrite => HarmlessPatchKeepsInv(s, t);
    case _ =>
      if phase.UserFound? && request.Create? {
        CommitFoundingKeepsInv(s, t);
      } else {
        ProceedKeepsLocksSound(s, t);
        if t in s'.txns { ProceedKeepsTxnSound(s, t); }
      }
  }

  lemma StepKeepsInv(s: State, e: Event)
    requires Inv(s) && PatchIsHarmless(s, e)
    ensures Inv(Step(s, e))
  {
    match e
    case Advance(t) => if t in s.txns && IsReady(s, s.txns[t]) { ProceedKeepsInv(s, t); }
    case Begin(t, request) =>
    case Abort(t) =>
    case _ => BenignKeepsInv(s, Step(s, e));
  }

  ghost predicate EveryPatchIsHarmless(s: State, events: seq<Event>)
    decreases |events|
  {
    events != [] ==> PatchIsHarmless(s, events[0]) && EveryPatchIsHarmless(Step(s, events[0]), events[1..])
  }

  lemma {:induction false} RunKeepsInv(s: State, events: seq<Event>)
    requires Inv(s) && EveryPatchIsHarmless(s, events)
    ensures Inv(Run(s, events))
    decreases |events|
  {
    if events != [] {
      StepKeepsInv(s, events[0]);
      RunKeepsInv(Step(s, events[0]), events[1..]);
    }
  }

  /**
    In every interleaving, every live workspace keeps an active owner whose account is usable,
    provided every plain deactivation update is harmless when it lands.
   */
  lemma EveryLiveWorkspaceKeepsAnOwner(s: State, events: seq<Event>, workspaceId: WorkspaceId)
    requires Init(s) && EveryPatchIsHarmless(s, events)
    requires workspaceId in Run(s, events).db.isLive && Run(s, events).db.isLive[workspaceId]
    ensures var db := Run(s, events).db;
      exists userId :: && Seat(workspaceId, userId) in db.members
                       && db.members[Seat(workspaceId, userId)] == Member(Owner, Active)
                       && userId in db.accounts && db.accounts[userId].isActive && !db.accounts[userId].isDeleted
  {
    RunKeepsInv(s, events);
    var userId :| IsServingOwner(Run(s, events).db, workspaceId, userId);
  }

  /**
    The proviso is needed: whenever a plain deactivation update is pending on an account that is not
    deleted, there is a continuation after which a live workspace has no usable owner.
   */
  lemma AnyStaleWriteCanStrand(s: State, t: Name) returns (later: seq<Event>)
    requires Inv(s) && t in s.txns && s.txns[t].phase.StaleWrite?
    requires s.txns[t].request.userId in s.db.accounts && !s.db.accounts[s.txns[t].request.userId].isDeleted
    ensures !EveryWorkspaceIsOwned(Run(s, later).db)
  {
    var key := Key(Users, s.txns[t].request.userId);
    if IsFree(s, key) {
      later := UnlockedStaleWriteCanStrand(s, t);
    } else {
      var holder :| holder in s.txns && s.txns[holder].Holds(key);
      var s' := Step(s, Abort(holder));
      StepKeepsInv(s, Abort(holder));
      assert holder != t;
      var rest := UnlockedStaleWriteCanStrand(s', t);
      later := [Abort(holder)] + rest;
      assert later[1..] == rest;
    }
  }

  lemma UnlockedStaleWriteCanStrand(s: State, t: Name) returns (later: seq<Event>)
    requires Inv(s) && t in s.txns && s.txns[t].phase.StaleWrite?
    requires var u := s.txns[t].request.userId;
      u in s.db.accounts && !s.db.accounts[u].isDeleted && IsFree(s, Key(Users, u))
    ensures !EveryWorkspaceIsOwned(Run(s, later).db)
  {
    var u := s.txns[t].request.userId;
    var w := FreshNumber(s.db.isLive.Keys);
    var t' := FreshNumber(s.txns.Keys);
    var s1 := Step(s, Activate(u));
    var s2 := Step(s1, Begin(t', Create(w, u)));
    var s3 := Step(s2, Advance(t'));
    assert s3.txns == s2.txns[t' := Txn(Create(w, u), UserHeld)];
    var s4 := Step(s3, Advance(t'));
    assert s4.txns == s2.txns[t' := Txn(Create(w, u), UserFound)];
    var s5 := Step(s4, Advance(t'));
    assert s5.db == Found(s1.db, w, u) && s5.txns == s.txns;
    var s6 := Step(s5, Advance(t));
    assert s6.db == SetActive(s5.db, u, false);
    OnlyFounderOwns(s, s1.db, w, u);
    assert IsLiveWorkspace(s6.db, w) && forall v :: !IsServingOwner(s6.db, w, v);
    later := [Activate(u), Begin(t', Create(w, u)), Advance(t'), Advance(t'), Advance(t'), Advance(t)];
    assert Run(s, later) == s6 by {
      assert Run(s5, later[5..]) == Run(s6, []);
      assert Run(s4, later[4..]) == Run(s5, later[5..]) by { assert later[4..][1..] == later[5..]; }
      assert Run(s3, later[3..]) == Run(s4, later[4..]) by { assert later[3..][1..] == later[4..]; }
      assert Run(s2, later[2..]) == Run(s3, later[3..]) by { assert later[2..][1..] == later[3..]; }
      assert Run(s1, later[1..]) == Run(s2, later[2..]) by { assert later[1..][1..] == later[2..]; }
    }
  }

  lemma OnlyFounderOwns(s: State, db: Db, workspaceId: WorkspaceId, userId: UserId)
    requires Inv(s) && db.members == s.db.members && db.isLive == s.db.isLive && workspaceId !in db.isLive
    ensures forall v :: IsActiveOwner(Found(db, workspaceId, userId), workspaceId, v) <==> v == userId
  {
  }

  /**
    Why the proviso also speaks of locks: a suspension past its owner count, which counted on the account
    the plain update takes, strands the workspace although the update itself strands nothing.
   */
  lemma StaleWriteUnderALockCanStrand(s: State, t: Name, suspension: Name, w: WorkspaceId, other: UserId)
    requires Inv(s) && t in s.txns && s.txns[t].phase.StaleWrite? && IsReady(s, s.txns[t])
    requires suspension in s.txns && s.txns[suspension] == Txn(Suspend(w, other), Checked)
    requires var u := s.txns[t].request.userId;
      && IsUsable(s.db, u) && u != other && IsLiveWorkspace(s.db, w)
      && forall v :: IsServingOwner(s.db, w, v) ==> v == u || v == other
    ensures !EveryWorkspaceIsOwned(Run(s, [Advance(t), Advance(suspension)]).db)
  {
    var u := s.txns[t].request.userId;
    var s1 := Step(s, Advance(t));
    assert TxnSound(s.db, s.txns[suspension]);
    assert s1.db == SetActive(s.db, u, false) && s1.txns[suspension] == s.txns[suspension];
    var s2 := Step(s1, Advance(suspension));
    assert s2.db == Written(s1.db, Suspend(w, other));
    forall v
      ensures !IsServingOwner(s2.db, w, v)
    {
      if IsServingOwner(s2.db, w, v) { assert IsServingOwner(s.db, w, v); }
    }
    assert [Advance(t), Advance(suspension)][1..] == [Advance(suspension)];
    assert Run(s1, [Advance(suspension)]) == Run(s2, []);
  }

  /** Such a pending update is reachable: a patch reads the account while it is inactive. */
  lemma StaleWritesHappen(db: Db, userId: UserId)
    requires SeatsSound(db) && EveryWorkspaceIsOwned(db)
    requires userId in db.accounts && !db.accounts[userId].isActive && !db.accounts[userId].isDeleted
    ensures var s := Run(State(db, map[]), [Begin(0, Patch(userId)), Advance(0)]);
      s == State(db, map[0 := Txn(Patch(userId), StaleWrite)]) && Inv(s) && IsFree(s, Key(Users, userId))
  {
    var s1 := Step(State(db, map[]), Begin(0, Patch(userId)));
    var s2 := Step(s1, Advance(0));
    assert s2 == State(db, map[0 := Txn(Patch(userId), StaleWrite)]);
    assert [Begin(0, Patch(userId)), Advance(0)][1..] == [Advance(0)];
    assert Run(s1, [Advance(0)]) == Run(s2, []);
  }
}
