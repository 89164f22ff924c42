/**
  Workspace ownership under row locks.

  The transactions of the memberships, invitations, workspaces and users services that can give
  or take an owner, each one statement at a time: every lock, every read and the final write with
  its commit are separate steps, and every read sees the latest committed rows (READ COMMITTED).
  A transaction's writes all come after its last lock and are visible to others only at commit,
  so they are one step. The locks a transaction holds are a function of where it stands.
 */
module Ownership {
  import opened Prelude
  import opened RowLocks

  type UserId = Id
  type WorkspaceId = Id

  datatype Role = Owner | Admin | Manager | Staff
  datatype Status = Active | Suspended | Left
  datatype Account = Account(isActive: bool, isDeleted: bool)
  datatype Member = Member(role: Role, status: Status)
  datatype Seat = Seat(workspaceId: WorkspaceId, userId: UserId)

  /** `isLive` has every workspace row; a soft-deleted one is mapped to false. */
  datatype Db = Db(accounts: map<UserId, Account>, isLive: map<WorkspaceId, bool>, members: map<Seat, Member>)

  predicate IsUsable(db: Db, userId: UserId) {
    userId in db.accounts && db.accounts[userId].isActive && !db.accounts[userId].isDeleted
  }

  predicate IsLiveWorkspace(db: Db, workspaceId: WorkspaceId) {
    workspaceId in db.isLive && db.isLive[workspaceId]
  }

  /** `ACTIVE_OWNER`. */
  predicate IsActiveOwner(db: Db, workspaceId: WorkspaceId, userId: UserId) {
    Seat(workspaceId, userId) in db.members && db.members[Seat(workspaceId, userId)] == Member(Owner, Active)
  }

  /** `ACTIVE_OWNER_OF_USABLE_ACCOUNT`. */
  predicate IsServingOwner(db: Db, workspaceId: WorkspaceId, userId: UserId) {
    IsActiveOwner(db, workspaceId, userId) && IsUsable(db, userId)
  }

  /** The count of `assertAnotherActiveOwnerExists`, or a group of the co-owner query, is not zero. */
  predicate HasAnotherOwner(db: Db, workspaceId: WorkspaceId, userId: UserId) {
    exists seat <- db.members :: seat.workspaceId == workspaceId && seat.userId != userId
                                 && IsServingOwner(db, workspaceId, seat.userId)
  }

  ghost predicate EveryWorkspaceIsOwned(db: Db) {
    forall workspaceId <- db.isLive :: db.isLive[workspaceId] ==>
      exists userId :: IsServingOwner(db, workspaceId, userId)
  }

  datatype Request =
    | ChangeRole(workspaceId: WorkspaceId, userId: UserId, role: Role)
    | Join(workspaceId: WorkspaceId, userId: UserId, role: Role)
    | Reactivate(workspaceId: WorkspaceId, userId: UserId)
    | Suspend(workspaceId: WorkspaceId, userId: UserId)
    | Remove(workspaceId: WorkspaceId, userId: UserId)
    | Transfer(workspaceId: WorkspaceId, userId: UserId)
    | Create(workspaceId: WorkspaceId, userId: UserId)
    | Delete(userId: UserId)
    | Deactivate(userId: UserId)
    | Erase(userId: UserId)
    | Patch(userId: UserId)
  {
    /** Ends in an ACTIVE membership, or takes an account out of service. */
    predicate LocksUser() {
      !Suspend? && !Remove? && !Patch?
    }

    predicate IsAccountRequest() {
      Delete? || Deactivate? || Erase?
    }

    predicate LocksWorkspace() {
      ChangeRole? || Join? || Reactivate? || Suspend? || Remove? || Transfer?
    }
  }

  /**
    `Begun`, then with the user row locked (`UserHeld`), then with that row re-read and usable
    (`UserFound`), then with the workspace row locked too (`WorkspaceHeld`), then with the
    membership re-read and the owner count made (`Checked`). An account request instead lists the
    workspaces it owns and locks them one by one (`Locking`), then reads which have no other owner
    (`Grouped`). `StaleWrite` is the plain update that `UsersService.update` makes when the row it
    read at the start was not active.
   */
  datatype Phase =
    | Begun
    | UserHeld
    | UserFound
    | WorkspaceHeld
    | Checked
    | Locking(owned: seq<WorkspaceId>, next: nat)
    | Grouped(owned: seq<WorkspaceId>, sole: set<WorkspaceId>)
    | StaleWrite

  datatype Txn = Txn(request: Request, phase: Phase)
  {
    predicate HoldsUser() {
      request.LocksUser() && phase != Begun
    }

    predicate HoldsWorkspace(workspaceId: WorkspaceId) {
      match phase
      case WorkspaceHeld => request.LocksWorkspace() && request.workspaceId == workspaceId
      case Checked => request.LocksWorkspace() && request.workspaceId == workspaceId
      case Locking(owned, next) => next <= |owned| && workspaceId in owned[..next]
      case Grouped(owned, _) => workspaceId in owned
      case _ => false
    }

    predicate Holds(key: Key) {
      || (key.table.Users? && HoldsUser() && key.id == request.userId)
      || (key.table.Workspaces? && HoldsWorkspace(key.id))
    }

    /** The lock the next step needs. */
    function Wants(): Option<Key> {
      match phase
      case Begun =>
        if request.LocksUser() then Some(Key(Users, request.userId))
        else if request.Patch? then None
        else Some(Key(Workspaces, request.workspaceId))
      case UserFound => if request.LocksWorkspace() then Some(Key(Workspaces, request.workspaceId)) else None
      case Locking(owned, next) => if next < |owned| then Some(Key(Workspaces, owned[next])) else None
      case StaleWrite => Some(Key(Users, request.userId))
      case _ => None
    }
  }

  type Name = RowLocks.Name

  datatype State = State(db: Db, txns: map<Name, Txn>)

  predicate IsFree(s: State, key: Key) {
    forall t <- s.txns :: !s.txns[t].Holds(key)
  }

  predicate IsReady(s: State, txn: Txn) {
    txn.Wants().None? || IsFree(s, txn.Wants().value)
  }

  datatype Event =
    | Begin(t: Name, request: Request)
    | Advance(t: Name)
    | Abort(t: Name)
    | CloseWorkspace(workspaceId: WorkspaceId)
    | Activate(userId: UserId)
    | Register(userId: UserId)

  ghost function Step(s: State, e: Event): State {
    match e
    case Begin(t, request) => if t in s.txns then s else s.(txns := s.txns[t := Txn(request, Begun)])
    case Advance(t) => if t in s.txns && IsReady(s, s.txns[t]) then Proceed(s, t) else s
    case Abort(t) => s.(txns := s.txns - {t})
    case CloseWorkspace(workspaceId) =>
      if workspaceId in s.db.isLive && IsFree(s, Key(Workspaces, workspaceId))
      then s.(db := s.db.(isLive := s.db.isLive[workspaceId := false])) else s
    case Activate(userId) =>
      if userId in s.db.accounts && IsFree(s, Key(Users, userId))
      then s.(db := SetActive(s.db, userId, true)) else s
    case Register(userId) =>
      if userId in s.db.accounts then s
      else s.(db := s.db.(accounts := s.db.accounts[userId := Account(true, false)]))
  }

  function SetActive(db: Db, userId: UserId, isActive: bool): Db
    requires userId in db.accounts
  {
    db.(accounts := db.accounts[userId := db.accounts[userId].(isActive := isActive)])
  }

  function Enter(s: State, t: Name, phase: Phase): State
    requires t in s.txns
  {
    s.(txns := s.txns[t := s.txns[t].(phase := phase)])
  }

  /** Commit, or roll back: either way the locks go. */
  function Finish(s: State, t: Name, db: Db): State {
    State(db, s.txns - {t})
  }

  ghost function Proceed(s: State, t: Name): State
    requires t in s.txns
  {
    var Txn(request, phase) := s.txns[t];
    match phase
    case Begun =>
      if request.Patch? then ReadForPatch(s, t)
      else Enter(s, t, if request.LocksUser() then UserHeld else WorkspaceHeld)
    case UserHeld =>
      if request.IsAccountRequest() then Enter(s, t, Locking(OwnedWorkspaces(s.db, request.userId), 0))
      else if IsUsable(s.db, request.userId) then Enter(s, t, UserFound)
      else Finish(s, t, s.db)
    case UserFound =>
      if request.LocksWorkspace() then Enter(s, t, WorkspaceHeld)
      else if request.Create? then Finish(s, t, Found(s.db, request.workspaceId, request.userId))
      else s
    case WorkspaceHeld =>
      if MayWrite(s.db, request) then Enter(s, t, Checked) else Finish(s, t, s.db)
    case Checked => Finish(s, t, Written(s.db, request))
    case Locking(owned, next) =>
      if next < |owned| then Enter(s, t, Locking(owned, next + 1))
      else Enter(s, t, Grouped(owned, set w | w in owned && !HasAnotherOwner(s.db, w, request.userId)))
    case Grouped(owned, sole) => Finish(s, t, Retired(s.db, request, sole))
    case StaleWrite =>
      Finish(s, t, if request.userId in s.db.accounts then SetActive(s.db, request.userId, false) else s.db)
  }

  /** `UsersService.update` with `isActive: false` branches on a row it read without a lock. */
  function ReadForPatch(s: State, t: Name): State
    requires t in s.txns
  {
    var userId := s.txns[t].request.userId;
    if userId !in s.db.accounts || s.db.accounts[userId].isDeleted then Finish(s, t, s.db)
    else if s.db.accounts[userId].isActive then s.(txns := s.txns[t := Txn(Deactivate(userId), Begun)])
    else Enter(s, t, StaleWrite)
  }

  /** The live workspaces the account actively owns, in ascending order. */
  ghost function OwnedWorkspaces(db: Db, userId: UserId): (owned: seq<WorkspaceId>)
    ensures Ascending(owned)
    ensures forall w :: w in owned <==> IsLiveWorkspace(db, w) && IsActiveOwner(db, w, userId)
  {
    var ids := set seat <- db.members | seat.userId == userId && IsLiveWorkspace(db, seat.workspaceId)
                                        && IsActiveOwner(db, seat.workspaceId, userId) :: seat.workspaceId;
    var owned := SortedSet(ids);
    assert forall w :: w in owned <==> w in Elements(owned);
    assert forall w :: IsActiveOwner(db, w, userId) ==> Seat(w, userId) in db.members;
    owned
  }

  ghost function SortedSet(ids: set<Id>): (sorted: seq<Id>)
    ensures Ascending(sorted) && Elements(sorted) == ids
  {
    if ids == {} then [] else
      var id :| id in ids;
      var rest := SortedSet(ids - {id});
      InsertIsSound(id, rest);
      Insert(id, rest)
  }

  /** What each membership transaction requires of the row it re-reads under the workspace lock. */
  predicate MayWrite(db: Db, request: Request) {
    request.LocksWorkspace()
    && var seat := Seat(request.workspaceId, request.userId);
       match request
       case ChangeRole(w, u, role) =>
         seat in db.members && (db.members[seat].role.Owner? && !role.Owner? ==> HasAnotherOwner(db, w, u))
       case Join(w, u, role) => w in db.isLive && (seat in db.members ==> db.members[seat].status.Left?)
       case Reactivate(w, u) => seat in db.members && db.members[seat].status.Suspended?
       case Suspend(w, u) =>
         seat in db.members && db.members[seat].status.Active?
         && (db.members[seat].role.Owner? ==> HasAnotherOwner(db, w, u))
       case Remove(w, u) =>
         seat in db.members && !db.members[seat].status.Left?
         && (db.members[seat] == Member(Owner, Active) ==> HasAnotherOwner(db, w, u))
       case Transfer(w, u) =>
         seat in db.members && db.members[seat].status.Active? && IsLiveWorkspace(db, w)
         && u in db.accounts && !db.accounts[u].isDeleted
  }

  function Written(db: Db, request: Request): Db {
    if !request.LocksWorkspace() then db else
      var seat := Seat(request.workspaceId, request.userId);
      if request.Join? then db.(members := db.members[seat := Member(request.role, Active)])
      else if seat !in db.members then db
      else
        var member := db.members[seat];
        match request
        case ChangeRole(_, _, role) => db.(members := db.members[seat := member.(role := role)])
        case Reactivate(_, _) => db.(members := db.members[seat := member.(status := Active)])
        case Suspend(_, _) => db.(members := db.members[seat := member.(status := Suspended)])
        case Remove(_, _) => db.(members := db.members[seat := member.(status := Left)])
        case Transfer(w, u) =>
          var demoted := map other | other in db.members ::
            if other.workspaceId == w && db.members[other] == Member(Owner, Active)
            then Member(Admin, Active) else db.members[other];
          db.(members := demoted[seat := member.(role := Owner)])
  }

  /** The founding transaction of `WorkspacesService.create`; the new id is a fresh one. */
  function Found(db: Db, workspaceId: WorkspaceId, userId: UserId): Db {
    if workspaceId in db.isLive then db
    else db.(isLive := db.isLive[workspaceId := true],
             members := db.members[Seat(workspaceId, userId) := Member(Owner, Active)])
  }

  /** Deletion and deactivation refuse a sole owner; erasure closes the workspaces instead. */
  function Retired(db: Db, request: Request, sole: set<WorkspaceId>): Db {
    if request.userId !in db.accounts then db else
      var account := db.accounts[request.userId];
      if request.Erase? then
        db.(accounts := db.accounts[request.userId := account.(isDeleted := true)],
            isLive := map w | w in db.isLive :: db.isLive[w] && w !in sole)
      else if sole != {} then db
      else if request.Delete? then
        db.(accounts := db.accounts[request.userId := account.(isDeleted := true)])
      else if request.Deactivate? then
        db.(accounts := db.accounts[request.userId := account.(isActive := false)])
      else db
  }

  ghost function Run(s: State, events: seq<Event>): State
    decreases |events|
  {
    if events == [] then s else Run(Step(s, events[0]), events[1..])
  }
}
