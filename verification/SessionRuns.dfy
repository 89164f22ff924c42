/**
  Every interleaving of sign-ins, rotations, revocations, account changes and retention sweeps.

  `startSession` is three steps (read the cutoff, wait it out, commit) and `rotate` is two (an
  unlocked snapshot, then a commit under the user and family locks) with the revocation that
  follows a replay or an ineligible owner as a third. Everything else is one step. A run is a
  sequence of events; an event that cannot happen in a state leaves it unchanged.
 */
module SessionRuns {
  import opened Prelude
  import opened SessionCutoff
  import opened RefreshTokens

  type Process = nat

  datatype SignIn =
    | CutoffRead(userId: UserId, expected: Option<nat>)
    | CutoffPassed(userId: UserId, expected: Option<nat>)
    | SignedIn(userId: UserId, session: Token)
    | TurnedAway(userId: UserId)

  /** One caller's exchange of `token`, from its snapshot to its answer. */
  datatype Presentation =
    | Checked(token: Token, snapshot: Row)
    | OwesFamilyRevocation(token: Token, familyId: FamilyId)
    | OwesAccountRevocation(token: Token, userId: UserId)
    | Granted(token: Token, child: Token)
    | Refused(token: Token)

  datatype AccessToken = AccessToken(userId: UserId, decidedAt: nat)

  /**
    `spent` holds every digest ever issued or presented, `owners` every family id ever used with
    the account it was opened for, and `issued` every access token ever signed: histories the
    code does not store, kept so that the properties can speak of the past.
   */
  datatype State = State(
    now: nat,
    store: Store,
    signIns: map<Process, SignIn>,
    presentations: map<Process, Presentation>,
    spent: set<Token>,
    owners: map<FamilyId, UserId>,
    issued: set<AccessToken>)

  datatype Event =
    | Tick(elapsed: nat)
    | CreateUser(userId: UserId)
    | ChangeAccount(userId: UserId, data: UserData)
    | EndAll(userId: UserId, data: UserData)
    | Revoke(familyId: FamilyId)
    | Purge
    | ReadCutoff(process: Process, userId: UserId)
    | AwaitCutoff(process: Process)
    | IssueSession(process: Process, token: Token, familyId: FamilyId)
    | Present(process: Process, token: Token)
    | CommitRotation(process: Process, child: Token)
    | SettleRefusal(process: Process)

  function Step(s: State, e: Event): State {
    match e
    case Tick(elapsed) => s.(now := s.now + elapsed)
    case CreateUser(userId) =>
      if userId in s.store.users then s
      else s.(store := s.store.(users := s.store.users[userId := User(true, false, Some(s.now))]))
    case ChangeAccount(userId, data) =>
      if userId !in s.store.users then s
      else s.(store := s.store.(users := s.store.users[userId := Applied(s.store.users[userId], data)]))
    case EndAll(userId, data) =>
      if userId !in s.store.users then s else s.(store := EndAllSessions(s.store, s.now, userId, data))
    case Revoke(familyId) => s.(store := RevokeFamily(s.store, s.now, familyId))
    case Purge => s.(store := PurgeExpired(s.store, s.now))
    case ReadCutoff(process, userId) =>
      if process in s.signIns || userId !in s.store.users then s
      else s.(signIns := s.signIns[process := CutoffRead(userId, s.store.users[userId].cutoff)])
    case AwaitCutoff(process) => StepAwait(s, process)
    case IssueSession(process, token, familyId) => StepIssue(s, process, token, familyId)
    case Present(process, token) => StepPresent(s, process, token)
    case CommitRotation(process, child) => StepCommit(s, process, child)
    case SettleRefusal(process) => StepSettle(s, process)
  }

  /** The sleep of `waitForSessionCutoff` is over: the clock has reached the cutoff that was read. */
  function StepAwait(s: State, process: Process): State {
    if process !in s.signIns || !s.signIns[process].CutoffRead? then s
    else
      var signIn := s.signIns[process];
      if RemainingWait(signIn.expected, s.now) > 0 then s
      else s.(signIns := s.signIns[process := CutoffPassed(signIn.userId, signIn.expected)])
  }

  function StepIssue(s: State, process: Process, token: Token, familyId: FamilyId): State {
    if process !in s.signIns || !s.signIns[process].CutoffPassed? || token in s.spent || familyId in s.owners then s
    else
      var signIn := s.signIns[process];
      if !MayIssue(s.store, signIn.userId, signIn.expected) then
        s.(signIns := s.signIns[process := TurnedAway(signIn.userId)])
      else
        s.(
          store := Persist(s.store, s.now, signIn.userId, familyId, token),
          signIns := s.signIns[process := SignedIn(signIn.userId, token)],
          spent := s.spent + {token},
          owners := s.owners[familyId := signIn.userId],
          issued := s.issued + {AccessToken(signIn.userId, s.now)})
  }

  /** `rotate` up to its transaction: the snapshot and the checks made on it. */
  function StepPresent(s: State, process: Process, token: Token): State {
    if process in s.presentations then s
    else
      var presentation :=
        if token !in s.store.rows then Refused(token)
        else
          var row := s.store.rows[token];
          if row.consumedAt.Some? then OwesFamilyRevocation(token, row.familyId)
          else if row.revokedAt.Some? || row.expiresAt <= s.now then Refused(token)
          else Checked(token, row);
      s.(presentations := s.presentations[process := presentation], spent := s.spent + {token})
  }

  /** The transaction of `rotate`. */
  function StepCommit(s: State, process: Process, child: Token): State {
    if process !in s.presentations || !s.presentations[process].Checked? || child in s.spent then s
    else
      var Checked(token, snapshot) := s.presentations[process];
      match Judge(s.store, s.now, token, snapshot)
      case OwnerIneligible =>
        s.(presentations := s.presentations[process := OwesAccountRevocation(token, snapshot.userId)])
      case PredatesCutoff =>
        s.(presentations := s.presentations[process := Refused(token)])
      case Replay =>
        s.(presentations := s.presentations[process := OwesFamilyRevocation(token, snapshot.familyId)])
      case Rotated =>
        s.(
          store := Rotate(s.store, s.now, token, snapshot, child),
          presentations := s.presentations[process := Granted(token, child)],
          spent := s.spent + {child},
          issued := s.issued + {AccessToken(snapshot.userId, s.now)})
  }

  /** What `rotate` does after its transaction rolled back: revoke, then refuse. */
  function StepSettle(s: State, process: Process): State {
    if process !in s.presentations then s
    else
      match s.presentations[process]
      case OwesFamilyRevocation(token, familyId) =>
        s.(store := RevokeFamily(s.store, s.now, familyId),
           presentations := s.presentations[process := Refused(token)])
      case OwesAccountRevocation(token, userId) =>
        if userId !in s.store.users then s
        else s.(store := EndAllSessions(s.store, s.now, userId, UserData(None, None)),
                presentations := s.presentations[process := Refused(token)])
      case _ => s
  }

  function Run(s: State, events: seq<Event>): State
    decreases |events|
  {
    if events == [] then s else Run(Step(s, events[0]), events[1..])
  }

  // ---------------------------------------------------------------- the invariant

  /** Each row belongs to the account its family was opened for, and no row is from the future. */
  ghost predicate RowsSound(s: State) {
    forall token <- s.store.rows ::
      var row := s.store.rows[token];
      token in s.spent && row.familyId in s.owners && s.owners[row.familyId] == row.userId
      && row.userId in s.store.users && row.createdAt <= s.now
  }

  ghost predicate OneUnconsumedPerFamily(s: State) {
    forall t1 <- s.store.rows, t2 <- s.store.rows ::
      && s.store.rows[t1].familyId == s.store.rows[t2].familyId
      && s.store.rows[t1].consumedAt.None? && s.store.rows[t2].consumedAt.None?
      ==> t1 == t2
  }

  ghost predicate CutoffsSound(s: State) {
    forall userId <- s.store.users ::
      s.store.users[userId].cutoff.Some? ==> s.store.users[userId].cutoff.value <= NextWholeSecond(s.now)
  }

  /** A row older than its owner's cutoff lies in a dead family. */
  ghost predicate OldRowsAreDead(s: State)
    requires RowsSound(s)
  {
    forall token <- s.store.rows ::
      Predates(s.store, s.store.rows[token].userId, s.store.rows[token].createdAt)
      ==> IsDead(s.store, s.store.rows[token].familyId)
  }

  ghost predicate PresentationSound(s: State, p: Presentation) {
    p.token in s.spent
    && match p
       case Checked(token, snapshot) =>
         token in s.store.rows ==> s.store.rows[token].SameIdentity(snapshot)
       case OwesFamilyRevocation(token, familyId) =>
         token in s.store.rows ==> s.store.rows[token].familyId == familyId
       case OwesAccountRevocation(token, userId) =>
         token in s.store.rows ==> s.store.rows[token].userId == userId
       case Granted(token, child) =>
         && child in s.spent
         && (token in s.store.rows ==> s.store.rows[token].consumedAt.Some?)
         && (token in s.store.rows && child in s.store.rows ==>
               s.store.rows[token].familyId == s.store.rows[child].familyId)
       case Refused(token) =>
         token in s.store.rows ==>
           var row := s.store.rows[token];
           IsDead(s.store, row.familyId)
           || (row.consumedAt.None? && (row.revokedAt.Some? || row.expiresAt <= s.now))
  }

  ghost predicate PresentationsSound(s: State) {
    && (forall p <- s.presentations :: PresentationSound(s, s.presentations[p]))
    && (forall p <- s.presentations, q <- s.presentations ::
          && s.presentations[p].Granted? && s.presentations[q].Granted?
          && s.presentations[p].token == s.presentations[q].token
          ==> p == q)
  }

  /** The order of cutoffs: no cutoff at all comes first. */
  predicate NotAfter(a: Option<nat>, b: Option<nat>) {
    a.None? || (b.Some? && a.value <= b.value)
  }

  ghost predicate SignInsSound(s: State) {
    forall p <- s.signIns ::
      var signIn := s.signIns[p];
      && (signIn.CutoffRead? || signIn.CutoffPassed? ==>
            signIn.userId in s.store.users && NotAfter(signIn.expected, s.store.users[signIn.userId].cutoff))
      && (signIn.CutoffPassed? ==> signIn.expected.None? || signIn.expected.value <= s.now)
  }

  ghost predicate IssuedSound(s: State) {
    forall token <- s.issued :: token.userId in s.store.users && token.decidedAt <= s.now
  }

  ghost predicate Inv(s: State) {
    && RowsSound(s)
    && OneUnconsumedPerFamily(s)
    && CutoffsSound(s)
    && OldRowsAreDead(s)
    && PresentationsSound(s)
    && SignInsSound(s)
    && IssuedSound(s)
  }

  /** Any accounts, none with a cutoff in the future, and no session yet. */
  ghost predicate Init(s: State) {
    && s.store.rows == map[] && s.signIns == map[] && s.presentations == map[]
    && s.owners == map[] && s.issued == {}
    && forall userId <- s.store.users ::
         s.store.users[userId].cutoff.Some? ==> s.store.users[userId].cutoff.value <= s.now
  }

  lemma InitInv(s: State)
    requires Init(s)
    ensures Inv(s)
  {
  }

  // ---------------------------------------------------------------- every step keeps it

  /** Rows are only revoked or removed, and a cutoff moves only where every row of its account is revoked. */
  ghost predicate Withdraws(s: State, s': State) {
    && s' == s.(store := s'.store) && s'.store.lifetime == s.store.lifetime
    && s'.store.users.Keys == s.store.users.Keys && s'.store.rows.Keys <= s.store.rows.Keys
    && (forall token <- s'.store.rows ::
          var row, row' := s.store.rows[token], s'.store.rows[token];
          row'.SameIdentity(row) && row'.consumedAt == row.consumedAt
          && (row.revokedAt.Some? ==> row'.revokedAt.Some?))
    && (forall userId <- s.store.users ::
          var cutoff, cutoff' := s.store.users[userId].cutoff, s'.store.users[userId].cutoff;
          && NotAfter(cutoff, cutoff')
          && (cutoff' != cutoff ==>
                && cutoff'.value <= NextWholeSecond(s.now)
                && forall token <- s'.store.rows ::
                     s'.store.rows[token].userId == userId ==> s'.store.rows[token].revokedAt.Some?))
  }

  lemma WithdrawalKeepsInv(s: State, s': State)
    requires Inv(s) && Withdraws(s, s')
    ensures Inv(s')
  {
    assert RowsSound(s') && OneUnconsumedPerFamily(s') && CutoffsSound(s');
    forall token <- s'.store.rows
      ensures IsDead(s.store, s.store.rows[token].familyId) ==> IsDead(s'.store, s'.store.rows[token].familyId)
      ensures Predates(s'.store, s'.store.rows[token].userId, s'.store.rows[token].createdAt)
          ==> IsDead(s'.store, s'.store.rows[token].familyId)
    {
      var row := s'.store.rows[token];
      if s'.store.users[row.userId].cutoff == s.store.users[row.userId].cutoff {
        assert Predates(s.store, row.userId, row.createdAt) == Predates(s'.store, row.userId, row.createdAt);
      } else {
        forall other <- s'.store.rows | s'.store.rows[other].familyId == row.familyId
          ensures s'.store.rows[other].revokedAt.Some?
        {
          assert s'.store.rows[other].userId == row.userId;
        }
      }
    }
    forall p <- s'.presentations
      ensures PresentationSound(s', s'.presentations[p])
    {
      assert PresentationSound(s, s.presentations[p]);
    }
  }

  /** The state once an account's sessions are ended. */
  function AfterEndAll(s: State, userId: UserId, data: UserData): State
    requires userId in s.store.users
  {
    s.(store := EndAllSessions(s.store, s.now, userId, data))
  }

  lemma EndAllWithdraws(s: State, userId: UserId, data: UserData)
    requires CutoffsSound(s) && userId in s.store.users
    ensures Withdraws(s, AfterEndAll(s, userId, data))
  {
  }

  lemma EndAllKeepsInv(s: State, userId: UserId, data: UserData)
    requires Inv(s) && userId in s.store.users
    ensures Inv(AfterEndAll(s, userId, data))
  {
    EndAllWithdraws(s, userId, data);
    WithdrawalKeepsInv(s, AfterEndAll(s, userId, data));
  }

  /** Every family opened for an account whose sessions were ended is dead. */
  lemma EndAllKillsAccount(s: State, userId: UserId, data: UserData)
    requires RowsSound(s) && userId in s.store.users
    ensures forall familyId <- s.owners :: s.owners[familyId] == userId ==>
      IsDead(AfterEndAll(s, userId, data).store, familyId)
  {
  }

  /** A refusal recorded once its family, if the row still stands, is dead. */
  lemma RefusalKeepsInv(s: State, process: Process)
    requires Inv(s) && process in s.presentations
    requires var token := s.presentations[process].token;
      token in s.store.rows ==> IsDead(s.store, s.store.rows[token].familyId)
    ensures Inv(s.(presentations := s.presentations[process := Refused(s.presentations[process].token)]))
  {
    var token := s.presentations[process].token;
    var s' := s.(presentations := s.presentations[process := Refused(token)]);
    assert PresentationSound(s, s.presentations[process]);
    forall p <- s'.presentations
      ensures PresentationSound(s', s'.presentations[p])
    {
      if p != process { assert PresentationSound(s, s.presentations[p]); }
    }
  }

  lemma SettleFamilyKeepsInv(s: State, process: Process)
    requires Inv(s) && process in s.presentations && s.presentations[process].OwesFamilyRevocation?
    ensures Inv(StepSettle(s, process))
  {
    var p := s.presentations[process];
    var s' := Step(s, Revoke(p.familyId));
    WithdrawalKeepsInv(s, s');
    assert PresentationSound(s, p);
    RefusalKeepsInv(s', process);
  }

  lemma SettleAccountKeepsInv(s: State, process: Process)
    requires Inv(s) && process in s.presentations && s.presentations[process].OwesAccountRevocation?
    ensures Inv(StepSettle(s, process))
  {
    var p := s.presentations[process];
    if p.userId in s.store.users {
      EndAllKeepsInv(s, p.userId, UserData(None, None));
      EndAllKillsAccount(s, p.userId, UserData(None, None));
      assert PresentationSound(s, p);
      RefusalKeepsInv(AfterEndAll(s, p.userId, UserData(None, None)), process);
    }
  }

  lemma IssueKeepsInv(s: State, process: Process, token: Token, familyId: FamilyId)
    requires Inv(s)
    ensures Inv(StepIssue(s, process, token, familyId))
  {
    var s' := StepIssue(s, process, token, familyId);
    if s' != s && s'.signIns[process].SignedIn? {
      FreshRowKeepsInv(s, s', token, familyId);
    }
  }

  /**
    A row added under a digest nobody has presented, decided now and not before its owner's
    cutoff, in a family that no dead row shares.
   */
  ghost predicate AddsRow(s: State, s': State, token: Token, familyId: FamilyId) {
    && token !in s.spent && token in s'.store.rows
    && s'.spent == s.spent + {token} && s'.now == s.now && s'.store.users == s.store.users
    && s'.store.rows.Keys == s.store.rows.Keys + {token}
    && var row := s'.store.rows[token];
       && row.familyId == familyId && row.createdAt == s.now
       && row.userId in s.store.users && !Predates(s.store, row.userId, s.now)
       && s'.owners == s.owners[familyId := row.userId]
       && (familyId in s.owners ==> s.owners[familyId] == row.userId && !IsDead(s.store, familyId))
       && s'.issued == s.issued + {AccessToken(row.userId, s.now)}
  }

  lemma AddedRowKeepsInv(s: State, s': State, token: Token, familyId: FamilyId)
    requires Inv(s) && AddsRow(s, s', token, familyId)
    requires forall t <- s.store.rows ::
      s'.store.rows[t].SameIdentity(s.store.rows[t]) && s'.store.rows[t].revokedAt == s.store.rows[t].revokedAt
    ensures RowsSound(s') && OldRowsAreDead(s') && CutoffsSound(s') && IssuedSound(s')
    ensures forall t <- s.store.rows ::
      IsDead(s.store, s.store.rows[t].familyId) ==> IsDead(s'.store, s.store.rows[t].familyId)
  {
    assert RowsSound(s');
    forall t <- s.store.rows | IsDead(s.store, s.store.rows[t].familyId)
      ensures IsDead(s'.store, s.store.rows[t].familyId)
    {
      assert s.store.rows[t].familyId != familyId;
    }
  }

  lemma FreshRowKeepsInv(s: State, s': State, token: Token, familyId: FamilyId)
    requires Inv(s) && AddsRow(s, s', token, familyId) && familyId !in s.owners
    requires forall t <- s.store.rows :: s'.store.rows[t] == s.store.rows[t]
    requires s'.presentations == s.presentations && SignInsSound(s')
    ensures Inv(s')
  {
    AddedRowKeepsInv(s, s', token, familyId);
    forall p <- s'.presentations
      ensures PresentationSound(s', s'.presentations[p])
    {
      assert PresentationSound(s, s.presentations[p]);
    }
  }

  lemma PresentKeepsInv(s: State, process: Process, token: Token)
    requires Inv(s)
    ensures Inv(StepPresent(s, process, token))
  {
    var s' := StepPresent(s, process, token);
    forall p <- s'.presentations
      ensures PresentationSound(s', s'.presentations[p])
    {
      if p in s.presentations { assert PresentationSound(s, s.presentations[p]); }
    }
  }

  /** The state after a rotation that `Judge` allowed. */
  lemma RotatedKeepsInv(s: State, process: Process, child: Token)
    requires Inv(s) && process in s.presentations && s.presentations[process].Checked? && child !in s.spent
    requires Judge(s.store, s.now, s.presentations[process].token, s.presentations[process].snapshot) == Rotated
    ensures Inv(StepCommit(s, process, child))
  {
    var s' := StepCommit(s, process, child);
    var Checked(token, snapshot) := s.presentations[process];
    assert PresentationSound(s, s.presentations[process]);
    assert s.store.rows[token].revokedAt.None?;
    assert s'.store.rows == s.store.rows[token := s.store.rows[token].(consumedAt := Some(s.now))]
      [child := Row(snapshot.userId, snapshot.familyId, s.now, s.now + s.store.lifetime, None, None)];
    AddedRowKeepsInv(s, s', child, snapshot.familyId);
    assert OneUnconsumedPerFamily(s');
    RotatedKeepsPresentations(s, s', process, child);
  }

  lemma RotatedKeepsPresentations(s: State, s': State, process: Process, child: Token)
    requires Inv(s) && process in s.presentations && s.presentations[process].Checked? && child !in s.spent
    requires var token := s.presentations[process].token;
      && token in s.store.rows && s.store.rows[token].IsLive(s.now) && child in s'.store.rows
      && s'.store.rows == s.store.rows[token := s.store.rows[token].(consumedAt := Some(s.now))]
                          [child := s'.store.rows[child]]
      && s'.store.rows[child].familyId == s.store.rows[token].familyId
      && s'.presentations == s.presentations[process := Granted(token, child)]
    requires s'.spent == s.spent + {child} && s'.now == s.now
    requires forall t <- s.store.rows ::
      IsDead(s.store, s.store.rows[t].familyId) ==> IsDead(s'.store, s.store.rows[t].familyId)
    ensures PresentationsSound(s')
  {
    var token := s.presentations[process].token;
    assert !IsDead(s.store, s.store.rows[token].familyId);
    forall p <- s'.presentations
      ensures PresentationSound(s', s'.presentations[p])
    {
      assert PresentationSound(s, s.presentations[p]);
    }
  }

  lemma CommitKeepsInv(s: State, process: Process, child: Token)
    requires Inv(s)
    ensures Inv(StepCommit(s, process, child))
  {
    if process in s.presentations && s.presentations[process].Checked? && child !in s.spent {
      var Checked(token, snapshot) := s.presentations[process];
      assert PresentationSound(s, s.presentations[process]);
      match Judge(s.store, s.now, token, snapshot)
      case Rotated => RotatedKeepsInv(s, process, child);
      case PredatesCutoff => RefusalKeepsInv(s, process);
      case _ =>
        var s' := StepCommit(s, process, child);
        forall p <- s'.presentations
          ensures PresentationSound(s', s'.presentations[p])
        {
          assert PresentationSound(s, s.presentations[p]);
        }
    }
  }

  lemma UserKeepsInv(s: State, e: Event)
    requires Inv(s) && (e.CreateUser? || e.ReadCutoff?)
    ensures Inv(Step(s, e))
  {
    var s' := Step(s, e);
    forall p <- s'.presentations
      ensures PresentationSound(s', s'.presentations[p])
    {
      assert PresentationSound(s, s.presentations[p]);
    }
  }

  lemma WithdrawalStepKeepsInv(s: State, e: Event)
    requires Inv(s) && (e.ChangeAccount? || e.Revoke? || e.Purge?)
    ensures Inv(Step(s, e))
  {
    WithdrawalKeepsInv(s, Step(s, e));
  }

  lemma TickKeepsInv(s: State, elapsed: nat)
    requires Inv(s)
    ensures Inv(Step(s, Tick(elapsed)))
  {
    NextWholeSecondIsMonotone(s.now, s.now + elapsed);
  }

  lemma AwaitKeepsInv(s: State, process: Process)
    requires Inv(s)
    ensures Inv(StepAwait(s, process))
  {
  }

  lemma StepKeepsInv(s: State, e: Event)
    requires Inv(s)
    ensures Inv(Step(s, e))
  {
    match e
    case Tick(elapsed) => TickKeepsInv(s, elapsed);
    case CreateUser(_) => UserKeepsInv(s, e);
    case ReadCutoff(_, _) => UserKeepsInv(s, e);
    case AwaitCutoff(process) => AwaitKeepsInv(s, process);
    case IssueSession(process, token, familyId) => IssueKeepsInv(s, process, token, familyId);
    case Present(process, token) => PresentKeepsInv(s, process, token);
    case CommitRotation(process, child) => CommitKeepsInv(s, process, child);
    case EndAll(userId, data) => if userId in s.store.users { EndAllKeepsInv(s, userId, data); }
    case SettleRefusal(process) =>
      if process in s.presentations {
        if s.presentations[process].OwesFamilyRevocation? {
          SettleFamilyKeepsInv(s, process);
        } else if s.presentations[process].OwesAccountRevocation? {
          SettleAccountKeepsInv(s, process);
        }
      }
    case _ => WithdrawalStepKeepsInv(s, e);
  }

  lemma {:induction false} RunKeepsInv(s: State, events: seq<Event>)
    requires Inv(s)
    ensures Inv(Run(s, events))
    decreases |events|
  {
    if events != [] {
      StepKeepsInv(s, events[0]);
      RunKeepsInv(Step(s, events[0]), events[1..]);
    }
  }
}
