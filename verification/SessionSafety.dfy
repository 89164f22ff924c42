/** What the session protocol promises, over every run from every initial state. */
module SessionSafety {
  import opened Prelude
  import opened SessionCutoff
  import opened RefreshTokens
  import opened SessionRuns

  ghost predicate Reachable(s: State) {
    exists initial, events :: Init(initial) && Run(initial, events) == s
  }

  lemma ReachableInv(s: State)
    requires Reachable(s)
    ensures Inv(s)
  {
    var initial, events :| Init(initial) && Run(initial, events) == s;
    InitInv(initial);
    RunKeepsInv(initial, events);
  }

  lemma {:induction false} RunAppend(s: State, events: seq<Event>, e: Event)
    ensures Run(s, events + [e]) == Step(Run(s, events), e)
    decreases |events|
  {
    if events == [] {
      assert Run(s, [e]) == Run(Step(s, e), []);
    } else {
      assert (events + [e])[1..] == events[1..] + [e];
      RunAppend(Step(s, events[0]), events[1..], e);
    }
  }

  lemma ReachableStep(s: State, e: Event)
    requires Reachable(s)
    ensures Reachable(Step(s, e))
  {
    var initial, events :| Init(initial) && Run(initial, events) == s;
    RunAppend(initial, events, e);
  }

  // ---------------------------------------------------------------- families

  /** A family has one owner and at most one unconsumed row; an unrevoked row is not older than its owner's cutoff. */
  lemma FamilySafety(s: State, t1: Token, t2: Token)
    requires Reachable(s) && t1 in s.store.rows && t2 in s.store.rows
    ensures s.store.rows[t1].userId in s.store.users
    ensures s.store.rows[t1].revokedAt.None?
        ==> !Predates(s.store, s.store.rows[t1].userId, s.store.rows[t1].createdAt)
    ensures s.store.rows[t1].familyId == s.store.rows[t2].familyId ==>
      && s.store.rows[t1].userId == s.store.rows[t2].userId
      && (s.store.rows[t1].consumedAt.None? && s.store.rows[t2].consumedAt.None? ==> t1 == t2)
  {
    ReachableInv(s);
  }

  lemma DeadStaysDeadOneStep(s: State, e: Event, familyId: FamilyId)
    requires Inv(s) && familyId in s.owners && IsDead(s.store, familyId)
    ensures familyId in Step(s, e).owners && IsDead(Step(s, e).store, familyId)
  {
    match e
    case CommitRotation(process, child) =>
      if process in s.presentations && s.presentations[process].Checked? {
        assert PresentationSound(s, s.presentations[process]);
      }
    case SettleRefusal(process) =>
    case IssueSession(process, token, newFamily) =>
    case Present(process, token) =>
    case _ =>
  }

  /** No later event of any kind leaves a dead family with a row that can be exchanged. */
  lemma {:induction false} DeadStaysDead(s: State, events: seq<Event>, familyId: FamilyId)
    requires Inv(s) && familyId in s.owners && IsDead(s.store, familyId)
    ensures IsDead(Run(s, events).store, familyId)
    decreases |events|
  {
    if events != [] {
      DeadStaysDeadOneStep(s, events[0], familyId);
      StepKeepsInv(s, events[0]);
      DeadStaysDead(Step(s, events[0]), events[1..], familyId);
    }
  }

  /** Once `revokeFamily` commits, no row of the family is ever unrevoked again. */
  lemma FamilyRevocationIsFinal(s: State, familyId: FamilyId, later: seq<Event>)
    requires Reachable(s) && familyId in s.owners
    ensures IsDead(Run(Step(s, Revoke(familyId)), later).store, familyId)
  {
    ReachableInv(s);
    StepKeepsInv(s, Revoke(familyId));
    DeadStaysDead(Step(s, Revoke(familyId)), later, familyId);
  }

  // ---------------------------------------------------------------- reuse detection

  /** Of all presenters of one token, at most one obtains a child. */
  lemma OneChildPerToken(s: State, p: Process, q: Process)
    requires Reachable(s) && p in s.presentations && q in s.presentations
    requires s.presentations[p].Granted? && s.presentations[q].Granted?
    requires s.presentations[p].token == s.presentations[q].token
    ensures p == q
  {
    ReachableInv(s);
  }

  /**
    Reuse detection of section 4.14.2 of RFC 9700, sequential or concurrent: one presenter holds
    a child of the token, another presentation of it has completed, and the row still stands;
    then the whole family is revoked, the child included, and stays so.
   */
  lemma ReuseIsDetected(s: State, p: Process, q: Process, later: seq<Event>)
    requires Reachable(s) && p in s.presentations && q in s.presentations
    requires s.presentations[p].Granted? && s.presentations[q].Refused?
    requires s.presentations[p].token == s.presentations[q].token
    requires s.presentations[p].token in s.store.rows
    ensures var familyId := s.store.rows[s.presentations[p].token].familyId;
      && IsDead(s.store, familyId) && IsDead(Run(s, later).store, familyId)
    ensures s.presentations[p].child in s.store.rows ==> s.store.rows[s.presentations[p].child].revokedAt.Some?
  {
    ReachableInv(s);
    assert PresentationSound(s, s.presentations[p]) && PresentationSound(s, s.presentations[q]);
    DeadStaysDead(s, later, s.store.rows[s.presentations[p].token].familyId);
  }

  /** Presenting a consumed token revokes its family as soon as the refusal settles. */
  lemma SecondPresentationRevokes(s: State, process: Process, token: Token)
    requires Reachable(s) && process !in s.presentations && token in s.store.rows
    requires s.store.rows[token].consumedAt.Some?
    ensures var after := Step(Step(s, Present(process, token)), SettleRefusal(process));
      after.presentations[process] == Refused(token) && IsDead(after.store, s.store.rows[token].familyId)
  {
  }

  /** Two presenters that both passed the snapshot: one gets a child, the other ends the family. */
  lemma RacingPresentersEndTheFamily(s: State, p: Process, q: Process, child: Token, other: Token)
    requires Reachable(s) && p != q && p in s.presentations && q in s.presentations
    requires s.presentations[p].Checked? && s.presentations[q] == s.presentations[p]
    requires child !in s.spent && other !in s.spent && child != other
    requires Judge(s.store, s.now, s.presentations[p].token, s.presentations[p].snapshot) == Rotated
    ensures var token := s.presentations[p].token;
      var raced := Step(Step(s, CommitRotation(p, child)), CommitRotation(q, other));
      var after := Step(raced, SettleRefusal(q));
      && after.presentations[p] == Granted(token, child) && after.presentations[q] == Refused(token)
      && child in after.store.rows && after.store.rows[child].revokedAt.Some?
      && IsDead(after.store, s.store.rows[token].familyId)
  {
    ReachableInv(s);
    assert PresentationSound(s, s.presentations[p]);
    var first := Step(s, CommitRotation(p, child));
    assert first.store.rows[s.presentations[p].token].consumedAt.Some?;
    assert !Predates(first.store, s.presentations[p].snapshot.userId, s.presentations[p].snapshot.createdAt);
  }

  /** The in-lock cutoff check of `rotate` only ever refuses what is already revoked, and writes nothing. */
  lemma CutoffRefusalIsIdle(s: State, process: Process, child: Token)
    requires Reachable(s) && process in s.presentations && s.presentations[process].Checked? && child !in s.spent
    requires var Checked(token, snapshot) := s.presentations[process];
      Judge(s.store, s.now, token, snapshot) == PredatesCutoff
    ensures var Checked(token, snapshot) := s.presentations[process];
      && (token in s.store.rows ==> s.store.rows[token].revokedAt.Some? && IsDead(s.store, snapshot.familyId))
      && StepCommit(s, process, child) == s.(presentations := s.presentations[process := Refused(token)])
  {
    ReachableInv(s);
    assert PresentationSound(s, s.presentations[process]);
  }

  // ---------------------------------------------------------------- access tokens

  /** Every access token a step signs passes the acceptance comparison in the state it leaves. */
  lemma FreshTokensAreAccepted(s: State, e: Event, token: AccessToken)
    requires Reachable(s) && token in Step(s, e).issued && token !in s.issued
    ensures token.userId in Step(s, e).store.users
    ensures Accepts(Step(s, e).store.users[token.userId].cutoff, IssuedAtSecond(token.decidedAt))
  {
    ReachableInv(s);
    var cutoff := if token.userId in s.store.users then s.store.users[token.userId].cutoff else None;
    if e.CommitRotation? {
      assert PresentationSound(s, s.presentations[e.process]);
    }
    if cutoff.Some? {
      AtOrAfterCutoffIsAccepted(cutoff.value, token.decidedAt);
    }
  }

  lemma CutoffAdvancesOneStep(s: State, e: Event, userId: UserId)
    requires Inv(s) && userId in s.store.users
    ensures userId in Step(s, e).store.users
    ensures NotAfter(s.store.users[userId].cutoff, Step(s, e).store.users[userId].cutoff)
  {
  }

  /** An account's cutoff never moves back. */
  lemma {:induction false} CutoffAdvances(s: State, events: seq<Event>, userId: UserId)
    requires Inv(s) && userId in s.store.users
    ensures userId in Run(s, events).store.users
    ensures NotAfter(s.store.users[userId].cutoff, Run(s, events).store.users[userId].cutoff)
    decreases |events|
  {
    if events != [] {
      CutoffAdvancesOneStep(s, events[0], userId);
      StepKeepsInv(s, events[0]);
      CutoffAdvances(Step(s, events[0]), events[1..], userId);
    }
  }

  lemma RejectionIsMonotone(a: Option<nat>, b: Option<nat>, issuedAtSecond: nat)
    requires NotAfter(a, b) && !Accepts(a, issuedAtSecond)
    ensures !Accepts(b, issuedAtSecond)
  {
    assert a.value == SECOND * (a.value / SECOND) + a.value % SECOND;
    assert b.value == SECOND * (b.value / SECOND) + b.value % SECOND;
  }

  /**
    Ending an account's sessions, exactly: of the access tokens it holds, only those decided on
    the revocation's own millisecond survive, and only if that is a whole second; the others
    stay rejected, and every family it holds stays dead, whatever happens later.
   */
  lemma SignOutEverywhere(s: State, userId: UserId, data: UserData, later: seq<Event>)
    requires Reachable(s) && userId in s.store.users
    ensures var ended := Step(s, EndAll(userId, data));
      var final := Run(ended, later);
      && userId in final.store.users
      && (forall familyId <- s.owners :: s.owners[familyId] == userId ==> IsDead(final.store, familyId))
      && (forall token <- s.issued :: token.userId == userId ==>
            && (Accepts(ended.store.users[userId].cutoff, IssuedAtSecond(token.decidedAt))
                <==> token.decidedAt == s.now && s.now % SECOND == 0)
            && (!(token.decidedAt == s.now && s.now % SECOND == 0) ==>
                 !Accepts(final.store.users[userId].cutoff, IssuedAtSecond(token.decidedAt))))
  {
    ReachableInv(s);
    var ended := Step(s, EndAll(userId, data));
    var final := Run(ended, later);
    StepKeepsInv(s, EndAll(userId, data));
    CutoffAdvances(ended, later, userId);
    EndAllKillsAccount(s, userId, data);
    forall familyId <- s.owners | s.owners[familyId] == userId
      ensures IsDead(final.store, familyId)
    {
      DeadStaysDead(ended, later, familyId);
    }
    forall token <- s.issued | token.userId == userId
      ensures Accepts(ended.store.users[userId].cutoff, IssuedAtSecond(token.decidedAt))
         <==> token.decidedAt == s.now && s.now % SECOND == 0
      ensures !(token.decidedAt == s.now && s.now % SECOND == 0) ==>
        !Accepts(final.store.users[userId].cutoff, IssuedAtSecond(token.decidedAt))
    {
      RevocationBoundary(token.decidedAt, s.now);
      if !(token.decidedAt == s.now && s.now % SECOND == 0) {
        RejectionIsMonotone(ended.store.users[userId].cutoff, final.store.users[userId].cutoff,
                            IssuedAtSecond(token.decidedAt));
      }
    }
  }

  // ---------------------------------------------------------------- the steps, uninterrupted

  /** With nothing in between, the steps of one exchange are what `rotate` does on its own. */
  lemma UninterruptedRotation(s: State, p: Process, token: Token, child: Token)
    requires p !in s.presentations && child !in s.spent && child != token
    requires token in s.store.rows ==> s.store.rows[token].userId in s.store.users
    ensures var s' := Run(s, [Present(p, token), CommitRotation(p, child), SettleRefusal(p)]);
      p in s'.presentations &&
      if token !in s.store.rows then s'.presentations[p].Refused? && s'.store == s.store
      else
        var row := s.store.rows[token];
        if row.consumedAt.Some? then
          s'.presentations[p].Refused? && s'.store == RevokeFamily(s.store, s.now, row.familyId)
        else if row.revokedAt.Some? || row.expiresAt <= s.now then s'.presentations[p].Refused? && s'.store == s.store
        else if !IsEligible(s.store, row.userId) then
          s'.presentations[p].Refused? && s'.store == EndAllSessions(s.store, s.now, row.userId, UserData(None, None))
        else if Predates(s.store, row.userId, row.createdAt) then s'.presentations[p].Refused? && s'.store == s.store
        else s'.presentations[p] == Granted(token, child) && s'.store == Rotate(s.store, s.now, token, row, child)
  {
    var events := [Present(p, token), CommitRotation(p, child), SettleRefusal(p)];
    var s1 := Step(s, events[0]);
    var s2 := Step(s1, events[1]);
    assert Run(s, events) == Run(s1, events[1..]) == Run(s2, events[1..][1..]);
    assert events[1..][1..] == [events[2]];
    assert Run(s2, [events[2]]) == Run(Step(s2, events[2]), []);
  }

  // ---------------------------------------------------------------- stale sign-ins

  /** A sign-in whose expected cutoff has been passed over never gets a session. */
  lemma {:induction false} OvertakenSignInIsRefused(s: State, events: seq<Event>, process: Process)
    requires Inv(s) && process in s.signIns && !s.signIns[process].SignedIn?
    requires var signIn := s.signIns[process];
      signIn.TurnedAway? || (signIn.userId in s.store.users && s.store.users[signIn.userId].cutoff != signIn.expected)
    ensures process in Run(s, events).signIns && !Run(s, events).signIns[process].SignedIn?
    decreases |events|
  {
    if events != [] {
      var signIn := s.signIns[process];
      var s' := Step(s, events[0]);
      StepKeepsInv(s, events[0]);
      if !signIn.TurnedAway? {
        CutoffAdvancesOneStep(s, events[0], signIn.userId);
      }
      OvertakenOneStep(s, events[0], process);
      OvertakenSignInIsRefused(s', events[1..], process);
    }
  }

  lemma OvertakenOneStep(s: State, e: Event, process: Process)
    requires Inv(s) && process in s.signIns && !s.signIns[process].SignedIn?
    requires var signIn := s.signIns[process];
      signIn.TurnedAway? || (signIn.userId in s.store.users && s.store.users[signIn.userId].cutoff != signIn.expected)
    ensures process in Step(s, e).signIns && !Step(s, e).signIns[process].SignedIn?
    ensures var signIn := Step(s, e).signIns[process];
      signIn.TurnedAway?
      || (signIn.userId in Step(s, e).store.users
          && Step(s, e).store.users[signIn.userId].cutoff != signIn.expected)
  {
    if !s.signIns[process].TurnedAway? {
      CutoffAdvancesOneStep(s, e, s.signIns[process].userId);
    }
  }

  /**
    A sign-in that read its cutoff before a revocation can still obtain a session after it exactly
    when the revocation wrote the very cutoff the sign-in had read. By `SameCutoff` that is when
    an earlier revocation had already rounded up to the same second.
   */
  lemma StaleSignInExact(s: State, process: Process, data: UserData)
    requires Reachable(s) && process in s.signIns
    requires s.signIns[process].CutoffRead? || s.signIns[process].CutoffPassed?
    ensures var signIn := s.signIns[process];
      (exists later :: var final := Run(Step(s, EndAll(signIn.userId, data)), later);
         process in final.signIns && final.signIns[process].SignedIn?)
      <==> signIn.expected == Some(NextWholeSecond(s.now))
  {
    ReachableInv(s);
    var signIn := s.signIns[process];
    var ended := Step(s, EndAll(signIn.userId, data));
    StepKeepsInv(s, EndAll(signIn.userId, data));
    if signIn.expected == Some(NextWholeSecond(s.now)) {
      var later := StaleSignInSucceeds(ended, process);
      assert Run(ended, later).signIns[process].SignedIn?;
    } else {
      forall later
        ensures var final := Run(ended, later); !(process in final.signIns && final.signIns[process].SignedIn?)
      {
        OvertakenSignInIsRefused(ended, later, process);
      }
    }
  }

  lemma StaleSignInSucceeds(s: State, process: Process) returns (later: seq<Event>)
    requires Inv(s) && process in s.signIns
    requires s.signIns[process].CutoffRead? || s.signIns[process].CutoffPassed?
    requires s.store.users[s.signIns[process].userId].cutoff == s.signIns[process].expected
    ensures process in Run(s, later).signIns && Run(s, later).signIns[process].SignedIn?
  {
    var signIn := s.signIns[process];
    var token := FreshNumber(s.spent);
    var familyId := FreshNumber(s.owners.Keys);
    var s1 := Step(s, ChangeAccount(signIn.userId, UserData(Some(true), Some(false))));
    var wait := RemainingWait(signIn.expected, s.now);
    var s2 := Step(s1, Tick(wait));
    var s3 := Step(s2, AwaitCutoff(process));
    var s4 := Step(s3, IssueSession(process, token, familyId));
    assert s4.signIns[process].SignedIn?;
    later := [ChangeAccount(signIn.userId, UserData(Some(true), Some(false))), Tick(wait),
              AwaitCutoff(process), IssueSession(process, token, familyId)];
    assert Run(s, later) == s4 by {
      assert later[1..] == [Tick(wait), AwaitCutoff(process), IssueSession(process, token, familyId)];
      assert later[1..][1..] == [AwaitCutoff(process), IssueSession(process, token, familyId)];
      assert Run(s, later) == Run(s1, later[1..]) == Run(s2, later[1..][1..]) == Run(s3, later[1..][1..][1..]);
      assert Run(s3, [IssueSession(process, token, familyId)]) == Run(s4, []);
    }
  }

  /**
    The hole is real: an account revoked at 10.2 s and again at 10.5 s, with a sign-in in between
    that waits the second out, ends with an unrevoked session.
   */
  lemma SecondRevocationInOneSecondMissesASignIn() returns (s: State)
    ensures Reachable(s) && s.signIns == map[0 := SignedIn(1, 7)]
    ensures s.store.users == map[1 := User(true, false, Some(11000))]
    ensures s.store.rows == map[7 := Row(1, 9, 11000, 12000, None, None)]
  {
    s := State(10200, Store(map[1 := User(true, false, None)], map[], 1000), map[], map[], {}, map[], {});
    assert Run(s, []) == s;
    s := RevokeAt(s);
    s := Then(s, ReadCutoff(0, 1));
    s := Then(s, Tick(300));
    s := RevokeAt(s);
    s := WaitAndSignIn(s);
  }

  lemma WaitAndSignIn(s0: State) returns (s: State)
    requires Reachable(s0) && s0.now == 10500 && s0.store.lifetime == 1000 && s0.store.rows == map[]
    requires s0.store.users == map[1 := User(true, false, Some(11000))]
    requires s0.signIns == map[0 := CutoffRead(1, Some(11000))] && s0.spent == {} && s0.owners == map[]
    ensures Reachable(s) && s.signIns == map[0 := SignedIn(1, 7)] && s.store.users == s0.store.users
    ensures s.store.rows == map[7 := Row(1, 9, 11000, 12000, None, None)]
  {
    s := WaitOut(s0);
    s := Then(s, IssueSession(0, 7, 9));
  }

  lemma WaitOut(s0: State) returns (s: State)
    requires Reachable(s0) && s0.now == 10500 && s0.signIns == map[0 := CutoffRead(1, Some(11000))]
    ensures Reachable(s) && s == s0.(now := 11000, signIns := map[0 := CutoffPassed(1, Some(11000))])
  {
    s := Then(s0, Tick(500));
    assert s == s0.(now := 11000);
    s := Then(s, AwaitCutoff(0));
  }

  lemma Then(s: State, e: Event) returns (s': State)
    requires Reachable(s)
    ensures Reachable(s') && s' == Step(s, e)
  {
    ReachableStep(s, e);
    s' := Step(s, e);
  }

  /** The revocations of the example: account 1 has no row yet, so only its cutoff moves. */
  lemma RevokeAt(s: State) returns (s': State)
    requires Reachable(s) && s.store.rows == map[] && 10000 < s.now <= 11000
    requires s.store.users.Keys == {1} && s.store.users[1].isActive && !s.store.users[1].isDeleted
    ensures Reachable(s')
    ensures s' == s.(store := s.store.(users := map[1 := User(true, false, Some(11000))]))
  {
    var data := UserData(None, None);
    ReachableStep(s, EndAll(1, data));
    s' := Step(s, EndAll(1, data));
    NextWholeSecondIsUnique(s.now, 11000);
  }
}
