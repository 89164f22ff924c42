/** The bound of the send limiter is reached, for every budget and every number of late give-backs. */
module SendLimitTightness {
  import opened Prelude
  import opened SendLimit

  /** The sends 0 to `lingering` - 1 are still in flight from windows that are over. */
  ghost predicate IsLingering(s: State, budget: Budget, lingering: nat) {
    && Inv(s) && s.budget == budget && s.windows == lingering && !IsLive(s.counter, s.now)
    && (forall send: Send :: send in s.inFlight <==> send < lingering)
    && (forall send <- s.inFlight :: s.inFlight[send] <= lingering)
    && (s.counter.Some? ==> s.counter.value.expiresAt <= s.now)
  }

  /**
    The next window is open: `granted` sends were granted in it, and the first `late` of the `lingering`
    ones have failed into it.
   */
  ghost predicate IsFilling(s: State, budget: Budget, lingering: nat, granted: nat, late: nat) {
    && Inv(s) && s.budget == budget && s.windows == lingering + 1 && IsLive(s.counter, s.now) && late <= lingering
    && TallyOf(s.log, lingering + 1) == Tally(granted, 0, 0, late)
    && AreInFlight(s.inFlight, lingering, granted, late)
  }

  /** Of the lingering sends and those of the open window, all but the first `late` are in flight. */
  ghost predicate AreInFlight(inFlight: map<Send, nat>, lingering: nat, granted: nat, late: nat) {
    && (forall send: Send :: send in inFlight <==> late <= send < lingering + granted)
    && (forall send <- inFlight :: send < lingering ==> inFlight[send] <= lingering)
  }

  lemma OneMoreInFlight(inFlight: map<Send, nat>, lingering: nat, granted: nat, late: nat, window: nat)
    requires AreInFlight(inFlight, lingering, granted, late) && late <= lingering
    ensures AreInFlight(inFlight[lingering + granted := window], lingering, granted + 1, late)
  {
    var inFlight' := inFlight[lingering + granted := window];
    forall send: Send
      ensures send in inFlight' <==> late <= send < lingering + (granted + 1)
    {
      assert send in inFlight' <==> send in inFlight || send == lingering + granted;
    }
  }

  lemma RunThen(s: State, events: seq<Event>, e: Event)
    ensures Run(s, events + [e]) == Step(Run(s, events), e)
  {
    RunConcat(s, events, [e]);
    assert Run(Run(s, events), [e]) == Run(Step(Run(s, events), e), []);
  }

  /** A send reserved in a window of its own, and left in flight past its end. */
  lemma OneMoreLingers(s: State, budget: Budget, lingering: nat)
    requires IsLingering(s, budget, lingering) && budget.limit > 0 && budget.windowMilliseconds > 0
    ensures IsLingering(Step(Step(s, Reserve(lingering)), Tick(budget.windowMilliseconds)), budget, lingering + 1)
  {
    var s' := Step(s, Reserve(lingering));
    StepKeepsInv(s, Reserve(lingering));
    StepKeepsInv(s', Tick(budget.windowMilliseconds));
    assert s'.counter == Some(Counter(1, s.now + budget.windowMilliseconds));
  }

  lemma {:induction false} SendsLinger(budget: Budget, lingering: nat) returns (events: seq<Event>)
    requires budget.limit > 0 && budget.windowMilliseconds > 0
    ensures IsLingering(Run(Initial(budget), events), budget, lingering)
    decreases lingering
  {
    if lingering == 0 {
      events := [];
    } else {
      var before := SendsLinger(budget, lingering - 1);
      var reserve, tick := Reserve(lingering - 1), Tick(budget.windowMilliseconds);
      OneMoreLingers(Run(Initial(budget), before), budget, lingering - 1);
      RunThen(Initial(budget), before, reserve);
      RunThen(Initial(budget), before + [reserve], tick);
      events := before + [reserve] + [tick];
    }
  }

  lemma WindowOpens(s: State, budget: Budget, lingering: nat)
    requires IsLingering(s, budget, lingering) && budget.limit > 0 && budget.windowMilliseconds > 0
    ensures IsFilling(Step(s, Reserve(lingering)), budget, lingering, 1, 0)
  {
    StepKeepsInv(s, Reserve(lingering));
    assert WindowSound(s.log, s.windows, budget, lingering + 1);
    TallySnoc(s.log, Granted(lingering, lingering + 1), lingering + 1);
  }

  lemma UnderTheLimitIsGranted(s: State, send: Send)
    requires IsLive(s.counter, s.now) && send !in s.inFlight && s.counter.value.value < s.budget.limit
    ensures var s' := Step(s, Reserve(send));
      && IsLive(s'.counter, s'.now) && s'.budget == s.budget && s'.windows == s.windows
      && s'.inFlight == s.inFlight[send := s.windows] && s'.log == s.log + [Granted(send, s.windows)]
  {
  }

  lemma GrantFills(s: State, s': State, budget: Budget, lingering: nat, granted: nat, late: nat)
    requires IsFilling(s, budget, lingering, granted, late) && Inv(s') && s'.budget == budget
    requires IsLive(s'.counter, s'.now) && s'.windows == s.windows
    requires s'.inFlight == s.inFlight[lingering + granted := s.windows]
    requires TallyOf(s'.log, s.windows) == Tally(granted + 1, 0, 0, late)
    ensures IsFilling(s', budget, lingering, granted + 1, late)
  {
    OneMoreInFlight(s.inFlight, lingering, granted, late, s.windows);
  }

  lemma StepIsTallied(s: State, e: Event, entry: Entry)
    requires Inv(s) && Step(s, e).log == s.log + [entry]
    ensures Inv(Step(s, e)) && TallyOf(Step(s, e).log, s.windows) == Tallied(TallyOf(s.log, s.windows), entry, s.windows)
  {
    StepKeepsInv(s, e);
    TallySnoc(s.log, entry, s.windows);
  }

  lemma GrantIsTallied(s: State, send: Send) returns (s': State)
    requires Inv(s) && IsLive(s.counter, s.now) && send !in s.inFlight && s.counter.value.value < s.budget.limit
    ensures s' == Step(s, Reserve(send)) && Inv(s') && IsLive(s'.counter, s'.now) && s'.budget == s.budget
    ensures s'.windows == s.windows && s'.inFlight == s.inFlight[send := s.windows]
    ensures TallyOf(s'.log, s.windows) == Tallied(TallyOf(s.log, s.windows), Granted(send, s.windows), s.windows)
  {
    s' := Step(s, Reserve(send));
    UnderTheLimitIsGranted(s, send);
    StepIsTallied(s, Reserve(send), Granted(send, s.windows));
  }

  lemma OneMoreIsGranted(s: State, budget: Budget, lingering: nat, granted: nat, late: nat)
    requires IsFilling(s, budget, lingering, granted, late) && granted < budget.limit + late
    ensures IsFilling(Step(s, Reserve(lingering + granted)), budget, lingering, granted + 1, late)
  {
    NextIsNotInFlight(s.inFlight, lingering, granted, late);
    var s' := GrantIsTallied(s, lingering + granted);
    GrantFills(s, s', budget, lingering, granted, late);
  }

  lemma NextIsNotInFlight(inFlight: map<Send, nat>, lingering: nat, granted: nat, late: nat)
    requires AreInFlight(inFlight, lingering, granted, late)
    ensures lingering + granted !in inFlight
  {
  }

  lemma LateOneGivesBack(s: State, send: Send)
    requires IsLive(s.counter, s.now) && send in s.inFlight
    ensures var s' := Step(s, Fail(send, true));
      && IsLive(s'.counter, s'.now) && s'.budget == s.budget && s'.windows == s.windows
      && s'.inFlight == s.inFlight - {send} && s'.log == s.log + [GaveBack(send, s.inFlight[send], s.windows)]
  {
  }

  lemma OneLessInFlight(inFlight: map<Send, nat>, lingering: nat, granted: nat, late: nat)
    requires AreInFlight(inFlight, lingering, granted, late) && late < lingering
    ensures late in inFlight && inFlight[late] <= lingering && AreInFlight(inFlight - {late}, lingering, granted, late + 1)
  {
  }

  lemma OneMoreComesLate(s: State, budget: Budget, lingering: nat, granted: nat, late: nat)
    requires IsFilling(s, budget, lingering, granted, late) && late < lingering
    ensures IsFilling(Step(s, Fail(late, true)), budget, lingering, granted, late + 1)
  {
    OneLessInFlight(s.inFlight, lingering, granted, late);
    LateOneGivesBack(s, late);
    StepIsTallied(s, Fail(late, true), GaveBack(late, s.inFlight[late], s.windows));
  }

  lemma {:induction false} WindowFills(budget: Budget, lingering: nat, granted: nat) returns (events: seq<Event>)
    requires 0 < granted <= budget.limit && budget.windowMilliseconds > 0
    ensures IsFilling(Run(Initial(budget), events), budget, lingering, granted, 0)
    decreases granted
  {
    if granted == 1 {
      var before := SendsLinger(budget, lingering);
      WindowOpens(Run(Initial(budget), before), budget, lingering);
      RunThen(Initial(budget), before, Reserve(lingering));
      events := before + [Reserve(lingering)];
    } else {
      var before := WindowFills(budget, lingering, granted - 1);
      OneMoreIsGranted(Run(Initial(budget), before), budget, lingering, granted - 1, 0);
      RunThen(Initial(budget), before, Reserve(lingering + granted - 1));
      events := before + [Reserve(lingering + granted - 1)];
    }
  }

  lemma {:induction false} LateOnesMakeRoom(budget: Budget, lingering: nat, late: nat) returns (events: seq<Event>)
    requires late <= lingering && budget.limit > 0 && budget.windowMilliseconds > 0
    ensures IsFilling(Run(Initial(budget), events), budget, lingering, budget.limit + late, late)
    decreases late
  {
    if late == 0 {
      events := WindowFills(budget, lingering, budget.limit);
    } else {
      var before := LateOnesMakeRoom(budget, lingering, late - 1);
      var s := Run(Initial(budget), before);
      var fail, reserve := Fail(late - 1, true), Reserve(lingering + budget.limit + late - 1);
      OneMoreComesLate(s, budget, lingering, budget.limit + late - 1, late - 1);
      OneMoreIsGranted(Step(s, fail), budget, lingering, budget.limit + late - 1, late);
      RunThen(Initial(budget), before, fail);
      RunThen(Initial(budget), before + [fail], reserve);
      events := before + [fail] + [reserve];
    }
  }

  /**
    For every limit and every number of late give-backs there is a run in which one window grants the
    limit and as many sends more as landed there from sends of earlier windows, and none is given back.
   */
  lemma GrantBoundIsReached(budget: Budget, late: nat) returns (events: seq<Event>, window: nat)
    requires budget.limit > 0 && budget.windowMilliseconds > 0
    ensures TallyOf(Run(Initial(budget), events).log, window) == Tally(budget.limit + late, 0, 0, late)
  {
    events := LateOnesMakeRoom(budget, late, late);
    window := late + 1;
  }
}
