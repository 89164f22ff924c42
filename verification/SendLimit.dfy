/**
  One destination's send budget for one purpose, `src/common/send-limit/destination-send-limit.service.ts`:
  the counter as each Redis command leaves it, and every interleaving of the sends that use it.
 */
module SendLimit {
  import opened Prelude

  type Send = nat

  /** A Redis counter; it is gone once its expiry has passed. */
  datatype Counter = Counter(value: int, expiresAt: nat)

  datatype Budget = Budget(limit: nat, windowMilliseconds: nat)

  predicate IsLive(counter: Option<Counter>, now: nat) {
    counter.Some? && now < counter.value.expiresAt
  }

  /** `INCR`, then `EXPIRE` only if the counter has no expiry yet. */
  function Incremented(counter: Option<Counter>, now: nat, budget: Budget): Counter {
    if IsLive(counter, now) then counter.value.(value := counter.value.value + 1)
    else Counter(1, now + budget.windowMilliseconds)
  }

  /** The release script. */
  function GivenBack(counter: Option<Counter>, now: nat): Option<Counter> {
    if IsLive(counter, now) then Some(counter.value.(value := counter.value.value - 1)) else counter
  }

  predicate HasBudget(counter: Option<Counter>, now: nat, budget: Budget) {
    (if IsLive(counter, now) then counter.value.value else 0) < budget.limit
  }

  /** The advisory check answers what a reservation made at once would be told. */
  lemma HasBudgetPredictsTheReservation(counter: Option<Counter>, now: nat, budget: Budget)
    ensures HasBudget(counter, now, budget) <==> Incremented(counter, now, budget).value <= budget.limit
  {
  }

  // ---------------------------------------------------------------- runs

  /** What happened to the counter, each in the window it happened in. */
  datatype Entry =
    | Granted(send: Send, window: nat)
    | Counted(window: nat)
    | GaveBack(send: Send, reservedIn: nat, window: nat)

  /** `windows` numbers the windows opened so far; `inFlight` maps a send to the window it was reserved in. */
  datatype State = State(
    now: nat,
    budget: Budget,
    counter: Option<Counter>,
    windows: nat,
    inFlight: map<Send, nat>,
    log: seq<Entry>)

  datatype Event =
    | Tick(elapsed: nat)
    | Reserve(send: Send)
    | LoseReply
    | Succeed(send: Send)
    | Fail(send: Send, isReleased: bool)

  function Step(s: State, e: Event): State {
    match e
    case Tick(elapsed) => s.(now := s.now + elapsed)
    case Reserve(send) =>
      if send in s.inFlight then s
      else
        var s' := Increment(s);
        if s'.counter.value.value > s.budget.limit then s'.(log := s'.log + [Counted(s'.windows)])
        else s'.(inFlight := s'.inFlight[send := s'.windows], log := s'.log + [Granted(send, s'.windows)])
    // The transaction went through, but its reply was lost: the caller sees a failure.
    case LoseReply =>
      var s' := Increment(s);
      s'.(log := s'.log + [Counted(s'.windows)])
    case Succeed(send) => s.(inFlight := s.inFlight - {send})
    case Fail(send, isReleased) =>
      if send !in s.inFlight then s
      else
        var ended := s.(inFlight := s.inFlight - {send});
        if !isReleased then ended
        else
          ended.(counter := GivenBack(s.counter, s.now),
                 log := if IsLive(s.counter, s.now) then s.log + [GaveBack(send, s.inFlight[send], s.windows)] else s.log)
  }

  function Increment(s: State): (s': State)
    ensures s'.counter.Some?
  {
    s.(counter := Some(Incremented(s.counter, s.now, s.budget)),
       windows := if IsLive(s.counter, s.now) then s.windows else s.windows + 1)
  }

  function Run(s: State, events: seq<Event>): State
    decreases |events|
  {
    if events == [] then s else Run(Step(s, events[0]), events[1..])
  }

  function Initial(budget: Budget): State {
    State(0, budget, None, 0, map[], [])
  }

  // ---------------------------------------------------------------- the bound

  /** Grants, counted attempts that granted nothing, and give-backs of the window's own and of earlier sends. */
  datatype Tally = Tally(granted: nat, counted: nat, own: nat, foreign: nat)
  {
    function Balance(): int {
      granted + counted - own - foreign
    }
  }

  function Tallied(before: Tally, entry: Entry, window: nat): Tally {
    if entry.window != window then before
    else
      match entry
      case Granted(_, _) => before.(granted := before.granted + 1)
      case Counted(_) => before.(counted := before.counted + 1)
      case GaveBack(_, reservedIn, _) =>
        if reservedIn == window then before.(own := before.own + 1) else before.(foreign := before.foreign + 1)
  }

  function TallyOf(log: seq<Entry>, window: nat): Tally {
    if log == [] then Tally(0, 0, 0, 0) else Tallied(TallyOf(log[..|log| - 1], window), log[|log| - 1], window)
  }

  ghost predicate IsBounded(tally: Tally, budget: Budget) {
    tally.granted - tally.own <= budget.limit + tally.foreign
  }

  /** A window that has not been opened yet has no entry. */
  ghost predicate WindowSound(log: seq<Entry>, windows: nat, budget: Budget, window: nat) {
    IsBounded(TallyOf(log, window), budget) && (window > windows ==> TallyOf(log, window) == Tally(0, 0, 0, 0))
  }

  ghost predicate Inv(s: State) {
    && (s.counter.Some? ==> s.windows > 0 && s.counter.value.value == TallyOf(s.log, s.windows).Balance())
    && (forall window :: WindowSound(s.log, s.windows, s.budget, window))
  }

  lemma TallySnoc(log: seq<Entry>, entry: Entry, window: nat)
    ensures TallyOf(log + [entry], window) == Tallied(TallyOf(log, window), entry, window)
  {
    assert (log + [entry])[..|log|] == log;
  }

  lemma EntryKeepsBound(before: Tally, entry: Entry, budget: Budget, window: nat)
    requires IsBounded(before, budget) && (entry.Granted? && entry.window == window ==> before.Balance() < budget.limit)
    ensures IsBounded(Tallied(before, entry, window), budget)
  {
  }

  lemma EntryKeepsWindow(log: seq<Entry>, entry: Entry, windows: nat, budget: Budget, window: nat)
    requires WindowSound(log, windows, budget, window) && windows <= entry.window
    requires entry.Granted? && entry.window == window ==> TallyOf(log, window).Balance() < budget.limit
    ensures WindowSound(log + [entry], entry.window, budget, window)
  {
    TallySnoc(log, entry, window);
    EntryKeepsBound(TallyOf(log, window), entry, budget, window);
  }

  /** One more entry, in the latest window or in a new one, with the counter moving along. */
  lemma EntryKeepsInv(s: State, s': State, entry: Entry)
    requires Inv(s) && s'.log == s.log + [entry] && s'.counter.Some? && s'.budget == s.budget
    requires s'.windows == entry.window > 0 && s.windows <= s'.windows && (s.counter.None? ==> s.windows < s'.windows)
    requires var value := if s'.windows == s.windows then s.counter.value.value else 0;
      s'.counter.value.value == if entry.GaveBack? then value - 1 else value + 1
    requires entry.Granted? ==> s'.counter.value.value <= s.budget.limit
    ensures Inv(s')
  {
    assert WindowSound(s.log, s.windows, s.budget, s'.windows);
    TallySnoc(s.log, entry, s'.windows);
    forall window
      ensures WindowSound(s'.log, s'.windows, s'.budget, window)
    {
      assert WindowSound(s.log, s.windows, s.budget, window);
      EntryKeepsWindow(s.log, entry, s.windows, s.budget, window);
    }
  }

  lemma StepKeepsInv(s: State, e: Event)
    requires Inv(s)
    ensures Inv(Step(s, e))
  {
    var s' := Step(s, e);
    match e
    case Tick(_) =>
    case Succeed(_) =>
    case Reserve(send) =>
      if send !in s.inFlight { EntryKeepsInv(s, s', s'.log[|s.log|]); }
    case LoseReply => EntryKeepsInv(s, s', s'.log[|s.log|]);
    case Fail(send, isReleased) =>
      if send in s.inFlight && isReleased && IsLive(s.counter, s.now) { EntryKeepsInv(s, s', s'.log[|s.log|]); }
  }

  lemma {:induction false} RunKeepsInv(s: State, events: seq<Event>)
    requires Inv(s)
    ensures Inv(Run(s, events)) && Run(s, events).budget == s.budget
    decreases |events|
  {
    if events != [] {
      StepKeepsInv(s, events[0]);
      RunKeepsInv(Step(s, events[0]), events[1..]);
    }
  }

  /**
    In every interleaving, the sends granted in a window less those given back in it never exceed
    the limit plus the give-backs that landed there from sends of earlier windows.
   */
  lemma GrantsAreBounded(budget: Budget, events: seq<Event>, window: nat)
    ensures var tally := TallyOf(Run(Initial(budget), events).log, window);
      tally.granted - tally.own <= budget.limit + tally.foreign
  {
    RunKeepsInv(Initial(budget), events);
    var s := Run(Initial(budget), events);
    assert WindowSound(s.log, s.windows, s.budget, window);
  }

  /** A reservation is granted exactly when the balance of its window, refusals included, is under the limit. */
  lemma GrantIsExact(budget: Budget, events: seq<Event>, send: Send)
    requires send !in Run(Initial(budget), events).inFlight
    ensures var s := Run(Initial(budget), events);
      send in Step(s, Reserve(send)).inFlight <==>
        (if IsLive(s.counter, s.now) then TallyOf(s.log, s.windows).Balance() else 0) < budget.limit
  {
    RunKeepsInv(Initial(budget), events);
  }

  /**
    Failed sends that were all given back use up no budget, unless attempts counted without a grant
    have filled the window: those are never given back.
   */
  lemma GivenBackSendsLeaveTheRefusals(budget: Budget, events: seq<Event>, send: Send)
    requires var s := Run(Initial(budget), events);
      send !in s.inFlight && IsLive(s.counter, s.now) && TallyOf(s.log, s.windows).granted == TallyOf(s.log, s.windows).own
    ensures var s := Run(Initial(budget), events);
      var tally := TallyOf(s.log, s.windows);
      send in Step(s, Reserve(send)).inFlight <==> tally.counted < budget.limit + tally.foreign
  {
    GrantIsExact(budget, events, send);
  }

  lemma ThreeSteps(s: State, events: seq<Event>)
    requires |events| == 3
    ensures Run(s, events) == Step(Step(Step(s, events[0]), events[1]), events[2])
  {
    var s1 := Step(s, events[0]);
    var s2 := Step(s1, events[1]);
    assert Run(s, events) == Run(s1, events[1..]) == Run(s2, events[1..][1..]);
    assert events[1..][1..] == [events[2]];
    assert Run(s2, [events[2]]) == Run(Step(s2, events[2]), []);
  }

  /** With a limit of one, a refusal while the only send is in flight costs the window its budget. */
  lemma RefusalOutlivesTheFailedSend() returns (s: State, events: seq<Event>)
    ensures s == Run(Initial(Budget(1, 1000)), events) && s.inFlight == map[] && IsLive(s.counter, s.now)
    ensures TallyOf(s.log, 1) == Tally(1, 1, 1, 0)
    ensures forall send :: send !in Step(s, Reserve(send)).inFlight
  {
    events := [Reserve(0), Reserve(1), Fail(0, true)];
    var s0 := Initial(Budget(1, 1000));
    ThreeSteps(s0, events);
    var s1 := s0.(counter := Some(Counter(1, 1000)), windows := 1, inFlight := map[0 := 1], log := [Granted(0, 1)]);
    assert Step(s0, events[0]) == s1;
    var s2 := s1.(counter := Some(Counter(2, 1000)), log := [Granted(0, 1), Counted(1)]);
    assert Step(s1, events[1]) == s2;
    s := Step(s2, events[2]);
    TallyOfThree(s.log, 1);
  }

  lemma TallyOfThree(log: seq<Entry>, w: nat)
    requires |log| == 3
    ensures TallyOf(log, w) == Tallied(Tallied(Tallied(Tally(0, 0, 0, 0), log[0], w), log[1], w), log[2], w)
  {
    assert log == [] + [log[0]] + [log[1]] + [log[2]];
    TallySnoc([], log[0], w);
    TallySnoc([] + [log[0]], log[1], w);
    TallySnoc([] + [log[0]] + [log[1]], log[2], w);
  }

  lemma {:induction false} RunConcat(s: State, before: seq<Event>, after: seq<Event>)
    ensures Run(s, before + after) == Run(Run(s, before), after)
    decreases |before|
  {
    if before == [] {
      assert before + after == after;
    } else {
      assert (before + after)[1..] == before[1..] + after;
      RunConcat(Step(s, before[0]), before[1..], after);
    }
  }

  // ---------------------------------------------------------------- a give-back opens nothing

  function Elapsed(events: seq<Event>): nat {
    if events == [] then 0 else (if events[0].Tick? then events[0].elapsed else 0) + Elapsed(events[1..])
  }

  /**
    Only an attempt to reserve opens a window: without one, once the window's length has passed,
    there is no counter, whatever was given back meanwhile.
   */
  lemma {:induction false} GiveBacksOpenNoWindow(s: State, events: seq<Event>)
    requires s.counter.Some? ==> s.counter.value.expiresAt <= s.now + Elapsed(events)
    requires forall e <- events :: !e.Reserve? && !e.LoseReply?
    ensures var s' := Run(s, events); !IsLive(s'.counter, s'.now) && s'.windows == s.windows
    decreases |events|
  {
    if events != [] {
      GiveBacksOpenNoWindow(Step(s, events[0]), events[1..]);
    }
  }

  /** No counter outlives the window that a reservation opened for it. */
  lemma {:induction false} ExpiryIsNear(s: State, events: seq<Event>)
    requires s.counter.Some? ==> s.counter.value.expiresAt <= s.now + s.budget.windowMilliseconds
    ensures var s' := Run(s, events);
      s'.counter.Some? ==> s'.counter.value.expiresAt <= s'.now + s.budget.windowMilliseconds
    decreases |events|
  {
    if events != [] {
      ExpiryIsNear(Step(s, events[0]), events[1..]);
    }
  }

  // ---------------------------------------------------------------- a window by the clock

  /**
    An attempt to reserve at a time without a counter opens a window that lasts exactly its configured
    length: whatever is reserved, refused or given back, the counter stays live until then and is gone
    from then on, unless a later attempt opens a window of its own.
   */
  lemma WindowLastsExactly(s: State, open: Event, events: seq<Event>)
    requires !IsLive(s.counter, s.now) && s.budget.windowMilliseconds > 0
    requires open.LoseReply? || (open.Reserve? && open.send !in s.inFlight)
    ensures var s' := Run(Step(s, open), events);
      && s'.windows > s.windows
      && (s'.windows == s.windows + 1 ==>
            (IsLive(s'.counter, s'.now) <==> s'.now < s.now + s.budget.windowMilliseconds))
      && (s'.now < s.now + s.budget.windowMilliseconds ==> s'.windows == s.windows + 1)
  {
    OpenWindowLasts(Step(s, open), events, s.now + s.budget.windowMilliseconds);
  }

  lemma {:induction false} OpenWindowLasts(s: State, events: seq<Event>, end: nat)
    requires s.counter.Some? && s.counter.value.expiresAt == end
    ensures var s' := Run(s, events);
      && s'.windows >= s.windows && s'.counter.Some? && s'.counter.value.expiresAt >= end && s'.now >= s.now
      && (s'.windows == s.windows ==> s'.counter.value.expiresAt == end)
      && (s'.now < end ==> s'.windows == s.windows)
    decreases |events|
  {
    if events != [] {
      var s1 := Step(s, events[0]);
      assert s1.windows > s.windows ==> s.now >= end;
      OpenWindowLasts(s1, events[1..], s1.counter.value.expiresAt);
    }
  }

  /** The sends granted, and those given back, by steps of the run before the moment `until`. */
  function GrantsBefore(s: State, events: seq<Event>, until: nat): nat
    decreases |events|
  {
    if events == [] then 0
    else
      var e := events[0];
      var s' := Step(s, e);
      (if s.now < until && e.Reserve? && e.send !in s.inFlight && e.send in s'.inFlight then 1 else 0)
      + GrantsBefore(s', events[1..], until)
  }

  function GiveBacksBefore(s: State, events: seq<Event>, until: nat): nat
    decreases |events|
  {
    if events == [] then 0
    else
      var e := events[0];
      (if s.now < until && e.Fail? && e.isReleased && e.send in s.inFlight then 1 else 0)
      + GiveBacksBefore(Step(s, e), events[1..], until)
  }

  lemma {:induction false} NothingIsBefore(s: State, events: seq<Event>, until: nat)
    requires s.now >= until
    ensures GrantsBefore(s, events, until) == 0
    decreases |events|
  {
    if events != [] {
      NothingIsBefore(Step(s, events[0]), events[1..], until);
    }
  }

  lemma {:induction false} RemainingBudget(s: State, events: seq<Event>)
    requires IsLive(s.counter, s.now)
    ensures var counter := s.counter.value;
      GrantsBefore(s, events, counter.expiresAt) <=
        (if counter.value < s.budget.limit then s.budget.limit - counter.value else 0)
        + GiveBacksBefore(s, events, counter.expiresAt)
    decreases |events|
  {
    if events != [] {
      var s' := Step(s, events[0]);
      if s'.now < s.counter.value.expiresAt {
        RemainingBudget(s', events[1..]);
      } else {
        NothingIsBefore(s', events[1..], s.counter.value.expiresAt);
      }
    }
  }

  /**
    By the clock: from the moment a window opens until its configured length has passed, no more sends
    are granted than the limit and the sends given back meanwhile, in every interleaving.
   */
  lemma GrantsAreBoundedByTheClock(s: State, events: seq<Event>)
    requires !IsLive(s.counter, s.now) && s.budget.windowMilliseconds > 0 && events != []
    requires events[0].LoseReply? || (events[0].Reserve? && events[0].send !in s.inFlight)
    ensures var until := s.now + s.budget.windowMilliseconds;
      GrantsBefore(s, events, until) <= s.budget.limit + GiveBacksBefore(s, events, until)
  {
    var s' := Step(s, events[0]);
    assert s'.counter == Some(Counter(1, s.now + s.budget.windowMilliseconds));
    RemainingBudget(s', events[1..]);
  }
}
