/** How stale served grants can be, after each kind of invalidation, over every run. */
module GrantsCacheSafety {
  import opened Prelude
  import opened GrantsCache

  // ---------------------------------------------------------------- the invariant

  /** `epoch` is what the epoch was at step `at`. */
  ghost predicate SawEpoch(bumps: seq<nat>, epoch: nat, at: nat) {
    && epoch <= |bumps|
    && (forall k :: 0 <= k < epoch ==> bumps[k] < at)
    && (forall k :: epoch <= k < |bumps| ==> bumps[k] >= at)
  }

  ghost predicate EntrySound(bumps: seq<nat>, now: nat, timeToLive: nat, epoch: nat, entry: Entry) {
    && epoch <= |bumps| && (forall k :: 0 <= k < epoch ==> bumps[k] < entry.snapshot.order)
    && entry.snapshot.takenAt <= entry.writtenAt <= now && entry.expiresAt == entry.writtenAt + timeToLive
  }

  ghost predicate LoadSound(bumps: seq<nat>, order: nat, now: nat, load: Load) {
    && load.askedAt < order
    && (load.EpochKnown? || load.Missed? || load.Fetched? ==> SawEpoch(bumps, load.epoch, load.askedAt))
    && (load.Fetched? ==> load.askedAt < load.snapshot.order && load.snapshot.takenAt <= now)
    && (load.Served? ==> SeesBumpsBefore(bumps, load.askedAt, load.snapshot))
  }

  /** Every increment before step `at` is before the snapshot as well. */
  ghost predicate SeesBumpsBefore(bumps: seq<nat>, at: nat, snapshot: Snapshot) {
    forall k :: 0 <= k < |bumps| && bumps[k] < at ==> bumps[k] < snapshot.order
  }

  ghost predicate Inv(s: State) {
    && (forall k :: 0 <= k < |s.bumps| ==> s.bumps[k] < s.order)
    && (forall key <- s.cache :: EntrySound(s.bumps, s.now, s.timeToLive, key.epoch, s.cache[key]))
    && (forall p <- s.loads :: LoadSound(s.bumps, s.order, s.now, s.loads[p]))
    && (forall p <- s.invalidations ::
          s.invalidations[p].askedAt < s.order && SawEpoch(s.bumps, s.invalidations[p].epoch, s.invalidations[p].askedAt))
  }

  function Initial(timeToLive: nat): State {
    State(0, 0, timeToLive, [], map[], map[], map[])
  }

  /** A load that does not move stays sound: an increment comes after everything it has seen. */
  lemma LoadStaysSound(s: State, e: Event, load: Load)
    requires LoadSound(s.bumps, s.order, s.now, load)
    ensures LoadSound(Step(s, e).bumps, s.order + 1, Step(s, e).now, load)
  {
  }

  lemma ReadCacheIsSound(s: State, e: Event)
    requires Inv(s) && e.ReadCache? && e.p in s.loads
    ensures LoadSound(s.bumps, s.order, s.now, Effect(s, e).loads[e.p])
  {
    var load := s.loads[e.p];
    if load.EpochKnown? {
      var key := CacheKey(load.epoch, load.userId);
      assert key in s.cache ==> EntrySound(s.bumps, s.now, s.timeToLive, key.epoch, s.cache[key]);
    }
  }

  lemma MovedLoadIsSound(s: State, e: Event, p: Process)
    requires Inv(s) && (e.BeginLoad? || e.ReadDatabase? || e.WriteCache?) && p == e.p && p in Effect(s, e).loads
    ensures LoadSound(s.bumps, s.order + 1, s.now, Effect(s, e).loads[p])
  {
    if p in s.loads {
      assert LoadSound(s.bumps, s.order, s.now, s.loads[p]);
    }
  }

  lemma StepKeepsLoads(s: State, e: Event, p: Process)
    requires Inv(s) && p in Step(s, e).loads
    ensures LoadSound(Step(s, e).bumps, s.order + 1, Step(s, e).now, Step(s, e).loads[p])
  {
    if (e.BeginLoad? || e.ReadDatabase? || e.WriteCache?) && p == e.p {
      MovedLoadIsSound(s, e, p);
    } else if e.ReadCache? && p == e.p {
      ReadCacheIsSound(s, e);
      LoadStaysSound(s, e, Effect(s, e).loads[p]);
    } else {
      LoadStaysSound(s, e, s.loads[p]);
    }
  }

  lemma StepKeepsEntries(s: State, e: Event, key: CacheKey)
    requires Inv(s) && key in Step(s, e).cache
    ensures EntrySound(Step(s, e).bumps, Step(s, e).now, s.timeToLive, key.epoch, Step(s, e).cache[key])
  {
    if e.WriteCache? && e.p in s.loads && s.loads[e.p].Fetched? && key == CacheKey(s.loads[e.p].epoch, s.loads[e.p].userId) {
      assert LoadSound(s.bumps, s.order, s.now, s.loads[e.p]);
    } else {
      assert EntrySound(s.bumps, s.now, s.timeToLive, key.epoch, s.cache[key]);
    }
  }

  lemma StepKeepsBumps(s: State, e: Event)
    requires Inv(s)
    ensures var s' := Step(s, e);
      && (forall k :: 0 <= k < |s'.bumps| ==> s'.bumps[k] < s'.order)
      && (forall p <- s'.invalidations ::
            s'.invalidations[p].askedAt < s'.order && SawEpoch(s'.bumps, s'.invalidations[p].epoch, s'.invalidations[p].askedAt))
  {
    if e.Bump? {
      assert forall p <- s.invalidations :: SawEpoch(s.bumps, s.invalidations[p].epoch, s.invalidations[p].askedAt);
    }
  }

  lemma StepKeepsInv(s: State, e: Event)
    requires Inv(s)
    ensures Inv(Step(s, e))
  {
    var s' := Step(s, e);
    StepKeepsBumps(s, e);
    forall key <- s'.cache
      ensures EntrySound(s'.bumps, s'.now, s'.timeToLive, key.epoch, s'.cache[key])
    {
      StepKeepsEntries(s, e, key);
    }
    forall p <- s'.loads
      ensures LoadSound(s'.bumps, s'.order, s'.now, s'.loads[p])
    {
      StepKeepsLoads(s, e, p);
    }
  }

  lemma {:induction false} RunKeepsInv(s: State, events: seq<Event>)
    requires Inv(s)
    ensures Inv(Run(s, events))
    decreases |events|
  {
    if events != [] {
      StepKeepsInv(s, events[0]);
      RunKeepsInv(Step(s, events[0]), events[1..]);
    }
  }

  // ---------------------------------------------------------------- whose grants

  /** Every entry, and every snapshot a load holds or served, is of the key's or the load's own user. */
  ghost predicate IsKeptApart(s: State) {
    && (forall key <- s.cache :: s.cache[key].snapshot.userId == key.userId)
    && (forall p <- s.loads :: s.loads[p].Fetched? || s.loads[p].Served? ==> s.loads[p].snapshot.userId == s.loads[p].userId)
  }

  lemma StepKeepsApart(s: State, e: Event)
    requires IsKeptApart(s)
    ensures IsKeptApart(Step(s, e))
  {
    var s' := Step(s, e);
    forall key <- s'.cache
      ensures s'.cache[key].snapshot.userId == key.userId
    {
      assert key in s.cache ==> s.cache[key].snapshot.userId == key.userId;
    }
    forall p <- s'.loads | s'.loads[p].Fetched? || s'.loads[p].Served?
      ensures s'.loads[p].snapshot.userId == s'.loads[p].userId
    {
      if p in s.loads && s.loads[p].EpochKnown? {
        var key := CacheKey(s.loads[p].epoch, s.loads[p].userId);
        assert key in s.cache ==> s.cache[key].snapshot.userId == key.userId;
      }
    }
  }

  lemma {:induction false} RunKeepsApart(s: State, events: seq<Event>)
    requires IsKeptApart(s)
    ensures IsKeptApart(Run(s, events))
    decreases |events|
  {
    if events != [] {
      StepKeepsApart(s, events[0]);
      RunKeepsApart(Step(s, events[0]), events[1..]);
    }
  }

  /** Nobody is ever served what the database held for another user, whatever fails or races. */
  lemma NobodyElsesGrants(timeToLive: nat, events: seq<Event>, p: Process)
    ensures var loads := Run(Initial(timeToLive), events).loads;
      p in loads && loads[p].Served? ==> loads[p].snapshot.userId == loads[p].userId
  {
    RunKeepsApart(Initial(timeToLive), events);
  }

  lemma {:induction false} TimeToLiveIsConstant(s: State, events: seq<Event>)
    ensures Run(s, events).timeToLive == s.timeToLive
    decreases |events|
  {
    if events != [] {
      TimeToLiveIsConstant(Step(s, events[0]), events[1..]);
    }
  }

  ghost predicate Reachable(s: State) {
    exists timeToLive, events :: timeToLive > 0 && Run(Initial(timeToLive), events) == s
  }

  lemma ReachableInv(s: State)
    requires Reachable(s)
    ensures Inv(s) && s.timeToLive > 0
  {
    var timeToLive, events :| timeToLive > 0 && Run(Initial(timeToLive), events) == s;
    RunKeepsInv(Initial(timeToLive), events);
    TimeToLiveIsConstant(Initial(timeToLive), events);
  }

  // ---------------------------------------------------------------- epoch coherence

  /**
    A load that read the epoch after an increment, or failed to, serves grants read from the
    database after that increment, whatever loads were in flight.
   */
  lemma EpochCoherence(s: State, p: Process, k: nat)
    requires Reachable(s) && p in s.loads && s.loads[p].Served?
    requires k < s.Epoch() && s.bumps[k] < s.loads[p].askedAt
    ensures s.bumps[k] < s.loads[p].snapshot.order
  {
    ReachableInv(s);
    assert LoadSound(s.bumps, s.order, s.now, s.loads[p]);
  }

  // ---------------------------------------------------------------- staleness without an increment

  /** Every load's cache write comes at most `delay` after its database read. */
  ghost predicate WritesArePrompt(s: State, events: seq<Event>, delay: nat)
    decreases |events|
  {
    events != [] ==>
      && (events[0].WriteCache? && events[0].p in s.loads && s.loads[events[0].p].Fetched? ==>
            s.now <= s.loads[events[0].p].snapshot.takenAt + delay)
      && WritesArePrompt(Step(s, events[0]), events[1..], delay)
  }

  /** Nothing cached or served is older than its bound. */
  ghost predicate IsFresh(s: State, delay: nat) {
    && (forall key <- s.cache :: s.cache[key].writtenAt <= s.cache[key].snapshot.takenAt + delay)
    && (forall p <- s.loads :: s.loads[p].Served? ==>
          s.loads[p].servedAt < s.loads[p].snapshot.takenAt + s.timeToLive + delay)
  }

  lemma StepKeepsFreshness(s: State, e: Event, delay: nat)
    requires Inv(s) && IsFresh(s, delay) && s.timeToLive > 0 && WritesArePrompt(s, [e], delay)
    ensures IsFresh(Step(s, e), delay)
  {
    var s' := Step(s, e);
    forall p <- s'.loads | s'.loads[p].Served?
      ensures s'.loads[p].servedAt < s'.loads[p].snapshot.takenAt + s'.timeToLive + delay
    {
      if e.ReadCache? && p == e.p && s.loads[p].EpochKnown? {
        var key := CacheKey(s.loads[p].epoch, s.loads[p].userId);
        assert EntrySound(s.bumps, s.now, s.timeToLive, key.epoch, s.cache[key]);
      }
    }
  }

  lemma {:induction false} RunKeepsFreshness(s: State, events: seq<Event>, delay: nat)
    requires Inv(s) && IsFresh(s, delay) && s.timeToLive > 0 && WritesArePrompt(s, events, delay)
    ensures IsFresh(Run(s, events), delay)
    decreases |events|
  {
    if events != [] {
      assert WritesArePrompt(s, [events[0]], delay);
      StepKeepsFreshness(s, events[0], delay);
      StepKeepsInv(s, events[0]);
      RunKeepsFreshness(Step(s, events[0]), events[1..], delay);
    }
  }

  /**
    Whatever invalidations fail or race, served grants are younger than the time to live plus the
    longest delay between a load's snapshot and its cache write.
   */
  lemma StalenessIsBounded(timeToLive: nat, events: seq<Event>, delay: nat, p: Process)
    requires timeToLive > 0 && WritesArePrompt(Initial(timeToLive), events, delay)
    ensures var s := Run(Initial(timeToLive), events);
      p in s.loads && s.loads[p].Served? ==> s.loads[p].servedAt < s.loads[p].snapshot.takenAt + timeToLive + delay
  {
    RunKeepsFreshness(Initial(timeToLive), events, delay);
    TimeToLiveIsConstant(Initial(timeToLive), events);
  }

  // ---------------------------------------------------------------- one user's invalidation

  /** The load holds, or has been served after starting from step `since` on, nothing read before step `at`. */
  ghost predicate LoadIsClean(load: Load, userId: UserId, epoch: nat, at: nat, since: nat) {
    load.userId == userId ==>
      && (load.Fetched? && load.epoch >= epoch ==> load.snapshot.order >= at)
      && (load.Served? && load.askedAt >= since ==> load.snapshot.order >= at)
  }

  /** Nothing that a load starting from step `since` on can be served was read before step `at`. */
  ghost predicate IsClean(s: State, userId: UserId, epoch: nat, at: nat, since: nat) {
    && at <= since <= s.order && SawEpoch(s.bumps, epoch, since)
    && (forall key <- s.cache :: key.userId == userId && key.epoch >= epoch ==> s.cache[key].snapshot.order >= at)
    && (forall p <- s.loads :: LoadIsClean(s.loads[p], userId, epoch, at, since))
  }

  lemma LaterSeesNoEarlierEpoch(bumps: seq<nat>, epoch: nat, at: nat, later: nat, laterAt: nat)
    requires SawEpoch(bumps, epoch, at) && SawEpoch(bumps, later, laterAt) && at <= laterAt
    ensures epoch <= later
  {
    var bump := if later < |bumps| then bumps[later] else 0;
  }

  lemma MovedLoadIsClean(s: State, e: Event, p: Process, userId: UserId, epoch: nat, at: nat, since: nat)
    requires Inv(s) && IsClean(s, userId, epoch, at, since) && p in Step(s, e).loads
    ensures LoadIsClean(Step(s, e).loads[p], userId, epoch, at, since)
  {
    if p in s.loads {
      assert LoadSound(s.bumps, s.order, s.now, s.loads[p]);
      assert LoadIsClean(s.loads[p], userId, epoch, at, since);
      if e.ReadCache? && s.loads[p].EpochKnown? && s.loads[p].askedAt >= since {
        LaterSeesNoEarlierEpoch(s.bumps, epoch, since, s.loads[p].epoch, s.loads[p].askedAt);
      }
    }
  }

  lemma StepKeepsClean(s: State, e: Event, userId: UserId, epoch: nat, at: nat, since: nat)
    requires Inv(s) && IsClean(s, userId, epoch, at, since)
    ensures IsClean(Step(s, e), userId, epoch, at, since)
  {
    var s' := Step(s, e);
    forall key <- s'.cache | key.userId == userId && key.epoch >= epoch
      ensures s'.cache[key].snapshot.order >= at
    {
      if e.WriteCache? && e.p in s.loads {
        assert LoadIsClean(s.loads[e.p], userId, epoch, at, since);
      }
    }
    forall p <- s'.loads
      ensures LoadIsClean(s'.loads[p], userId, epoch, at, since)
    {
      MovedLoadIsClean(s, e, p, userId, epoch, at, since);
    }
    assert SawEpoch(s'.bumps, epoch, since);
  }

  lemma {:induction false} RunKeepsClean(s: State, events: seq<Event>, userId: UserId, epoch: nat, at: nat, since: nat)
    requires Inv(s) && IsClean(s, userId, epoch, at, since)
    ensures IsClean(Run(s, events), userId, epoch, at, since)
    decreases |events|
  {
    if events != [] {
      StepKeepsClean(s, events[0], userId, epoch, at, since);
      StepKeepsInv(s, events[0]);
      RunKeepsClean(Step(s, events[0]), events[1..], userId, epoch, at, since);
    }
  }

  /** A load of the current epoch has read the database before step `at`, and not yet written. */
  ghost predicate HoldsOlderGrants(s: State, userId: UserId, at: nat) {
    exists p <- s.loads :: && s.loads[p].Fetched? && s.loads[p].userId == userId
      && s.loads[p].epoch == s.Epoch() && s.loads[p].snapshot.order < at
  }

  /** Some load that starts from step `since` on is served grants read before step `at`. */
  ghost predicate ServesOlderGrants(s: State, userId: UserId, at: nat, since: nat) {
    exists p <- s.loads :: && s.loads[p].Served? && s.loads[p].userId == userId
      && s.loads[p].askedAt >= since && s.loads[p].snapshot.order < at
  }

  ghost predicate NeverServesOlderGrants(s: State, userId: UserId, at: nat, since: nat) {
    forall later :: !ServesOlderGrants(Run(s, later), userId, at, since)
  }

  lemma DeletedKeyIsClean(s: State, p: Process)
    requires Inv(s) && p in s.invalidations && !HoldsOlderGrants(s, s.invalidations[p].userId, s.invalidations[p].askedAt)
    ensures var inval := s.invalidations[p];
      IsClean(Step(s, DeleteKey(p, true)), inval.userId, s.Epoch(), inval.askedAt, s.order + 1)
  {
    var Invalidation(userId, at, epoch) := s.invalidations[p];
    var s' := Step(s, DeleteKey(p, true));
    forall key <- s'.cache | key.userId == userId && key.epoch >= s.Epoch()
      ensures s'.cache[key].snapshot.order >= at
    {
      assert EntrySound(s.bumps, s.now, s.timeToLive, key.epoch, s.cache[key]);
      assert key != CacheKey(epoch, userId) && epoch < key.epoch;
      assert at <= s.bumps[epoch] < s.cache[key].snapshot.order;
    }
    forall q <- s'.loads
      ensures LoadIsClean(s.loads[q], userId, s.Epoch(), at, s.order + 1)
    {
      assert LoadSound(s.bumps, s.order, s.now, s.loads[q]);
    }
  }

  lemma HeldGrantsComeBack(s: State, userId: UserId, at: nat) returns (later: seq<Event>)
    requires Inv(s) && s.timeToLive > 0 && HoldsOlderGrants(s, userId, at)
    ensures ServesOlderGrants(Run(s, later), userId, at, s.order)
  {
    var p :| p in s.loads && s.loads[p].Fetched? && s.loads[p].userId == userId
      && s.loads[p].epoch == s.Epoch() && s.loads[p].snapshot.order < at;
    var q := FreshNumber(s.loads.Keys);
    var s1 := Step(s, WriteCache(p, true));
    var s2 := Step(s1, BeginLoad(q, userId, true));
    assert s2.loads[q] == EpochKnown(userId, s1.order, s.Epoch());
    var s3 := Step(s2, ReadCache(q, true));
    assert s3.loads[q] == Served(userId, s1.order, s.loads[p].snapshot, s.now, true);
    later := [WriteCache(p, true), BeginLoad(q, userId, true), ReadCache(q, true)];
    assert Run(s, later) == s3 by {
      assert later[1..] == [BeginLoad(q, userId, true), ReadCache(q, true)];
      assert later[1..][1..] == [ReadCache(q, true)];
      assert Run(s, later) == Run(s1, later[1..]) == Run(s2, later[1..][1..]);
      assert Run(s2, [ReadCache(q, true)]) == Run(s3, []);
    }
  }

  /**
    A user's invalidation whose DEL is carried out keeps older grants from every load that starts
    after it exactly when no load in flight at the DEL has already read the database and not yet
    written; otherwise that load can put the older grants back, until they expire.
   */
  lemma InvalidationIsExact(s: State, p: Process)
    requires Reachable(s) && p in s.invalidations
    ensures var inval := s.invalidations[p];
      var s' := Step(s, DeleteKey(p, true));
      NeverServesOlderGrants(s', inval.userId, inval.askedAt, s'.order) <==>
        !HoldsOlderGrants(s, inval.userId, inval.askedAt)
  {
    ReachableInv(s);
    var Invalidation(userId, at, _) := s.invalidations[p];
    var s' := Step(s, DeleteKey(p, true));
    StepKeepsInv(s, DeleteKey(p, true));
    if HoldsOlderGrants(s, userId, at) {
      var q :| q in s.loads && s.loads[q].Fetched? && s.loads[q].userId == userId
        && s.loads[q].epoch == s.Epoch() && s.loads[q].snapshot.order < at;
      assert s'.loads[q] == s.loads[q] && s'.Epoch() == s.Epoch();
      var later := HeldGrantsComeBack(s', userId, at);
      assert ServesOlderGrants(Run(s', later), userId, at, s'.order);
    } else {
      DeletedKeyIsClean(s, p);
      forall later
        ensures !ServesOlderGrants(Run(s', later), userId, at, s'.order)
      {
        RunKeepsClean(s', later, userId, s.Epoch(), at, s'.order);
        assert IsClean(Run(s', later), userId, s.Epoch(), at, s'.order);
      }
    }
  }

  /**
    The bound is reached although an invalidation was carried out after the snapshot: the load in
    flight wrote its grants back, and they are served until the last millisecond.
   */
  lemma StalenessBoundIsReached(timeToLive: nat, delay: nat, userId: UserId) returns (events: seq<Event>)
    requires timeToLive > 0
    ensures WritesArePrompt(Initial(timeToLive), events, delay)
    ensures Run(Initial(timeToLive), events).loads ==
      map[0 := Served(userId, 0, Snapshot(userId, 2, 0), delay, false),
          1 := Served(userId, 8, Snapshot(userId, 2, 0), delay + timeToLive - 1, true)]
  {
    var before := [BeginLoad(0, userId, true), ReadCache(0, true), ReadDatabase(0),
                   BeginInvalidation(0, userId, true), DeleteKey(0, true), Tick(delay)];
    var after := [WriteCache(0, true), Tick(timeToLive - 1), BeginLoad(1, userId, true), ReadCache(1, true)];
    var held := State(delay, 6, timeToLive, [], map[], map[0 := Fetched(userId, 0, 0, Snapshot(userId, 2, 0))], map[]);
    HeldGrants(timeToLive, delay, userId, before, held);
    HeldGrantsAge(timeToLive, delay, userId, after, held);
    events := before + after;
    RunConcat(Initial(timeToLive), before, after, delay);
  }

  lemma HeldGrants(timeToLive: nat, delay: nat, userId: UserId, events: seq<Event>, held: State)
    requires events == [BeginLoad(0, userId, true), ReadCache(0, true), ReadDatabase(0),
                        BeginInvalidation(0, userId, true), DeleteKey(0, true), Tick(delay)]
    requires held == State(delay, 6, timeToLive, [], map[], map[0 := Fetched(userId, 0, 0, Snapshot(userId, 2, 0))], map[])
    ensures WritesArePrompt(Initial(timeToLive), events, delay) && Run(Initial(timeToLive), events) == held
  {
    var s := Initial(timeToLive);
    var loading := State(0, 2, timeToLive, [], map[], map[0 := Missed(userId, 0, 0)], map[]);
    Unrolled(s, events, delay);
    assert Step(s, events[0]) == s.(order := 1, loads := map[0 := EpochKnown(userId, 0, 0)]);
    Unrolled(Step(s, events[0]), events[1..], delay);
    assert Step(Step(s, events[0]), events[1]) == loading;
    Unrolled(loading, events[2..], delay);
    var fetched := State(0, 3, timeToLive, [], map[], map[0 := Fetched(userId, 0, 0, Snapshot(userId, 2, 0))], map[]);
    assert Step(loading, events[2]) == fetched;
    Unrolled(fetched, events[3..], delay);
    var deleting := fetched.(order := 4, invalidations := map[0 := Invalidation(userId, 3, 0)]);
    assert Step(fetched, events[3]) == deleting;
    Unrolled(deleting, events[4..], delay);
    assert Step(deleting, events[4]) == fetched.(order := 5);
    Unrolled(fetched.(order := 5), events[5..], delay);
    assert Step(fetched.(order := 5), events[5]) == held && events[6..] == [];
  }

  lemma HeldGrantsAge(timeToLive: nat, delay: nat, userId: UserId, events: seq<Event>, held: State)
    requires timeToLive > 0
    requires events == [WriteCache(0, true), Tick(timeToLive - 1), BeginLoad(1, userId, true), ReadCache(1, true)]
    requires held == State(delay, 6, timeToLive, [], map[], map[0 := Fetched(userId, 0, 0, Snapshot(userId, 2, 0))], map[])
    ensures WritesArePrompt(held, events, delay)
    ensures Run(held, events).loads ==
      map[0 := Served(userId, 0, Snapshot(userId, 2, 0), delay, false),
          1 := Served(userId, 8, Snapshot(userId, 2, 0), delay + timeToLive - 1, true)]
  {
    var cache := map[CacheKey(0, userId) := Entry(Snapshot(userId, 2, 0), delay, delay + timeToLive)];
    var written := State(delay, 7, timeToLive, [], cache, map[0 := Served(userId, 0, Snapshot(userId, 2, 0), delay, false)], map[]);
    Unrolled(held, events, delay);
    assert Step(held, events[0]) == written;
    Unrolled(written, events[1..], delay);
    var aged := written.(now := delay + timeToLive - 1, order := 8);
    assert Step(written, events[1]) == aged;
    Unrolled(aged, events[2..], delay);
    var asked := aged.(order := 9, loads := aged.loads[1 := EpochKnown(userId, 8, 0)]);
    assert Step(aged, events[2]) == asked;
    Unrolled(asked, events[3..], delay);
    assert events[4..] == [];
  }

  lemma Unrolled(s: State, events: seq<Event>, delay: nat)
    requires events != []
    ensures Run(s, events) == Run(Step(s, events[0]), events[1..])
    ensures WritesArePrompt(Step(s, events[0]), events[1..], delay) && WritesArePrompt(s, [events[0]], delay)
      ==> WritesArePrompt(s, events, delay)
    ensures !events[0].WriteCache? ==> WritesArePrompt(s, [events[0]], delay)
  {
  }

  lemma {:induction false} RunConcat(s: State, before: seq<Event>, after: seq<Event>, delay: nat)
    requires WritesArePrompt(s, before, delay) && WritesArePrompt(Run(s, before), after, delay)
    ensures WritesArePrompt(s, before + after, delay)
    ensures Run(s, before + after) == Run(Run(s, before), after)
    decreases |before|
  {
    if before == [] {
      assert before + after == after;
    } else {
      assert (before + after)[1..] == before[1..] + after;
      RunConcat(Step(s, before[0]), before[1..], after, delay);
    }
  }
}
