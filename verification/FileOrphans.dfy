/**
  Which stored objects can be lost: left in storage for good with no row to name them, no upload to
  remove them and no cleanup run that still holds them.
 */
module FileOrphans {
  import opened Prelude
  import opened FileAssets
  import opened FileRuns
  import opened FileSafety

  // ---------------------------------------------------------------- lost, and at risk

  /** No row names the object, no upload is still to act on it, no cleanup run still holds its item. */
  ghost predicate IsAbandoned(s: State, id: FileId) {
    && id in s.uploads && s.uploads[id].key in s.objects && id !in s.rows && !s.uploads[id].phase.IsInFlight()
    && forall c <- s.cleaners, item <- s.cleaners[c].todo :: item.id != id
  }

  /** A cleanup run has deleted the object of its first item, `id`, and is about to delete its row. */
  ghost predicate IsBetweenDeletes(s: State, c: Process, id: FileId) {
    c in s.cleaners && s.cleaners[c].stage.RowNext? && s.cleaners[c].todo != [] && s.cleaners[c].todo[0].id == id
  }

  /** The row is gone, or about to go without another look at the object. */
  ghost predicate IsAtRisk(s: State, id: FileId) {
    id !in s.rows || exists c :: IsBetweenDeletes(s, c, id)
  }

  lemma AbandonedHasNoCleaner(s: State, e: Event, id: FileId)
    requires Inv(s) && IsAbandoned(s, id)
    ensures forall c <- Step(s, e).cleaners, item <- Step(s, e).cleaners[c].todo :: item.id != id
  {
    var s' := Step(s, e);
    forall c <- s'.cleaners, item <- s'.cleaners[c].todo
      ensures item.id != id
    {
      if e.FetchBatch? && c == e.c && s' != s {
        assert HasStatus(s.rows, item.id, Deleting);
      }
    }
  }

  lemma AbandonedObjectStays(s: State, e: Event, id: FileId)
    requires Inv(s) && IsAbandoned(s, id)
    ensures id in Step(s, e).uploads && Step(s, e).uploads[id] == s.uploads[id] && s.uploads[id].key in Step(s, e).objects
  {
    assert UploadSound(s, id);
    if e.IsCleanerStep() && e.c in s.cleaners && s.cleaners[e.c].todo != [] {
      assert s.cleaners[e.c].todo[0] in s.cleaners[e.c].todo;
    }
  }

  lemma AbandonedStaysOneStep(s: State, e: Event, id: FileId)
    requires Inv(s) && IsAbandoned(s, id)
    ensures IsAbandoned(Step(s, e), id) && Step(s, e).uploads[id] == s.uploads[id]
  {
    RankNeverFalls(s, e, id);
    AbandonedObjectStays(s, e, id);
    AbandonedHasNoCleaner(s, e, id);
  }

  /** An abandoned object is never removed. */
  lemma {:induction false} AbandonedForever(s: State, events: seq<Event>, id: FileId)
    requires Inv(s) && IsAbandoned(s, id)
    ensures IsAbandoned(Run(s, events), id) && Run(s, events).uploads[id] == s.uploads[id]
    decreases |events|
  {
    if events != [] {
      AbandonedStaysOneStep(s, events[0], id);
      StepKeepsInv(s, events[0]);
      AbandonedForever(Step(s, events[0]), events[1..], id);
    }
  }

  // ---------------------------------------------------------------- what is not at risk stays so

  /** The put is over, and an object it left has its row and will be deleted before it. */
  ghost predicate IsCovered(s: State, id: FileId) {
    && id in s.uploads && !s.uploads[id].phase.Recorded?
    && (s.uploads[id].key in s.objects ==> !IsAtRisk(s, id))
  }

  lemma PutAddsItsOwnObject(s: State, e: Event, key: StorageKey)
    requires e.Put? && key in Step(s, e).objects && key !in s.objects
    ensures e.id in s.uploads && s.uploads[e.id].key == key && s.uploads[e.id].phase.Recorded?
  {
  }

  lemma StepAddsNoObject(s: State, e: Event, id: FileId)
    requires Inv(s) && id in s.uploads && !s.uploads[id].phase.Recorded?
    ensures id in Step(s, e).uploads && !Step(s, e).uploads[id].phase.Recorded?
    ensures Step(s, e).uploads[id].key == s.uploads[id].key
    ensures s.uploads[id].key in Step(s, e).objects ==> s.uploads[id].key in s.objects
  {
    if e.Put? && s.uploads[id].key in Step(s, e).objects && s.uploads[id].key !in s.objects {
      PutAddsItsOwnObject(s, e, s.uploads[id].key);
    }
  }

  lemma CoveredRowStays(s: State, e: Event, id: FileId)
    requires ExpiryWhenReady(s.rows) && id in s.rows && !IsAtRisk(s, id)
    ensures id in Step(s, e).rows
  {
    if e.DeleteRow? && e.c in s.cleaners {
      assert !IsBetweenDeletes(s, e.c, id);
    } else if e.IsUpdate() {
      UpdateMovesRows(s.rows, s.now, e);
    }
  }

  lemma CoveredIsNotBetweenDeletes(s: State, e: Event, id: FileId, c: Process)
    requires Inv(s) && IsCovered(s, id) && s.uploads[id].key in Step(s, e).objects && s.uploads[id].key in s.objects
    ensures !IsBetweenDeletes(Step(s, e), c, id)
  {
    assert !IsBetweenDeletes(s, c, id);
    if e.DeleteObject? && e.c in s.cleaners && s.cleaners[e.c].todo != [] {
      assert s.cleaners[e.c].todo[0] in s.cleaners[e.c].todo;
    }
  }

  lemma StepKeepsCovered(s: State, e: Event, id: FileId)
    requires Inv(s) && IsCovered(s, id)
    ensures IsCovered(Step(s, e), id)
  {
    StepAddsNoObject(s, e, id);
    if s.uploads[id].key in Step(s, e).objects {
      CoveredRowStays(s, e, id);
      forall c
        ensures !IsBetweenDeletes(Step(s, e), c, id)
      {
        CoveredIsNotBetweenDeletes(s, e, id, c);
      }
    }
  }

  /** An object that is not at risk has its row for as long as it is stored, whatever dies or fails. */
  lemma {:induction false} CoveredStaysCovered(s: State, events: seq<Event>, id: FileId)
    requires Inv(s) && IsCovered(s, id)
    ensures IsCovered(Run(s, events), id)
    decreases |events|
  {
    if events != [] {
      StepKeepsCovered(s, events[0], id);
      StepKeepsInv(s, events[0]);
      CoveredStaysCovered(Step(s, events[0]), events[1..], id);
    }
  }

  // ---------------------------------------------------------------- what is at risk can be lost

  /** Nobody dies, no delete fails, and a cleanup run stops only between two files. */
  ghost predicate IsHealthy(s: State, e: Event) {
    && !e.Die? && (e.Compensate? || e.DeleteObject? ==> e.isOk)
    && (e.StopCleaner? && e.c in s.cleaners ==> s.cleaners[e.c].stage.ObjectNext? || s.cleaners[e.c].todo == [])
  }

  ghost predicate IsHealthyRun(s: State, events: seq<Event>)
    decreases |events|
  {
    events != [] ==> IsHealthy(s, events[0]) && IsHealthyRun(Step(s, events[0]), events[1..])
  }

  lemma {:induction false} HealthyConcat(s: State, one: seq<Event>, two: seq<Event>)
    requires IsHealthyRun(s, one) && IsHealthyRun(Run(s, one), two)
    ensures IsHealthyRun(s, one + two)
    decreases |one|
  {
    if one == [] {
      assert one + two == two;
    } else {
      assert (one + two)[1..] == one[1..] + two;
      HealthyConcat(Step(s, one[0]), one[1..], two);
    }
  }

  lemma HealthyThen(s: State, e: Event, later: seq<Event>)
    requires IsHealthy(s, e) && IsHealthyRun(Step(s, e), later)
    ensures IsHealthyRun(s, [e] + later)
  {
    assert ([e] + later)[1..] == later;
  }

  lemma RunThen(s: State, e: Event, later: seq<Event>)
    ensures Run(s, [e] + later) == Run(Step(s, e), later)
  {
    assert ([e] + later)[1..] == later;
  }

  /** All that keeps the object from being lost is cleanup runs that may still hold it. */
  ghost predicate IsUnnamed(s: State, id: FileId) {
    id in s.uploads && s.uploads[id].key in s.objects && id !in s.rows && s.uploads[id].phase.Ended?
  }

  /** A cleanup run between two files stops. */
  lemma IdleCleanerStops(s: State, c: Process, id: FileId) returns (later: seq<Event>)
    requires Inv(s) && IsUnnamed(s, id) && c in s.cleaners
    requires s.cleaners[c].stage.ObjectNext? || s.cleaners[c].todo == []
    ensures IsHealthyRun(s, later) && Inv(Run(s, later)) && IsUnnamed(Run(s, later), id)
    ensures Run(s, later).cleaners == s.cleaners - {c}
  {
    var stop := StopCleaner(c);
    StepKeepsInv(s, stop);
    RunThen(s, stop, []);
    HealthyThen(s, stop, []);
    later := [stop] + [];
  }

  /** Any other finishes the file it is at first. */
  lemma CleanerStops(s: State, c: Process, id: FileId) returns (later: seq<Event>)
    requires Inv(s) && IsUnnamed(s, id) && c in s.cleaners
    ensures IsHealthyRun(s, later) && Inv(Run(s, later)) && IsUnnamed(Run(s, later), id)
    ensures Run(s, later).cleaners == s.cleaners - {c}
  {
    if s.cleaners[c].stage.ObjectNext? || s.cleaners[c].todo == [] {
      later := IdleCleanerStops(s, c, id);
    } else {
      var finish := if s.cleaners[c].stage.RowNext? then DeleteRow(c, false) else CountFailure(c);
      FileIsFinished(s, c, id);
      StepKeepsInv(s, finish);
      var rest := IdleCleanerStops(Step(s, finish), c, id);
      RunThen(s, finish, rest);
      HealthyThen(s, finish, rest);
      later := [finish] + rest;
    }
  }

  lemma FileIsFinished(s: State, c: Process, id: FileId)
    requires Inv(s) && IsUnnamed(s, id) && c in s.cleaners && s.cleaners[c].todo != [] && !s.cleaners[c].stage.ObjectNext?
    ensures var s' := Step(s, if s.cleaners[c].stage.RowNext? then DeleteRow(c, false) else CountFailure(c));
      IsUnnamed(s', id) && s'.cleaners == s.cleaners[c := Cleaner(s.cleaners[c].todo[1..], ObjectNext)]
  {
  }

  lemma {:induction false} CleanersStop(s: State, id: FileId) returns (later: seq<Event>)
    requires Inv(s) && IsUnnamed(s, id)
    ensures IsHealthyRun(s, later) && IsAbandoned(Run(s, later), id)
    decreases s.cleaners.Keys
  {
    if s.cleaners == map[] {
      later := [];
    } else {
      var c :| c in s.cleaners;
      var first := CleanerStops(s, c, id);
      var s' := Run(s, first);
      assert s'.cleaners.Keys == s.cleaners.Keys - {c};
      var rest := CleanersStop(s', id);
      RunConcat(s, first, rest);
      HealthyConcat(s, first, rest);
      later := first + rest;
    }
  }

  lemma EndedAtRiskIsLost(s: State, id: FileId) returns (later: seq<Event>)
    requires Inv(s) && id in s.uploads && s.uploads[id].phase.Ended? && s.uploads[id].key in s.objects && IsAtRisk(s, id)
    ensures IsHealthyRun(s, later) && IsAbandoned(Run(s, later), id)
  {
    if id !in s.rows {
      later := CleanersStop(s, id);
    } else {
      var c :| IsBetweenDeletes(s, c, id);
      assert s.cleaners[c].todo[0] in s.cleaners[c].todo;
      var remove := DeleteRow(c, false);
      StepKeepsInv(s, remove);
      var rest := CleanersStop(Step(s, remove), id);
      RunThen(s, remove, rest);
      HealthyThen(s, remove, rest);
      later := [remove] + rest;
    }
  }

  /** The upload's own end leaves its object, and the risk it is at, as they were. */
  lemma EndingKeepsTheRisk(s: State, e: Event, id: FileId)
    requires Inv(s) && id in s.uploads && s.uploads[id].key in s.objects && IsAtRisk(s, id)
    requires (e == Die(id) && s.uploads[id].phase.IsInFlight()) || (e == ReleaseFailed(id) && s.uploads[id].phase.PutFailed?)
    ensures var s' := Step(s, e);
      && Inv(s') && id in s'.uploads && s'.uploads[id].phase.Ended? && s'.uploads[id].key in s'.objects
      && IsAtRisk(s', id)
  {
    StepKeepsInv(s, e);
    if id in s.rows {
      var c :| IsBetweenDeletes(s, c, id);
      assert IsBetweenDeletes(Step(s, e), c, id);
    }
  }

  // ---------------------------------------------------------------- exactly when

  ghost predicate CanBeLost(s: State, id: FileId) {
    exists later :: IsAbandoned(Run(s, later), id)
  }

  ghost predicate CanBeLostInHealth(s: State, id: FileId) {
    exists later :: IsHealthyRun(s, later) && IsAbandoned(Run(s, later), id)
  }

  lemma CompletedIsNotAtRisk(s: State, id: FileId)
    requires Inv(s) && id in s.uploads && s.uploads[id].key in s.objects && IsAtRisk(s, id)
    ensures s.uploads[id].phase.MayStrandObject()
  {
    assert UploadSound(s, id);
    if id in s.rows {
      var c :| IsBetweenDeletes(s, c, id);
      assert s.cleaners[c].todo[0] in s.cleaners[c].todo;
    }
  }

  /**
    A stored object can be lost exactly when its row is gone or a cleanup run stands between the two
    deletes of its file. As long as neither is so, it has a row that outlives it.
   */
  lemma LossIsExact(s: State, id: FileId)
    requires Reachable(s) && id in s.uploads && s.uploads[id].key in s.objects
    ensures CanBeLost(s, id) <==> IsAtRisk(s, id)
  {
    ReachableInv(s);
    assert UploadSound(s, id);
    if IsAtRisk(s, id) {
      CompletedIsNotAtRisk(s, id);
      if s.uploads[id].phase.Ended? {
        var later := EndedAtRiskIsLost(s, id);
      } else {
        EndingKeepsTheRisk(s, Die(id), id);
        var rest := EndedAtRiskIsLost(Step(s, Die(id)), id);
        RunThen(s, Die(id), rest);
      }
    } else {
      forall later
        ensures !IsAbandoned(Run(s, later), id)
      {
        CoveredStaysCovered(s, later, id);
      }
    }
  }

  /** The object is gone, or its upload is still to remove it because its row was released. */
  ghost predicate IsBeingRemoved(s: State, id: FileId) {
    && id in s.uploads && !s.uploads[id].phase.Recorded?
    && (s.uploads[id].key in s.objects ==>
          (s.uploads[id].phase.Stored? || s.uploads[id].phase.Superseded?) && IsReleased(s.rows, id))
  }

  lemma HealthyStepKeepsRemoving(s: State, e: Event, id: FileId)
    requires Inv(s) && IsBeingRemoved(s, id) && IsHealthy(s, e)
    ensures IsBeingRemoved(Step(s, e), id)
  {
    StepAddsNoObject(s, e, id);
    if s.uploads[id].key in Step(s, e).objects {
      RankNeverFalls(s, e, id);
    }
  }

  lemma {:induction false} HealthyRunKeepsRemoving(s: State, events: seq<Event>, id: FileId)
    requires Inv(s) && IsBeingRemoved(s, id) && IsHealthyRun(s, events)
    ensures IsBeingRemoved(Run(s, events), id)
    decreases |events|
  {
    if events != [] {
      HealthyStepKeepsRemoving(s, events[0], id);
      StepKeepsInv(s, events[0]);
      HealthyRunKeepsRemoving(Step(s, events[0]), events[1..], id);
    }
  }

  /**
    With nobody dying and no delete failing, exactly the objects of failed puts, and those of uploads
    already over, are lost: for them the risk is enough. The compensating delete accounts for the rest.
   */
  lemma HealthyLossIsExact(s: State, id: FileId)
    requires Reachable(s) && id in s.uploads && s.uploads[id].key in s.objects
    ensures CanBeLostInHealth(s, id) <==> IsAtRisk(s, id) && (s.uploads[id].phase.PutFailed? || s.uploads[id].phase.Ended?)
  {
    ReachableInv(s);
    assert UploadSound(s, id);
    if !IsAtRisk(s, id) {
      LossIsExact(s, id);
    } else {
      CompletedIsNotAtRisk(s, id);
      if s.uploads[id].phase.Ended? {
        var later := EndedAtRiskIsLost(s, id);
      } else if s.uploads[id].phase.PutFailed? {
        var release := ReleaseFailed(id);
        EndingKeepsTheRisk(s, release, id);
        var rest := EndedAtRiskIsLost(Step(s, release), id);
        RunThen(s, release, rest);
        HealthyThen(s, release, rest);
      } else {
        AtRiskIsReleased(s, id);
        forall later | IsHealthyRun(s, later)
          ensures !IsAbandoned(Run(s, later), id)
        {
          HealthyRunKeepsRemoving(s, later, id);
        }
      }
    }
  }

  lemma AtRiskIsReleased(s: State, id: FileId)
    requires Inv(s) && IsAtRisk(s, id)
    ensures IsReleased(s.rows, id)
  {
    if id in s.rows {
      var c :| IsBetweenDeletes(s, c, id);
      assert s.cleaners[c].todo[0] in s.cleaners[c].todo;
    }
  }

  /**
    A failed put that left an object: the release that follows covers it exactly when, before it, the
    row stands and no cleanup run is between the two deletes of the file.
   */
  lemma FailedPutIsCoveredExactly(s: State, id: FileId)
    requires Reachable(s) && id in s.uploads && s.uploads[id].phase.PutFailed? && s.uploads[id].key in s.objects
    ensures CanBeLostInHealth(Step(s, ReleaseFailed(id)), id) <==> IsAtRisk(s, id)
  {
    var s' := Then(s, ReleaseFailed(id));
    ReachableInv(s);
    HealthyLossIsExact(s', id);
    if IsAtRisk(s, id) {
      EndingKeepsTheRisk(s, ReleaseFailed(id), id);
    } else {
      StepKeepsCovered(s, ReleaseFailed(id), id);
    }
  }

  // ---------------------------------------------------------------- only a late put orphans an object

  lemma ObjectsComeFromPuts(s: State, e: Event, id: FileId)
    requires Inv(s) && !(id in s.uploads && s.uploads[id].key in s.objects)
    requires id in Step(s, e).uploads && Step(s, e).uploads[id].key in Step(s, e).objects
    ensures e.Put? && e.id == id
  {
  }

  /** An object at risk was at risk the moment its put wrote it. */
  lemma {:induction false} RiskBeginsAtThePut(s: State, events: seq<Event>, id: FileId) returns (n: nat)
    requires Inv(s) && !(id in s.uploads && s.uploads[id].key in s.objects)
    requires var final := Run(s, events);
      id in final.uploads && final.uploads[id].key in final.objects && IsAtRisk(final, id)
    ensures n < |events| && events[n].Put? && events[n].id == id && IsAtRisk(Run(s, events[..n + 1]), id)
    decreases |events|
  {
    var s1 := Step(s, events[0]);
    StepKeepsInv(s, events[0]);
    if id in s1.uploads && s1.uploads[id].key in s1.objects {
      ObjectsComeFromPuts(s, events[0], id);
      assert UploadSound(s1, id);
      if !IsAtRisk(s1, id) {
        CoveredStaysCovered(s1, events[1..], id);
        assert false;
      }
      n := 0;
      assert events[..1] == [events[0]] + [];
      RunThen(s, events[0], []);
    } else {
      var m := RiskBeginsAtThePut(s1, events[1..], id);
      n := m + 1;
      assert events[..n + 1] == [events[0]] + events[1..][..m + 1];
      RunThen(s, events[0], events[1..][..m + 1]);
    }
  }

  /**
    Every stored object is its own row's and not at risk, or its put wrote it when the row was gone or a
    cleanup run stood between the file's two deletes, and its upload is still in flight, or died, or
    failed to remove it, or released a failed put once the row was no longer processing.
   */
  lemma NoOtherOrphans(events: seq<Event>, key: StorageKey) returns (id: FileId, n: nat)
    requires key in Run(INITIAL, events).objects
    ensures var s := Run(INITIAL, events);
      && id in s.uploads && s.uploads[id].key == key
      && (|| (id in s.rows && s.rows[id].storageKey == key && !IsAtRisk(s, id))
          || (&& n < |events| && events[n].Put? && events[n].id == id && IsAtRisk(Run(INITIAL, events[..n + 1]), id)
              && s.uploads[id].phase.MayStrandObject()))
  {
    var s := Run(INITIAL, events);
    InitialInv();
    RunKeepsInv(INITIAL, events);
    assert key in KeysOf(s.uploads);
    id :| id in s.uploads && s.uploads[id].key == key;
    n := 0;
    if IsAtRisk(s, id) {
      CompletedIsNotAtRisk(s, id);
      n := RiskBeginsAtThePut(INITIAL, events, id);
    }
  }

  // ---------------------------------------------------------------- such orphans are reachable

  lemma Then(s: State, e: Event) returns (s': State)
    requires Reachable(s)
    ensures Reachable(s') && s' == Step(s, e)
  {
    var events :| Run(INITIAL, events) == s;
    RunAppend(INITIAL, events, e);
    s' := Step(s, e);
  }

  const STALLED_ROW := FileRow(2, Document, 7, Deleting, 0, None, None, 0)

  /**
    The orphan is real: an upload stalls past the stale limit, its row is claimed and removed, and
    only then does its put fail after writing the object. Nothing died and no delete failed.
   */
  lemma FailedPutLeavesAnOrphan() returns (s: State)
    ensures Reachable(s) && IsAbandoned(s, 1) && s.uploads == map[1 := Upload(7, Ended(ReleasedTooLate))]
  {
    s := StalledRowIsClaimed();
    s := StalledRowIsRemoved(s);
    s := Then(s, Put(1, false, true));
    assert s.uploads == map[1 := Upload(7, PutFailed)] && s.objects == {7};
    s := Then(s, ReleaseFailed(1));
  }

  lemma StalledRowIsClaimed() returns (s: State)
    ensures Reachable(s)
    ensures s == State(STALE_PROCESSING_MILLISECONDS + 1, map[1 := STALLED_ROW], {}, map[1 := Upload(7, Recorded)], map[])
  {
    s := StalledUpload();
    s := Then(s, Tick(STALE_PROCESSING_MILLISECONDS + 1));
    s := Then(s, ClaimFiles);
    assert s.rows == map[1 := STALLED_ROW];
  }

  lemma StalledUpload() returns (s: State)
    ensures Reachable(s)
    ensures s == State(0, map[1 := STALLED_ROW.(status := Processing)], {}, map[1 := Upload(7, Recorded)], map[])
  {
    assert Run(INITIAL, []) == INITIAL;
    s := Then(INITIAL, BeginUpload(1, 2, Document, 7));
  }

  lemma StalledRowIsRemoved(s0: State) returns (s: State)
    requires Reachable(s0) && s0.rows == map[1 := STALLED_ROW] && s0.objects == {} && s0.cleaners == map[]
    requires s0.uploads == map[1 := Upload(7, Recorded)]
    ensures Reachable(s) && s == s0.(rows := map[], cleaners := map[0 := Cleaner([], ObjectNext)])
  {
    s := StalledRowIsFetched(s0);
    s := Then(s, DeleteObject(0, true, true));
    assert s == s0.(cleaners := map[0 := Cleaner([Item(1, 7)], RowNext)]);
    s := Then(s, DeleteRow(0, false));
    assert [Item(1, 7)][1..] == [];
  }

  lemma StalledRowIsFetched(s0: State) returns (s: State)
    requires Reachable(s0) && s0.rows == map[1 := STALLED_ROW] && s0.cleaners == map[]
    ensures Reachable(s) && s == s0.(cleaners := map[0 := Cleaner([Item(1, 7)], ObjectNext)])
  {
    var batch := [1];
    assert ItemsOf(s0.rows, batch) == [Item(1, 7)] by {
      assert batch[1..] == [];
      assert ItemsOf(s0.rows, []) == [];
    }
    s := Then(s0, FetchBatch(0, batch));
  }

  /**
    A standing row is no cover between a cleanup run's two deletes: the object is deleted before the
    put writes it, the row after the release has left it as it was.
   */
  lemma StandingRowDoesNotCover() returns (s: State, final: State)
    ensures Reachable(s) && 1 in s.rows && s.uploads == map[1 := Upload(7, PutFailed)] && s.objects == {7}
    ensures final == Step(Step(s, ReleaseFailed(1)), DeleteRow(0, false)) && Reachable(final) && IsAbandoned(final, 1)
  {
    s := StalledRowIsClaimed();
    s := StalledRowIsFetched(s);
    s := Then(s, DeleteObject(0, true, true));
    assert s.cleaners == map[0 := Cleaner([Item(1, 7)], RowNext)] && s.rows == map[1 := STALLED_ROW];
    s := Then(s, Put(1, false, true));
    RowGoesAfterTheRelease(s);
    final := Then(s, ReleaseFailed(1));
    final := Then(final, DeleteRow(0, false));
  }

  lemma RowGoesAfterTheRelease(s: State)
    requires s.rows == map[1 := STALLED_ROW] && s.cleaners == map[0 := Cleaner([Item(1, 7)], RowNext)]
    requires s.uploads == map[1 := Upload(7, PutFailed)] && s.objects == {7}
    ensures IsAbandoned(Step(Step(s, ReleaseFailed(1)), DeleteRow(0, false)), 1)
  {
    var released := s.(uploads := map[1 := Upload(7, Ended(ReleasedTooLate))]);
    assert Step(s, ReleaseFailed(1)) == released;
    assert [Item(1, 7)][1..] == [];
  }
}
