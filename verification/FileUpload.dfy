/**
  `FilesService.upload` from its row to its answer, with whatever other requests and cleanup runs do
  at each of its awaits: the code is the steps of the run it stands for.
 */
module FileUpload {
  import opened Prelude
  import opened FileAssets
  import opened FileRuns

  datatype UploadError = ContentInvalid | StorageUnavailable | TookTooLong | RowGone

  /** What storage answered, and whether it carried the call out although it failed. */
  datatype Answer = Answer(isOk: bool, isDoneAnyway: bool)

  predicate IsOfOthers(e: Event, id: FileId) {
    !(e.IsUploadStep() && e.id == id)
  }

  /** What others do before the put, after it, and after the last update of the row. */
  datatype Meanwhile = Meanwhile(beforePut: seq<Event>, afterPut: seq<Event>, afterFinish: seq<Event>)
  {
    ghost predicate AreOfOthers(id: FileId) {
      && (forall e <- beforePut :: IsOfOthers(e, id))
      && (forall e <- afterPut :: IsOfOthers(e, id))
      && (forall e <- afterFinish :: IsOfOthers(e, id))
    }
  }

  /** The steps of one upload; those its course has no use for change nothing. */
  function Script(begin: Event, isProcessed: bool, put: Answer, timeToLive: nat, delete: Answer, others: Meanwhile)
    : seq<Event>
    requires begin.BeginUpload?
  {
    [begin] + others.beforePut
    + [if isProcessed then Put(begin.id, put.isOk, put.isDoneAnyway) else FailProcessing(begin.id)] + others.afterPut
    + [FinishUpload(begin.id, timeToLive)] + others.afterFinish
    + [Compensate(begin.id, delete.isOk, delete.isDoneAnyway)] + [ReleaseFailed(begin.id)]
  }

  /** The run of a script, piece by piece. */
  lemma ScriptRuns(s: State, e1: Event, others: Meanwhile, e2: Event, e3: Event, e4: Event, e5: Event)
    ensures Run(s, [e1] + others.beforePut + [e2] + others.afterPut + [e3] + others.afterFinish + [e4] + [e5])
         == Step(Step(Run(Step(Run(Step(Run(Step(s, e1), others.beforePut), e2), others.afterPut), e3),
                          others.afterFinish), e4), e5)
  {
    RunAppend(s, [], e1);
    assert [] + [e1] == [e1];
    RunConcat(s, [e1], others.beforePut);
    var upToPut := [e1] + others.beforePut;
    RunAppend(s, upToPut, e2);
    RunConcat(s, upToPut + [e2], others.afterPut);
    var upToFinish := upToPut + [e2] + others.afterPut;
    RunAppend(s, upToFinish, e3);
    RunConcat(s, upToFinish + [e3], others.afterFinish);
    var upToDelete := upToFinish + [e3] + others.afterFinish;
    RunAppend(s, upToDelete, e4);
    RunAppend(s, upToDelete + [e4], e5);
  }

  lemma {:induction false} OthersLeaveTheUpload(s: State, events: seq<Event>, id: FileId)
    requires id in s.uploads && forall e <- events :: IsOfOthers(e, id)
    ensures id in Run(s, events).uploads && Run(s, events).uploads[id] == s.uploads[id]
    decreases |events|
  {
    if events != [] {
      assert IsOfOthers(events[0], id);
      OthersLeaveTheUpload(Step(s, events[0]), events[1..], id);
    }
  }

  class FilesUpload {
    var state: State

    constructor (state: State)
      ensures this.state == state
    {
      this.state := state;
    }

    /** What everybody else does while this request awaits. */
    method Await(events: seq<Event>)
      modifies this
      ensures state == Run(old(state), events)
    {
      state := Run(state, events);
    }

    method RecordRow(begin: Event)
      requires begin.BeginUpload? && begin.id !in state.uploads
      requires forall other <- state.uploads :: state.uploads[other].key != begin.key
      modifies this
      ensures state == Step(old(state), begin) && begin.id in state.uploads
      ensures state.uploads[begin.id] == FileRuns.Upload(begin.key, Recorded)
      ensures state.rows == old(state.rows)[begin.id :=
        FileRow(begin.actor, begin.purpose, begin.key, Processing, old(state.now), None, None, 0)]
      ensures state.objects == old(state.objects)
    {
      var row := FileRow(begin.actor, begin.purpose, begin.key, Processing, state.now, None, None, 0);
      state := state.(rows := state.rows[begin.id := row],
                      uploads := state.uploads[begin.id := FileRuns.Upload(begin.key, Recorded)]);
    }

    method PutObject(id: FileId, put: Answer)
      requires id in state.uploads && state.uploads[id].phase.Recorded?
      modifies this
      ensures state == Step(old(state), Put(id, put.isOk, put.isDoneAnyway)) && id in state.uploads
      ensures state.uploads[id].phase == if put.isOk then Stored else PutFailed
      ensures state.rows == old(state.rows)
      ensures state.objects ==
        old(state.objects) + if put.isOk || put.isDoneAnyway then {old(state.uploads)[id].key} else {}
    {
      if put.isOk || put.isDoneAnyway {
        state := state.(objects := state.objects + {state.uploads[id].key});
      }
      state := Advance(state, id, if put.isOk then Stored else PutFailed);
    }

    method ReleaseFailedUpload(id: FileId)
      requires id in state.uploads && (state.uploads[id].phase.Rejected? || state.uploads[id].phase.PutFailed?)
      modifies this
      ensures state == Step(old(state), ReleaseFailed(id)) && id in state.uploads && state.uploads[id].phase.Ended?
      ensures state.objects == old(state.objects)
      ensures state.rows == if id in old(state.rows) && old(state.rows)[id].status == Processing
                            then old(state.rows)[id := old(state.rows)[id].(status := Deleting)] else old(state.rows)
    {
      var isProcessing := id in state.rows && state.rows[id].status == Processing;
      var cause := if state.uploads[id].phase.Rejected? then NothingStored
                   else if isProcessing then ReleasedInTime else ReleasedTooLate;
      if isProcessing {
        state := state.(rows := state.rows[id := state.rows[id].(status := Deleting)]);
      }
      state := Advance(state, id, Ended(cause));
    }

    /** The last write, conditional on the row still processing. */
    method FinishRow(id: FileId, timeToLive: nat) returns (isFinished: bool)
      requires id in state.uploads && state.uploads[id].phase.Stored?
      modifies this
      ensures state == Step(old(state), FinishUpload(id, timeToLive)) && id in state.uploads
      ensures state.uploads[id].phase == if isFinished then Completed else Superseded
      ensures isFinished <==> id in old(state.rows) && old(state.rows)[id].status == Processing
      ensures state.objects == old(state.objects)
      ensures state.rows == if !isFinished then old(state.rows)
        else old(state.rows)[id := old(state.rows)[id].(status := Ready, expiresAt := Some(old(state.now) + timeToLive))]
    {
      isFinished := id in state.rows && state.rows[id].status == Processing;
      if isFinished {
        var ready := state.rows[id].(status := Ready, expiresAt := Some(state.now + timeToLive));
        state := state.(rows := state.rows[id := ready]);
      }
      state := Advance(state, id, if isFinished then Completed else Superseded);
    }

    /** The delete of an upload that has lost its row. */
    method RemoveObject(id: FileId, delete: Answer)
      requires id in state.uploads && state.uploads[id].phase.Superseded?
      modifies this
      ensures state == Step(old(state), Compensate(id, delete.isOk, delete.isDoneAnyway))
      ensures id in state.uploads && state.uploads[id].phase.Ended?
      ensures state.rows == old(state.rows)
      ensures state.objects ==
        old(state.objects) - if delete.isOk || delete.isDoneAnyway then {old(state.uploads)[id].key} else {}
    {
      if delete.isOk || delete.isDoneAnyway {
        state := state.(objects := state.objects - {state.uploads[id].key});
      }
      state := Advance(state, id, Ended(if delete.isOk then Compensated else CompensationFailed));
    }

    /**
      An upload completes exactly when its put succeeded and its row was still processing after it, and
      then answers the row as it is when read again.
     */
    method Upload(begin: Event, isProcessed: bool, put: Answer, timeToLive: nat, delete: Answer, others: Meanwhile)
      returns (result: Result<FileRow, UploadError>)
      requires begin.BeginUpload? && begin.id !in state.uploads
      requires forall other <- state.uploads :: state.uploads[other].key != begin.key
      requires others.AreOfOthers(begin.id)
      modifies this
      ensures state == Run(old(state), Script(begin, isProcessed, put, timeToLive, delete, others))
      ensures begin.id in state.uploads
      ensures result.Ok? || result.error.RowGone? <==> state.uploads[begin.id].phase.Completed?
      ensures result.Ok? ==> begin.id in state.rows && result.value == state.rows[begin.id]
      ensures result.Err? && result.error.RowGone? ==> begin.id !in state.rows
    {
      var id := begin.id;
      ghost var middle := if isProcessed then Put(id, put.isOk, put.isDoneAnyway) else FailProcessing(id);
      ScriptRuns(state, begin, others, middle, FinishUpload(id, timeToLive),
                 Compensate(id, delete.isOk, delete.isDoneAnyway), ReleaseFailed(id));
      RecordRow(begin);
      OthersLeaveTheUpload(state, others.beforePut, id);
      Await(others.beforePut);
      if isProcessed {
        PutObject(id, put);
      } else {
        state := Advance(state, id, Rejected);
      }
      OthersLeaveTheUpload(state, others.afterPut, id);
      Await(others.afterPut);
      if !isProcessed || !put.isOk {
        NothingToFinish(state, id, timeToLive);
        OthersLeaveTheUpload(state, others.afterFinish, id);
        Await(others.afterFinish);
        NothingToRemove(state, id, delete);
        ReleaseFailedUpload(id);
        return Err(if isProcessed then StorageUnavailable else ContentInvalid);
      }
      var isFinished := FinishRow(id, timeToLive);
      OthersLeaveTheUpload(state, others.afterFinish, id);
      Await(others.afterFinish);
      if isFinished {
        NothingToRemove(state, id, delete);
        NothingToRelease(state, id);
        return if id in state.rows then Ok(state.rows[id]) else Err(RowGone);
      }
      RemoveObject(id, delete);
      NothingToRelease(state, id);
      return Err(TookTooLong);
    }
  }

  lemma NothingToFinish(s: State, id: FileId, timeToLive: nat)
    requires id in s.uploads && !s.uploads[id].phase.Stored?
    ensures Step(s, FinishUpload(id, timeToLive)) == s
  {
  }

  lemma NothingToRemove(s: State, id: FileId, delete: Answer)
    requires id in s.uploads && !s.uploads[id].phase.Superseded?
    ensures Step(s, Compensate(id, delete.isOk, delete.isDoneAnyway)) == s
  {
  }

  lemma NothingToRelease(s: State, id: FileId)
    requires id in s.uploads && !s.uploads[id].phase.IsInFlight()
    ensures Step(s, ReleaseFailed(id)) == s
  {
  }
}
