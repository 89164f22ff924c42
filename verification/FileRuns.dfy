/**
  Uploads, attaches, releases, erasures and cleanup runs over the file table and an object store
  that is not transactional with it. Each conditional statement, each storage put and each
  storage delete is its own step; a storage call may fail, and a failed one may still have taken
  effect; a process may die between any two of its steps.
 */
module FileRuns {
  import opened FileAssets

  type Process = nat

  /** Why an upload is over without a ready file; a release is too late once the row is no longer processing. */
  datatype Cause =
    | NothingStored
    | ReleasedInTime
    | ReleasedTooLate
    | Compensated
    | CompensationFailed
    | Died

  datatype Phase =
    | Recorded
    | Rejected
    | PutFailed
    | Stored
    | Superseded
    | Completed
    | Ended(cause: Cause)
  {
    predicate IsInFlight() {
      !Completed? && !Ended?
    }

    /** The upload has put, or may have put, an object that only it can still account for. */
    predicate MayStrandObject() {
      || PutFailed? || Stored? || Superseded?
      || (Ended? && (cause.CompensationFailed? || cause.ReleasedTooLate? || cause.Died?))
    }
  }

  /** One request to store the file whose id it is filed under. */
  datatype Upload = Upload(key: StorageKey, phase: Phase)

  datatype Item = Item(id: FileId, key: StorageKey)
  datatype Stage = ObjectNext | RowNext | FailureNext

  /** A cleanup run past its claim: the rest of its batch, and how far its first item is. */
  datatype Cleaner = Cleaner(todo: seq<Item>, stage: Stage)

  /** `uploads` is also the history of every file id and key ever used. */
  datatype State = State(
    now: nat,
    rows: Rows,
    objects: set<StorageKey>,
    uploads: map<FileId, Upload>,
    cleaners: map<Process, Cleaner>)

  datatype Event =
    | Tick(elapsed: nat)
    | BeginUpload(id: FileId, actor: UserId, purpose: Purpose, key: StorageKey)
    | FailProcessing(id: FileId)
    | Put(id: FileId, isOk: bool, isWritten: bool)
    | FinishUpload(id: FileId, timeToLive: nat)
    | Compensate(id: FileId, isOk: bool, isRemoved: bool)
    | ReleaseFailed(id: FileId)
    | Die(id: FileId)
    | AttachFile(id: FileId, actor: UserId, purpose: Purpose)
    | ReleaseFile(id: FileId, actor: UserId)
    | MarkFiles(ids: set<FileId>)
    | EraseUploader(uploader: UserId)
    | ClaimFiles
    | FetchBatch(c: Process, batch: seq<FileId>)
    | DeleteObject(c: Process, isOk: bool, isRemoved: bool)
    | DeleteRow(c: Process, isRefused: bool)
    | CountFailure(c: Process)
    | StopCleaner(c: Process)
  {
    predicate IsUploadStep() {
      FailProcessing? || Put? || FinishUpload? || Compensate? || ReleaseFailed? || Die?
    }

    predicate IsCleanerStep() {
      DeleteObject? || DeleteRow? || CountFailure?
    }

    /** One statement on the table, by someone other than an upload or a cleanup run's loop. */
    predicate IsUpdate() {
      AttachFile? || ReleaseFile? || MarkFiles? || EraseUploader? || ClaimFiles?
    }
  }

  function Step(s: State, e: Event): State {
    if e.IsUploadStep() then StepUpload(s, e)
    else if e.IsUpdate() then s.(rows := Updated(s.rows, s.now, e))
    else if e.IsCleanerStep() then StepCleaner(s, e)
    else
      match e
      case Tick(elapsed) => s.(now := s.now + elapsed)
      case BeginUpload(id, actor, purpose, key) => StepBegin(s, id, actor, purpose, key)
      case FetchBatch(c, batch) =>
        if c in s.cleaners || exists id <- batch :: !HasStatus(s.rows, id, Deleting) then s
        else s.(cleaners := s.cleaners[c := Cleaner(ItemsOf(s.rows, batch), ObjectNext)])
      case StopCleaner(c) => s.(cleaners := s.cleaners - {c})
  }

  function Updated(rows: Rows, now: nat, e: Event): Rows
    requires e.IsUpdate()
  {
    match e
    case AttachFile(id, actor, purpose) => Attach(rows, now, id, actor, purpose)
    case ReleaseFile(id, actor) => ReleaseUnattached(rows, id, actor)
    case MarkFiles(ids) => MarkDeleting(rows, ids)
    case EraseUploader(uploader) => MarkUnattachedDeleting(rows, uploader)
    case ClaimFiles => Claim(rows, now)
  }

  /** The row is written before the object exists; ids and keys are never used twice. */
  function StepBegin(s: State, id: FileId, actor: UserId, purpose: Purpose, key: StorageKey): State {
    if id in s.uploads || exists other <- s.uploads :: s.uploads[other].key == key then s
    else s.(rows := Record(s.rows, s.now, id, actor, purpose, key),
            uploads := s.uploads[id := Upload(key, Recorded)])
  }

  function ItemsOf(rows: Rows, ids: seq<FileId>): (items: seq<Item>)
    requires forall id <- ids :: id in rows
    ensures forall item <- items :: item.id in ids && item == Item(item.id, rows[item.id].storageKey)
  {
    if ids == [] then [] else [Item(ids[0], rows[ids[0]].storageKey)] + ItemsOf(rows, ids[1..])
  }

  function Advance(s: State, id: FileId, phase: Phase): State
    requires id in s.uploads
  {
    s.(uploads := s.uploads[id := s.uploads[id].(phase := phase)])
  }

  function StepUpload(s: State, e: Event): State
    requires e.IsUploadStep()
  {
    if e.id !in s.uploads then s else
      var Upload(key, phase) := s.uploads[e.id];
      match e
      case FailProcessing(id) => if phase.Recorded? then Advance(s, id, Rejected) else s
      case Put(id, isOk, isWritten) =>
        if !phase.Recorded? then s
        else Advance(s, id, if isOk then Stored else PutFailed)
             .(objects := if isOk || isWritten then s.objects + {key} else s.objects)
      case FinishUpload(id, timeToLive) =>
        if !phase.Stored? then s
        else Advance(s, id, if HasStatus(s.rows, id, Processing) then Completed else Superseded)
             .(rows := MakeReady(s.rows, id, s.now + timeToLive))
      case Compensate(id, isOk, isRemoved) =>
        if !phase.Superseded? then s
        else Advance(s, id, Ended(if isOk then Compensated else CompensationFailed))
             .(objects := if isOk || isRemoved then s.objects - {key} else s.objects)
      case ReleaseFailed(id) =>
        if !phase.Rejected? && !phase.PutFailed? then s
        else
          var cause := if phase.Rejected? then NothingStored
                       else if HasStatus(s.rows, id, Processing) then ReleasedInTime else ReleasedTooLate;
          Advance(s, id, Ended(cause)).(rows := ReleaseFailedUpload(s.rows, id))
      case Die(id) => if phase.IsInFlight() then Advance(s, id, Ended(Died)) else s
  }

  function StepCleaner(s: State, e: Event): State
    requires e.IsCleanerStep()
  {
    if e.c !in s.cleaners || s.cleaners[e.c].todo == [] then s else
      var Cleaner(todo, stage) := s.cleaners[e.c];
      var item := todo[0];
      match e
      case DeleteObject(c, isOk, isRemoved) =>
        if !stage.ObjectNext? then s
        else s.(objects := if isOk || isRemoved then s.objects - {item.key} else s.objects,
                cleaners := s.cleaners[c := Cleaner(todo, if isOk then RowNext else FailureNext)])
      case DeleteRow(c, isRefused) =>
        if !stage.RowNext? then s
        else if isRefused then s.(cleaners := s.cleaners[c := Cleaner(todo, FailureNext)])
        else s.(rows := RemoveRow(s.rows, item.id), cleaners := s.cleaners[c := Cleaner(todo[1..], ObjectNext)])
      case CountFailure(c) =>
        if !stage.FailureNext? then s
        else s.(rows := RecordFailedDelete(s.rows, item.id),
                cleaners := s.cleaners[c := Cleaner(todo[1..], ObjectNext)])
  }

  function Run(s: State, events: seq<Event>): State
    decreases |events|
  {
    if events == [] then s else Run(Step(s, events[0]), events[1..])
  }

  lemma {:induction false} RunAppend(s: State, events: seq<Event>, e: Event)
    ensures Run(s, events + [e]) == Step(Run(s, events), e)
    decreases |events|
  {
    if events == [] {
      assert Run(s, [e]) == Run(Step(s, e), []);
    } else {
      assert (events + [e])[1..] == events[1..] + [e];
      RunAppend(Step(s, events[0]), events[1..], e);
    }
  }

  lemma {:induction false} RunConcat(s: State, one: seq<Event>, two: seq<Event>)
    ensures Run(s, one + two) == Run(Run(s, one), two)
    decreases |two|
  {
    if two == [] {
      assert one + two == one;
    } else {
      var n := |two| - 1;
      RunConcat(s, one, two[..n]);
      RunAppend(s, one + two[..n], two[n]);
      RunAppend(Run(s, one), two[..n], two[n]);
      assert one + two == one + two[..n] + [two[n]] && two == two[..n] + [two[n]];
    }
  }
}
