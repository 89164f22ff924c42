/** What the file lifecycle promises, over every run. */
module FileSafety {
  import opened Prelude
  import opened FileAssets
  import opened FileRuns

  // ---------------------------------------------------------------- the invariant

  /** The row has been released, or removed after that. */
  ghost predicate IsReleased(rows: Rows, id: FileId) {
    id in rows ==> rows[id].status.Deleting?
  }

  ghost function KeysOf(uploads: map<FileId, Upload>): set<StorageKey> {
    set id <- uploads :: uploads[id].key
  }

  /** File ids and storage keys are paired once and for all. */
  ghost predicate KeysSound(s: State) {
    && (forall i <- s.uploads, j <- s.uploads :: s.uploads[i].key == s.uploads[j].key ==> i == j)
    && (forall id <- s.rows :: id in s.uploads && s.rows[id].storageKey == s.uploads[id].key)
  }

  ghost predicate CleanersSound(s: State) {
    forall c <- s.cleaners, item <- s.cleaners[c].todo ::
      item.id in s.uploads && item.key == s.uploads[item.id].key && IsReleased(s.rows, item.id)
  }

  /** `expires_at` is set exactly while a file is ready: the CHECK constraint of the table. */
  ghost predicate ExpiryWhenReady(rows: Rows) {
    forall id <- rows :: rows[id].status.Ready? <==> rows[id].expiresAt.Some?
  }

  /** The statuses a row can have while its upload stands where it does, and its object. */
  ghost predicate UploadSound(s: State, id: FileId)
    requires id in s.uploads
  {
    var Upload(key, phase) := s.uploads[id];
    && (HasStatus(s.rows, id, Ready) || HasStatus(s.rows, id, Attached) ==> phase.Completed? && key in s.objects)
    && (phase.Recorded? || phase.Rejected? ==> key !in s.objects)
    && (phase.Stored? && HasStatus(s.rows, id, Processing) ==> key in s.objects)
    && (phase.Superseded? || phase.Completed? || (phase.Ended? && !phase.cause.Died?) ==>
          !HasStatus(s.rows, id, Processing))
    && (key in s.objects ==> id in s.rows || phase.MayStrandObject())
  }

  ghost predicate ObjectsSound(s: State) {
    && s.objects <= KeysOf(s.uploads)
    && (forall c <- s.cleaners :: s.cleaners[c].stage.RowNext? && s.cleaners[c].todo != [] ==>
          var item := s.cleaners[c].todo[0];
          item.id in s.uploads && (item.key in s.objects ==> s.uploads[item.id].phase.MayStrandObject()))
  }

  ghost predicate Inv(s: State) {
    && KeysSound(s)
    && CleanersSound(s)
    && ExpiryWhenReady(s.rows)
    && (forall id <- s.uploads :: UploadSound(s, id))
    && ObjectsSound(s)
  }

  const INITIAL := State(0, map[], {}, map[], map[])

  lemma InitialInv()
    ensures Inv(INITIAL)
  {
  }

  // ---------------------------------------------------------------- every step keeps it

  /** One upload moves on, with its own row and object at most, and nothing is unreleased. */
  ghost predicate UploadMoves(s: State, s': State, id: FileId) {
    && id in s.uploads && id in s'.uploads && s'.uploads == s.uploads[id := s'.uploads[id]]
    && s'.uploads[id].key == s.uploads[id].key && s'.cleaners == s.cleaners
    && s'.rows.Keys == s.rows.Keys && ExpiryWhenReady(s'.rows)
    && (forall other <- s.rows :: other != id ==> s'.rows[other] == s.rows[other])
    && (id in s.rows ==> s'.rows[id].storageKey == s.rows[id].storageKey)
    && (IsReleased(s.rows, id) ==> IsReleased(s'.rows, id))
    && (forall key :: key != s.uploads[id].key ==> (key in s.objects <==> key in s'.objects))
  }

  lemma UploadMoveKeepsUploads(s: State, s': State, id: FileId)
    requires KeysSound(s) && UploadMoves(s, s', id) && UploadSound(s', id)
    requires forall other <- s.uploads :: UploadSound(s, other)
    ensures KeysSound(s') && forall other <- s'.uploads :: UploadSound(s', other)
  {
    forall other <- s'.uploads
      ensures UploadSound(s', other)
    {
      assert UploadSound(s, other);
      assert other != id ==> s'.uploads[other].key != s.uploads[id].key;
    }
  }

  lemma UploadMoveKeepsObjects(s: State, s': State, id: FileId)
    requires KeysSound(s) && CleanersSound(s) && ObjectsSound(s) && UploadMoves(s, s', id)
    requires s.uploads[id].phase.MayStrandObject() && IsReleased(s.rows, id) && s.uploads[id].key in s'.objects
      ==> s'.uploads[id].phase.MayStrandObject()
    requires s.uploads[id].key in s'.objects && s.uploads[id].key !in s.objects
      ==> s'.uploads[id].phase.MayStrandObject()
    ensures CleanersSound(s') && ObjectsSound(s')
  {
    assert KeysOf(s'.uploads) == KeysOf(s.uploads) by {
      forall other <- s.uploads
        ensures s'.uploads[other].key == s.uploads[other].key
      {
      }
    }
    assert s.uploads[id].key in KeysOf(s.uploads);
    forall c <- s'.cleaners | s'.cleaners[c].stage.RowNext? && s'.cleaners[c].todo != []
        && s'.cleaners[c].todo[0].key in s'.objects
      ensures s'.uploads[s'.cleaners[c].todo[0].id].phase.MayStrandObject()
    {
      assert s.cleaners[c].todo[0] in s.cleaners[c].todo;
    }
  }

  lemma UploadMoveKeepsInv(s: State, s': State, id: FileId)
    requires Inv(s) && UploadMoves(s, s', id) && UploadSound(s', id)
    requires s.uploads[id].phase.MayStrandObject() && IsReleased(s.rows, id) && s.uploads[id].key in s'.objects
      ==> s'.uploads[id].phase.MayStrandObject()
    requires s.uploads[id].key in s'.objects && s.uploads[id].key !in s.objects
      ==> s'.uploads[id].phase.MayStrandObject()
    ensures Inv(s')
  {
    UploadMoveKeepsUploads(s, s', id);
    UploadMoveKeepsObjects(s, s', id);
  }

  lemma UploadStepMoves(s: State, e: Event)
    requires KeysSound(s) && ExpiryWhenReady(s.rows) && e.IsUploadStep() && StepUpload(s, e) != s
    requires UploadSound(s, e.id)
    ensures UploadMoves(s, StepUpload(s, e), e.id) && UploadSound(StepUpload(s, e), e.id)
  {
  }

  lemma UploadStepKeepsInv(s: State, e: Event)
    requires Inv(s) && e.IsUploadStep()
    ensures Inv(StepUpload(s, e))
  {
    if StepUpload(s, e) != s {
      UploadStepMoves(s, e);
      UploadMoveKeepsInv(s, StepUpload(s, e), e.id);
    }
  }

  /** Rows stay, under the same key; each keeps its status, is attached, or is released. */
  ghost predicate RowsMove(rows: Rows, rows': Rows) {
    && rows'.Keys == rows.Keys && ExpiryWhenReady(rows')
    && forall id <- rows ::
         && rows'[id].storageKey == rows[id].storageKey
         && (rows'[id].status == rows[id].status || rows'[id].status.Deleting?
             || (rows[id].status.Ready? && rows'[id].status.Attached?))
  }

  lemma RowsMoveKeepsInv(s: State, s': State)
    requires Inv(s) && RowsMove(s.rows, s'.rows) && s' == s.(rows := s'.rows)
    ensures Inv(s')
  {
    forall id <- s'.uploads
      ensures UploadSound(s', id)
    {
      assert UploadSound(s, id);
    }
  }

  lemma UpdateMovesRows(rows: Rows, now: nat, e: Event)
    requires ExpiryWhenReady(rows) && e.IsUpdate()
    ensures RowsMove(rows, Updated(rows, now, e))
  {
  }

  /** The object of a released file goes. */
  lemma ObjectRemovalKeepsInv(s: State, id: FileId)
    requires Inv(s) && id in s.uploads && IsReleased(s.rows, id)
    ensures Inv(s.(objects := s.objects - {s.uploads[id].key}))
  {
    var s' := s.(objects := s.objects - {s.uploads[id].key});
    forall other <- s'.uploads
      ensures UploadSound(s', other)
    {
      assert UploadSound(s, other);
    }
  }

  /** A released row goes once its object is gone, or is one its upload still accounts for. */
  lemma RowRemovalKeepsInv(s: State, id: FileId)
    requires Inv(s) && HasStatus(s.rows, id, Deleting)
    requires s.uploads[id].key in s.objects ==> s.uploads[id].phase.MayStrandObject()
    ensures Inv(s.(rows := s.rows - {id}))
  {
    var s' := s.(rows := s.rows - {id});
    forall other <- s'.uploads
      ensures UploadSound(s', other)
    {
      assert UploadSound(s, other);
    }
  }

  /** A cleanup run moves on, to items that are released and an object that is gone or accounted for. */
  lemma CleanerMoveKeepsInv(s: State, c: Process, cleaner: Cleaner)
    requires Inv(s)
    requires forall item <- cleaner.todo ::
      item.id in s.uploads && item.key == s.uploads[item.id].key && IsReleased(s.rows, item.id)
    requires cleaner.stage.RowNext? && cleaner.todo != [] ==>
      cleaner.todo[0].key in s.objects ==> s.uploads[cleaner.todo[0].id].phase.MayStrandObject()
    ensures Inv(s.(cleaners := s.cleaners[c := cleaner]))
  {
    var s' := s.(cleaners := s.cleaners[c := cleaner]);
    forall id <- s'.uploads
      ensures UploadSound(s', id)
    {
      assert UploadSound(s, id);
    }
    assert cleaner.todo != [] ==> cleaner.todo[0] in cleaner.todo;
  }

  lemma DeleteObjectKeepsInv(s: State, c: Process, isOk: bool, isRemoved: bool)
    requires Inv(s) && c in s.cleaners && s.cleaners[c].todo != [] && s.cleaners[c].stage.ObjectNext?
    ensures Inv(StepCleaner(s, DeleteObject(c, isOk, isRemoved)))
  {
    var Cleaner(todo, _) := s.cleaners[c];
    assert todo[0] in todo;
    ObjectRemovalKeepsInv(s, todo[0].id);
    var s' := if isOk || isRemoved then s.(objects := s.objects - {todo[0].key}) else s;
    CleanerMoveKeepsInv(s', c, Cleaner(todo, if isOk then RowNext else FailureNext));
  }

  lemma DeleteRowKeepsInv(s: State, c: Process, isRefused: bool)
    requires Inv(s) && c in s.cleaners && s.cleaners[c].todo != [] && s.cleaners[c].stage.RowNext?
    ensures Inv(StepCleaner(s, DeleteRow(c, isRefused)))
  {
    var Cleaner(todo, _) := s.cleaners[c];
    assert todo[0] in todo;
    if isRefused {
      CleanerMoveKeepsInv(s, c, Cleaner(todo, FailureNext));
    } else {
      var s' := s.(rows := RemoveRow(s.rows, todo[0].id));
      if HasStatus(s.rows, todo[0].id, Deleting) { RowRemovalKeepsInv(s, todo[0].id); }
      CleanerMoveKeepsInv(s', c, Cleaner(todo[1..], ObjectNext));
    }
  }

  lemma CountFailureKeepsInv(s: State, c: Process)
    requires Inv(s) && c in s.cleaners && s.cleaners[c].todo != [] && s.cleaners[c].stage.FailureNext?
    ensures Inv(StepCleaner(s, CountFailure(c)))
  {
    var todo := s.cleaners[c].todo;
    var s' := s.(rows := RecordFailedDelete(s.rows, todo[0].id));
    RowsMoveKeepsInv(s, s');
    CleanerMoveKeepsInv(s', c, Cleaner(todo[1..], ObjectNext));
  }

  lemma CleanerStepKeepsInv(s: State, e: Event)
    requires Inv(s) && e.IsCleanerStep()
    ensures Inv(StepCleaner(s, e))
  {
    if e.c in s.cleaners && s.cleaners[e.c].todo != [] {
      match s.cleaners[e.c].stage
      case ObjectNext => if e.DeleteObject? { DeleteObjectKeepsInv(s, e.c, e.isOk, e.isRemoved); }
      case RowNext => if e.DeleteRow? { DeleteRowKeepsInv(s, e.c, e.isRefused); }
      case FailureNext => if e.CountFailure? { CountFailureKeepsInv(s, e.c); }
    }
  }

  lemma BeginKeepsUploads(s: State, s': State, id: FileId, actor: UserId, purpose: Purpose, key: StorageKey)
    requires Inv(s) && s' == StepBegin(s, id, actor, purpose, key) && s' != s
    ensures KeysOf(s'.uploads) == KeysOf(s.uploads) + {key} && key !in s.objects
    ensures forall other <- s'.uploads :: UploadSound(s', other)
  {
    assert key !in KeysOf(s.uploads);
    assert KeysOf(s'.uploads) == KeysOf(s.uploads) + {key} by {
      forall other <- s.uploads
        ensures s'.uploads[other] == s.uploads[other]
      {
      }
      assert s'.uploads[id].key == key;
    }
    forall other <- s'.uploads
      ensures UploadSound(s', other)
    {
      if other != id { assert UploadSound(s, other); }
    }
  }

  lemma BeginKeepsKeys(s: State, s': State, id: FileId, actor: UserId, purpose: Purpose, key: StorageKey)
    requires Inv(s) && s' == StepBegin(s, id, actor, purpose, key) && s' != s
    ensures KeysSound(s') && CleanersSound(s') && ExpiryWhenReady(s'.rows)
  {
    assert id !in s.rows;
  }

  lemma BeginKeepsInv(s: State, id: FileId, actor: UserId, purpose: Purpose, key: StorageKey)
    requires Inv(s)
    ensures Inv(StepBegin(s, id, actor, purpose, key))
  {
    var s' := StepBegin(s, id, actor, purpose, key);
    if s' != s {
      BeginKeepsUploads(s, s', id, actor, purpose, key);
      BeginKeepsKeys(s, s', id, actor, purpose, key);
      assert ObjectsSound(s');
    }
  }

  lemma FetchKeepsInv(s: State, c: Process, batch: seq<FileId>)
    requires Inv(s) && (forall id <- batch :: id in s.rows) && forall id <- batch :: HasStatus(s.rows, id, Deleting)
    ensures Inv(s.(cleaners := s.cleaners[c := Cleaner(ItemsOf(s.rows, batch), ObjectNext)]))
  {
    CleanerMoveKeepsInv(s, c, Cleaner(ItemsOf(s.rows, batch), ObjectNext));
  }

  lemma QuietStepKeepsInv(s: State, s': State)
    requires Inv(s) && s' == s.(now := s'.now, cleaners := s'.cleaners)
    requires s'.cleaners.Keys <= s.cleaners.Keys && forall c <- s'.cleaners :: s'.cleaners[c] == s.cleaners[c]
    ensures Inv(s')
  {
    forall id <- s'.uploads
      ensures UploadSound(s', id)
    {
      assert UploadSound(s, id);
    }
  }

  lemma StepKeepsInv(s: State, e: Event)
    requires Inv(s)
    ensures Inv(Step(s, e))
  {
    if e.IsUploadStep() {
      UploadStepKeepsInv(s, e);
    } else if e.IsUpdate() {
      UpdateMovesRows(s.rows, s.now, e);
      RowsMoveKeepsInv(s, s.(rows := Updated(s.rows, s.now, e)));
    } else if e.IsCleanerStep() {
      CleanerStepKeepsInv(s, e);
    } else if e.BeginUpload? {
      BeginKeepsInv(s, e.id, e.actor, e.purpose, e.key);
    } else if e.FetchBatch? && Step(s, e) != s {
      FetchKeepsInv(s, e.c, e.batch);
    } else {
      QuietStepKeepsInv(s, Step(s, e));
    }
  }

  lemma {:induction false} RunKeepsInv(s: State, events: seq<Event>)
    requires Inv(s)
    ensures Inv(Run(s, events))
    decreases |events|
  {
    if events != [] {
      StepKeepsInv(s, events[0]);
      RunKeepsInv(Step(s, events[0]), events[1..]);
    }
  }

  // ---------------------------------------------------------------- what it promises

  ghost predicate Reachable(s: State) {
    exists events :: Run(INITIAL, events) == s
  }

  lemma ReachableInv(s: State)
    requires Reachable(s)
    ensures Inv(s)
  {
    var events :| Run(INITIAL, events) == s;
    InitialInv();
    RunKeepsInv(INITIAL, events);
  }

  /** A ready or attached file always has its object in storage. */
  lemma ServableFilesAreStored(s: State, id: FileId)
    requires Reachable(s) && (HasStatus(s.rows, id, Ready) || HasStatus(s.rows, id, Attached))
    ensures s.rows[id].storageKey in s.objects
  {
    ReachableInv(s);
    assert UploadSound(s, id);
  }

  /** A step removes an object only for a file that is released or gone. */
  lemma ObjectsGoOnlyForReleasedFiles(s: State, e: Event, id: FileId)
    requires Reachable(s) && id in s.uploads && s.uploads[id].key in s.objects
    requires s.uploads[id].key !in Step(s, e).objects
    ensures IsReleased(s.rows, id)
  {
    ReachableInv(s);
    assert UploadSound(s, id);
    if e.IsCleanerStep() {
      assert s.cleaners[e.c].todo[0] in s.cleaners[e.c].todo;
    }
  }

  /** How far along its life a file is: processing, ready, attached, deleting, gone. */
  function Rank(s: State, id: FileId): nat {
    if id in s.rows then
      match s.rows[id].status
      case Processing => 0
      case Ready => 1
      case Attached => 2
      case Deleting => 3
    else 4
  }

  lemma RankNeverFallsInUploadStep(s: State, e: Event, id: FileId)
    requires id in s.uploads && e.IsUploadStep()
    ensures id in StepUpload(s, e).uploads && Rank(s, id) <= Rank(StepUpload(s, e), id)
  {
  }

  lemma RankNeverFallsInCleanerStep(s: State, e: Event, id: FileId)
    requires id in s.uploads && e.IsCleanerStep()
    ensures id in StepCleaner(s, e).uploads && Rank(s, id) <= Rank(StepCleaner(s, e), id)
  {
  }

  lemma RankNeverFalls(s: State, e: Event, id: FileId)
    requires ExpiryWhenReady(s.rows) && id in s.uploads
    ensures id in Step(s, e).uploads && Rank(s, id) <= Rank(Step(s, e), id)
  {
    if e.IsUploadStep() {
      RankNeverFallsInUploadStep(s, e, id);
    } else if e.IsUpdate() {
      UpdateMovesRows(s.rows, s.now, e);
    } else if e.IsCleanerStep() {
      RankNeverFallsInCleanerStep(s, e, id);
    }
  }

  /** The step takes the file out of `ready`: an attach, a release, an expiry claim, an erasure. */
  predicate Wins(s: State, e: Event, id: FileId) {
    Rank(s, id) == 1 && Rank(Step(s, e), id) != 1
  }

  function Winners(s: State, events: seq<Event>, id: FileId): nat
    decreases |events|
  {
    if events == [] then 0
    else (if Wins(s, events[0], id) then 1 else 0) + Winners(Step(s, events[0]), events[1..], id)
  }

  lemma {:induction false} AtMostOneWinnerFrom(s: State, events: seq<Event>, id: FileId)
    requires Inv(s) && id in s.uploads
    ensures Winners(s, events, id) <= if Rank(s, id) <= 1 then 1 else 0
    decreases |events|
  {
    if events != [] {
      RankNeverFalls(s, events[0], id);
      StepKeepsInv(s, events[0]);
      AtMostOneWinnerFrom(Step(s, events[0]), events[1..], id);
    }
  }

  /**
    Over a whole run a file leaves `ready` at most once, so it is attached at most once, and an
    attach never shares a file with a release, an expiry claim or an erasure.
   */
  lemma {:induction false} AtMostOneWinner(s: State, events: seq<Event>, id: FileId)
    requires Inv(s)
    ensures Winners(s, events, id) <= 1
    decreases |events|
  {
    if id in s.uploads {
      AtMostOneWinnerFrom(s, events, id);
    } else if events != [] {
      assert id !in s.rows;
      StepKeepsInv(s, events[0]);
      AtMostOneWinner(Step(s, events[0]), events[1..], id);
    }
  }

  /** An attach that changes anything wins its file. */
  lemma AttachingIsWinning(s: State, id: FileId, actor: UserId, purpose: Purpose)
    requires MayAttach(s.rows, s.now, id, actor, purpose)
    ensures Wins(s, AttachFile(id, actor, purpose), id)
  {
  }

  /** Deleting is left only by removal, whatever follows. */
  lemma {:induction false} ReleasedStaysReleased(s: State, events: seq<Event>, id: FileId)
    requires Inv(s) && id in s.uploads && IsReleased(s.rows, id)
    ensures IsReleased(Run(s, events).rows, id)
    decreases |events|
  {
    if events != [] {
      RankNeverFalls(s, events[0], id);
      StepKeepsInv(s, events[0]);
      ReleasedStaysReleased(Step(s, events[0]), events[1..], id);
    }
  }

  // ---------------------------------------------------------------- every move of a row, column by column

  /** The events that release a row of each status, and nobody else's row. */
  predicate Releases(s: State, e: Event, id: FileId, row: FileRow) {
    match row.status
    case Processing =>
      || (e.ReleaseFailed? && e.id == id && id in s.uploads && (s.uploads[id].phase.Rejected? || s.uploads[id].phase.PutFailed?))
      || (e.MarkFiles? && id in e.ids)
      || (e.EraseUploader? && e.uploader == row.uploadedBy)
      || (e.ClaimFiles? && row.createdAt + 15 * 60 * 1000 < s.now)
    case Ready =>
      || (e.ReleaseFile? && e.id == id && e.actor == row.uploadedBy)
      || (e.MarkFiles? && id in e.ids)
      || (e.EraseUploader? && e.uploader == row.uploadedBy)
      || (e.ClaimFiles? && row.expiresAt.Some? && row.expiresAt.value <= s.now)
    case Attached => e.MarkFiles? && id in e.ids
    case Deleting => false
  }

  /** What an event other than a release does to a row: becoming ready, being attached, one more attempt. */
  function Advanced(s: State, e: Event, id: FileId, row: FileRow): FileRow {
    if e.FinishUpload? && e.id == id && id in s.uploads && s.uploads[id].phase.Stored? && row.status == Processing then
      row.(status := Ready, expiresAt := Some(s.now + e.timeToLive))
    else if e.AttachFile? && e.id == id && row.status == Ready && row.uploadedBy == e.actor && row.purpose == e.purpose
            && row.expiresAt.Some? && s.now < row.expiresAt.value then
      row.(status := Attached, attachedAt := Some(s.now), expiresAt := None)
    else if e.CountFailure? && e.c in s.cleaners && s.cleaners[e.c].stage.FailureNext? && s.cleaners[e.c].todo != []
            && s.cleaners[e.c].todo[0].id == id && row.status == Deleting then
      row.(deleteAttempts := row.deleteAttempts + 1)
    else row
  }

  /** A row is removed only as deleting, by the row delete of a cleanup run. */
  predicate Removes(s: State, e: Event, id: FileId, row: FileRow) {
    && e.DeleteRow? && !e.isRefused && e.c in s.cleaners && s.cleaners[e.c].stage.RowNext? && s.cleaners[e.c].todo != []
    && s.cleaners[e.c].todo[0].id == id && row.status == Deleting
  }

  ghost predicate IsRowStep(s: State, e: Event, id: FileId)
    requires id in s.rows
  {
    var rows' := Step(s, e).rows;
    && (id in rows' <==> !Removes(s, e, id, s.rows[id]))
    && (id in rows' ==>
          rows'[id] == if Releases(s, e, id, s.rows[id]) then s.rows[id].(status := Deleting, expiresAt := None)
                       else Advanced(s, e, id, s.rows[id]))
  }

  lemma UploadStepOnRow(s: State, e: Event, id: FileId)
    requires ExpiryWhenReady(s.rows) && id in s.rows && e.IsUploadStep()
    ensures IsRowStep(s, e, id)
  {
    assert s.rows[id].status.Processing? ==> s.rows[id].expiresAt.None?;
  }

  lemma UpdateOnRow(s: State, e: Event, id: FileId)
    requires ExpiryWhenReady(s.rows) && id in s.rows && e.IsUpdate()
    ensures IsRowStep(s, e, id)
  {
    assert Step(s, e).rows == Updated(s.rows, s.now, e);
  }

  lemma CleanerStepOnRow(s: State, e: Event, id: FileId)
    requires id in s.rows && e.IsCleanerStep()
    ensures IsRowStep(s, e, id)
  {
  }

  lemma OtherStepOnRow(s: State, e: Event, id: FileId)
    requires Inv(s) && id in s.rows && !e.IsUploadStep() && !e.IsUpdate() && !e.IsCleanerStep()
    ensures IsRowStep(s, e, id)
  {
    assert id in s.uploads;
    assert id in Step(s, e).rows && Step(s, e).rows[id] == s.rows[id];
  }

  /** What every event does to every row. */
  lemma RowStepIsExact(s: State, e: Event, id: FileId)
    requires Inv(s) && id in s.rows
    ensures id in Step(s, e).rows <==> !Removes(s, e, id, s.rows[id])
    ensures id in Step(s, e).rows ==>
      Step(s, e).rows[id] ==
        if Releases(s, e, id, s.rows[id]) then s.rows[id].(status := Deleting, expiresAt := None)
        else Advanced(s, e, id, s.rows[id])
  {
    if e.IsUploadStep() {
      UploadStepOnRow(s, e, id);
    } else if e.IsUpdate() {
      UpdateOnRow(s, e, id);
    } else if e.IsCleanerStep() {
      CleanerStepOnRow(s, e, id);
    } else {
      OtherStepOnRow(s, e, id);
    }
  }

  /** A file in use stays as it is until a `MarkFiles` names it, whatever else happens. */
  lemma {:induction false} AttachedUntilMarked(s: State, events: seq<Event>, id: FileId)
    requires Inv(s) && id in s.rows && s.rows[id].status == Attached
    requires forall e <- events :: e.MarkFiles? ==> id !in e.ids
    ensures id in Run(s, events).rows && Run(s, events).rows[id] == s.rows[id]
    decreases |events|
  {
    if events != [] {
      RowStepIsExact(s, events[0], id);
      StepKeepsInv(s, events[0]);
      AttachedUntilMarked(Step(s, events[0]), events[1..], id);
    }
  }
}
