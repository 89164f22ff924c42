/**
  `FilesService` in its own form: the table as a field that its conditional statements update,
  and the cleanup loop. The clock, the batch the database returns and what storage answers are
  parameters.
 */
module FileService {
  import opened Prelude
  import opened FileAssets
  import opened CleanupRun

  datatype FileError = NotFound | NotAttachable | NotReleasable

  datatype CleanupResult = CleanupResult(released: nat, deleted: nat, failed: nat)

  class FilesService {
    var rows: Rows

    constructor ()
      ensures rows == map[]
    {
      rows := map[];
    }

    method ClaimForAttachment(id: FileId, actor: UserId, purpose: Purpose, now: nat)
      returns (outcome: Result<FileRow, FileError>)
      modifies this
      ensures rows == Attach(old(rows), now, id, actor, purpose)
      ensures outcome.Ok? <==>
        id in old(rows) &&
        var row := old(rows)[id];
        && row.status == Ready && row.uploadedBy == actor && row.purpose == purpose
        && row.expiresAt.Some? && now < row.expiresAt.value
      ensures rows == if outcome.Err? then old(rows)
                      else old(rows)[id := old(rows)[id].(status := Attached, attachedAt := Some(now), expiresAt := None)]
      ensures outcome.Ok? ==> id in rows && outcome.value == rows[id] && rows[id].status.Attached?
      ensures outcome.Err? ==>
        (outcome.error.NotAttachable? <==>
          id in old(rows) && old(rows)[id].uploadedBy == actor && old(rows)[id].purpose == purpose)
      ensures outcome.Err? ==> !outcome.error.NotReleasable?
    {
      var claimed := 0;
      if id in rows && rows[id].uploadedBy == actor && rows[id].purpose == purpose && rows[id].status.Ready?
         && rows[id].expiresAt.Some? && rows[id].expiresAt.value > now {
        rows := rows[id := rows[id].(status := Attached, attachedAt := Some(now), expiresAt := None)];
        claimed := 1;
      }
      if claimed == 1 {
        return Ok(rows[id]);
      }
      if id !in rows || rows[id].uploadedBy != actor || rows[id].purpose != purpose {
        return Err(NotFound);
      }
      return Err(NotAttachable);
    }

    /** Idempotent for the uploader's own file; an attached or processing one is refused, unchanged. */
    method ReleaseOwnUpload(id: FileId, actor: UserId) returns (outcome: Result<(), FileError>)
      modifies this
      ensures rows == ReleaseUnattached(old(rows), id, actor)
      ensures outcome ==
        if id !in old(rows) || old(rows)[id].uploadedBy != actor then Err(NotFound)
        else if old(rows)[id].status.Ready? || old(rows)[id].status.Deleting? then Ok(())
        else Err(NotReleasable)
      ensures outcome.Ok? ==> id in rows && rows[id].status == Deleting
      ensures rows.Keys == old(rows.Keys) && forall other <- rows ::
        rows[other] == (if other == id && old(rows)[id].status == Ready && old(rows)[id].uploadedBy == actor
                        then old(rows)[id].(status := Deleting, expiresAt := None) else old(rows)[other])
    {
      if id in rows && rows[id].uploadedBy == actor && rows[id].status.Ready? {
        rows := rows[id := rows[id].(status := Deleting, expiresAt := None)];
        return Ok(());
      }
      if id !in rows || rows[id].uploadedBy != actor {
        return Err(NotFound);
      }
      if rows[id].status.Deleting? {
        return Ok(());
      }
      return Err(NotReleasable);
    }

    method MarkFilesDeleting(ids: set<FileId>)
      modifies this
      ensures rows == MarkDeleting(old(rows), ids)
      ensures rows.Keys == old(rows.Keys) && forall id <- rows ::
        rows[id] == (if id in ids && old(rows)[id].status != Deleting
                     then old(rows)[id].(status := Deleting, expiresAt := None) else old(rows)[id])
    {
      if |ids| == 0 {
        return;
      }
      rows := map id | id in rows ::
        if id in ids && rows[id].status != Deleting
        then rows[id].(status := Deleting, expiresAt := None) else rows[id];
    }

    /** Erasure: what the account uploaded and never attached. */
    method MarkUnattachedFilesDeleting(uploader: UserId)
      modifies this
      ensures rows == MarkUnattachedDeleting(old(rows), uploader)
      ensures rows.Keys == old(rows.Keys) && forall id <- rows ::
        rows[id] == (if old(rows)[id].uploadedBy == uploader && (old(rows)[id].status == Processing || old(rows)[id].status == Ready)
                     then old(rows)[id].(status := Deleting, expiresAt := None) else old(rows)[id])
    {
      rows := map id | id in rows ::
        if rows[id].uploadedBy == uploader && rows[id].status in {Processing, Ready}
        then rows[id].(status := Deleting, expiresAt := None) else rows[id];
    }

    /** Exactly the expired ready files and the stale processing ones are released; the rest stays as it is. */
    method ClaimReclaimable(now: nat) returns (count: nat)
      modifies this
      ensures rows == Claim(old(rows), now)
      ensures rows.Keys == old(rows.Keys) && forall id <- rows ::
        var row := old(rows)[id];
        rows[id] == (if || (row.status == Ready && row.expiresAt.Some? && row.expiresAt.value <= now)
                        || (row.status == Processing && row.createdAt + 15 * 60 * 1000 < now)
                     then row.(status := Deleting, expiresAt := None) else row)
      ensures count == |set id <- old(rows) | IsClaimable(old(rows)[id], now)|
      ensures count == |set id <- rows | old(rows)[id].status != Deleting && rows[id].status == Deleting|
    {
      var claimed := set id <- rows | IsClaimable(rows[id], now);
      count := |claimed|;
      rows := map id | id in rows ::
        if id in claimed then rows[id].(status := Deleting, expiresAt := None) else rows[id];
      assert claimed == set id <- rows | old(rows)[id].status != Deleting && rows[id].status == Deleting;
    }

    /** `cleanUp`: claim, then the bounded loop over the batch the database returned. */
    method CleanUp(now: nat, batch: seq<FileId>, attempts: seq<Attempt>) returns (result: CleanupResult)
      requires IsBatch(Claim(rows, now), batch) && |batch| <= |attempts|
      modifies this
      ensures var final := Loop(Tally(Claim(old(rows), now), 0, 0, 0), batch, attempts, 0);
        && rows == final.rows && result.deleted == final.deleted && result.failed == final.failed
      ensures result.released == |set id <- old(rows) | IsClaimable(old(rows)[id], now)|
      ensures result.deleted + result.failed <= 200
      ensures forall id <- old(rows) ::
        var row := old(rows)[id];
        || (id in rows && rows[id] == row)
        || row.status == Deleting
        || (row.status == Ready && row.expiresAt.Some? && row.expiresAt.value <= now)
        || (row.status == Processing && row.createdAt + 15 * 60 * 1000 < now)
    {
      var released := ClaimReclaimable(now);
      LoopSparesTheRest(rows, batch, attempts);
      var deleted, failed := DeleteBatch(batch, attempts);
      result := CleanupResult(released, deleted, failed);
    }

    /** The loop of `cleanUp`. */
    method DeleteBatch(batch: seq<FileId>, attempts: seq<Attempt>) returns (deleted: nat, failed: nat)
      requires |batch| <= |attempts|
      modifies this
      ensures var final := Loop(Tally(old(rows), 0, 0, 0), batch, attempts, 0);
        rows == final.rows && deleted == final.deleted && failed == final.failed
      ensures deleted + failed <= |batch|
    {
      deleted, failed := 0, 0;
      var consecutiveFailures, i := 0, 0;
      while i < |batch|
        invariant i <= |batch|
        invariant Loop(Tally(rows, deleted, failed, consecutiveFailures), batch, attempts, i)
               == Loop(Tally(old(rows), 0, 0, 0), batch, attempts, 0)
        invariant deleted + failed <= i
      {
        var id, attempt := batch[i], attempts[i];
        if attempt.isOverBudget || consecutiveFailures >= CLEANUP_CONSECUTIVE_FAILURE_LIMIT {
          break;
        }
        if !attempt.isFailed {
          if id in rows && rows[id].status.Deleting? {
            rows := rows - {id};
            deleted := deleted + 1;
          }
          consecutiveFailures := 0;
        } else {
          failed := failed + 1;
          consecutiveFailures := consecutiveFailures + 1;
          CountFailedDelete(id);
        }
        i := i + 1;
      }
    }

    /** The failed file gives way: in every later batch, those it was level with now come before it. */
    method CountFailedDelete(id: FileId)
      modifies this
      ensures rows == RecordFailedDelete(old(rows), id)
      ensures HasStatus(old(rows), id, Deleting) ==> GivesWay(old(rows), rows, id)
      ensures rows == if id in old(rows) && old(rows)[id].status == Deleting
                      then old(rows)[id := old(rows)[id].(deleteAttempts := old(rows)[id].deleteAttempts + 1)] else old(rows)
    {
      if HasStatus(rows, id, Deleting) { CountedFailureGivesWay(rows, id); }
      if id in rows && rows[id].status.Deleting? {
        rows := rows[id := rows[id].(deleteAttempts := rows[id].deleteAttempts + 1)];
      }
    }
  }
}
