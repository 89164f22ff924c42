/**
  What each conditional UPDATE or DELETE of `src/modules/files/files.service.ts` does to the
  `file_assets` table, as a function of the table before it.
 */
module FileAssets {
  import opened Prelude

  type FileId = nat
  type UserId = nat
  type StorageKey = nat

  datatype Purpose = ProfileImage | Document
  datatype Status = Processing | Ready | Attached | Deleting

  datatype FileRow = FileRow(
    uploadedBy: UserId,
    purpose: Purpose,
    storageKey: StorageKey,
    status: Status,
    createdAt: nat,
    expiresAt: Option<nat>,
    attachedAt: Option<nat>,
    deleteAttempts: nat)
  {
    function Release(): FileRow {
      this.(status := Deleting, expiresAt := None)
    }
  }

  type Rows = map<FileId, FileRow>

  const STALE_PROCESSING_MILLISECONDS := 15 * 60 * 1000
  const CLEANUP_BATCH_SIZE := 200
  const CLEANUP_CONSECUTIVE_FAILURE_LIMIT := 5

  predicate HasStatus(rows: Rows, id: FileId, status: Status) {
    id in rows && rows[id].status == status
  }

  function Record(rows: Rows, now: nat, id: FileId, actor: UserId, purpose: Purpose, key: StorageKey): Rows {
    rows[id := FileRow(actor, purpose, key, Processing, now, None, None, 0)]
  }

  /** The last write of `upload`, conditional on the row still processing. */
  function MakeReady(rows: Rows, id: FileId, expiresAt: nat): Rows {
    if HasStatus(rows, id, Processing)
    then rows[id := rows[id].(status := Ready, expiresAt := Some(expiresAt))] else rows
  }

  function ReleaseFailedUpload(rows: Rows, id: FileId): Rows {
    if HasStatus(rows, id, Processing) then rows[id := rows[id].(status := Deleting)] else rows
  }

  predicate MayAttach(rows: Rows, now: nat, id: FileId, actor: UserId, purpose: Purpose) {
    HasStatus(rows, id, Ready) && rows[id].uploadedBy == actor && rows[id].purpose == purpose
    && rows[id].expiresAt.Some? && now < rows[id].expiresAt.value
  }

  function Attach(rows: Rows, now: nat, id: FileId, actor: UserId, purpose: Purpose): Rows {
    if MayAttach(rows, now, id, actor, purpose)
    then rows[id := rows[id].(status := Attached, attachedAt := Some(now), expiresAt := None)] else rows
  }

  function ReleaseUnattached(rows: Rows, id: FileId, actor: UserId): Rows {
    if HasStatus(rows, id, Ready) && rows[id].uploadedBy == actor then rows[id := rows[id].Release()] else rows
  }

  function MarkDeleting(rows: Rows, ids: set<FileId>): Rows {
    map id | id in rows :: if id in ids && !rows[id].status.Deleting? then rows[id].Release() else rows[id]
  }

  function MarkUnattachedDeleting(rows: Rows, uploader: UserId): Rows {
    map id | id in rows ::
      if rows[id].uploadedBy == uploader && (rows[id].status.Processing? || rows[id].status.Ready?)
      then rows[id].Release() else rows[id]
  }

  predicate IsClaimable(row: FileRow, now: nat) {
    || (row.status.Ready? && row.expiresAt.Some? && row.expiresAt.value <= now)
    || (row.status.Processing? && row.createdAt + STALE_PROCESSING_MILLISECONDS < now)
  }

  /** The claim of `cleanUp`. */
  function Claim(rows: Rows, now: nat): Rows {
    map id | id in rows :: if IsClaimable(rows[id], now) then rows[id].Release() else rows[id]
  }

  function RemoveRow(rows: Rows, id: FileId): Rows {
    if HasStatus(rows, id, Deleting) then rows - {id} else rows
  }

  function RecordFailedDelete(rows: Rows, id: FileId): Rows {
    if HasStatus(rows, id, Deleting)
    then rows[id := rows[id].(deleteAttempts := rows[id].deleteAttempts + 1)] else rows
  }
}
