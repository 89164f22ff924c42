/**
  One run of `cleanUp` past its claim, with nothing else running: what its loop does to a batch,
  and why a file whose object can be deleted is not starved by those whose cannot.
 */
module CleanupRun {
  import opened FileAssets

  /** What the loop meets at one file: the clock past the budget, or the two deletes and whether one threw. */
  datatype Attempt = Attempt(isOverBudget: bool, isFailed: bool)

  datatype Tally = Tally(rows: Rows, deleted: nat, failed: nat, consecutiveFailures: nat)

  predicate Stops(t: Tally, attempt: Attempt) {
    attempt.isOverBudget || t.consecutiveFailures >= CLEANUP_CONSECUTIVE_FAILURE_LIMIT
  }

  function Handle(t: Tally, id: FileId, attempt: Attempt): Tally {
    if attempt.isFailed then
      Tally(RecordFailedDelete(t.rows, id), t.deleted, t.failed + 1, t.consecutiveFailures + 1)
    else
      Tally(RemoveRow(t.rows, id), t.deleted + (if HasStatus(t.rows, id, Deleting) then 1 else 0), t.failed, 0)
  }

  /** The loop from its `i`th file on. */
  function Loop(t: Tally, batch: seq<FileId>, attempts: seq<Attempt>, i: nat): Tally
    requires i <= |batch| <= |attempts|
    decreases |batch| - i
  {
    if i == |batch| || Stops(t, attempts[i]) then t
    else Loop(Handle(t, batch[i], attempts[i]), batch, attempts, i + 1)
  }

  /** How many files of the batch the loop starts on. */
  function Started(t: Tally, batch: seq<FileId>, attempts: seq<Attempt>, i: nat): (n: nat)
    requires i <= |batch| <= |attempts|
    ensures i <= n <= |batch|
    decreases |batch| - i
  {
    if i == |batch| || Stops(t, attempts[i]) then i
    else Started(Handle(t, batch[i], attempts[i]), batch, attempts, i + 1)
  }

  /** The rows the query of `cleanUp` may return; ties are broken as the database likes. */
  ghost predicate IsBatch(rows: Rows, batch: seq<FileId>) {
    && |batch| <= CLEANUP_BATCH_SIZE
    && (forall i, j :: 0 <= i < j < |batch| ==> batch[i] != batch[j])
    && (forall i :: 0 <= i < |batch| ==> batch[i] in rows && rows[batch[i]].status.Deleting?)
    && (forall i, j :: 0 <= i <= j < |batch| ==> rows[batch[i]].deleteAttempts <= rows[batch[j]].deleteAttempts)
    && (forall id <- rows, i :: 0 <= i < |batch| && rows[id].status.Deleting? && id !in batch ==>
          rows[batch[i]].deleteAttempts <= rows[id].deleteAttempts)
    && (|batch| < CLEANUP_BATCH_SIZE ==> forall id <- rows :: rows[id].status.Deleting? ==> id in batch)
  }

  ghost predicate Precedes(batch: seq<FileId>, one: FileId, two: FileId) {
    exists i, j :: 0 <= i < j < |batch| && batch[i] == one && batch[j] == two
  }

  /** In no batch does the file come before one it was level with, or behind, until now. */
  ghost predicate GivesWay(rows: Rows, rows': Rows, id: FileId)
    requires id in rows
  {
    forall batch, other | IsBatch(rows', batch) && other in rows && other != id ::
      rows[other].deleteAttempts <= rows[id].deleteAttempts ==> !Precedes(batch, id, other)
  }

  lemma CountedFailureGivesWay(rows: Rows, id: FileId)
    requires HasStatus(rows, id, Deleting)
    ensures GivesWay(rows, RecordFailedDelete(rows, id), id)
  {
  }

  function Successes(attempts: seq<Attempt>, i: nat, n: nat): nat
    requires i <= n <= |attempts|
    decreases n - i
  {
    if i == n then 0 else (if attempts[i].isFailed then 0 else 1) + Successes(attempts, i + 1, n)
  }

  /**
    The loop handles a prefix of the batch, removing the rows whose deletes went through, counting
    an attempt on the others, and touching nothing else.
   */
  lemma {:induction false} LoopEffect(t: Tally, batch: seq<FileId>, attempts: seq<Attempt>, i: nat)
    requires i <= |batch| <= |attempts|
    requires forall j, k :: i <= j < k < |batch| ==> batch[j] != batch[k]
    requires forall j :: i <= j < |batch| ==> HasStatus(t.rows, batch[j], Deleting)
    ensures var rows', n := Loop(t, batch, attempts, i).rows, Started(t, batch, attempts, i);
      && rows'.Keys <= t.rows.Keys
      && (forall j :: i <= j < n ==>
            && batch[j] in t.rows
            && if attempts[j].isFailed then batch[j] in rows' && rows'[batch[j]] == Retried(t.rows[batch[j]])
               else batch[j] !in rows')
      && (forall id <- t.rows :: id !in batch[i..n] ==> id in rows' && rows'[id] == t.rows[id])
    decreases |batch| - i
  {
    if i < |batch| && !Stops(t, attempts[i]) {
      var n := Started(t, batch, attempts, i);
      LoopEffect(Handle(t, batch[i], attempts[i]), batch, attempts, i + 1);
      assert batch[i..n] == [batch[i]] + batch[i + 1..n];
      assert batch[i] !in batch[i + 1..n];
    }
  }

  /** A file that is not deleting is none of the loop's business. */
  lemma LoopSparesTheRest(rows: Rows, batch: seq<FileId>, attempts: seq<Attempt>)
    requires IsBatch(rows, batch) && |batch| <= |attempts|
    ensures var rows' := Loop(Tally(rows, 0, 0, 0), batch, attempts, 0).rows;
      forall id <- rows :: rows[id].status != Deleting ==> id in rows' && rows'[id] == rows[id]
  {
    LoopEffect(Tally(rows, 0, 0, 0), batch, attempts, 0);
  }

  function Retried(row: FileRow): FileRow {
    row.(deleteAttempts := row.deleteAttempts + 1)
  }

  /**
    The counts are those of the prefix; the loop stops short only over budget or after five
    failures in a row, and never makes a sixth.
   */
  lemma {:induction false} LoopCounts(t: Tally, batch: seq<FileId>, attempts: seq<Attempt>, i: nat)
    requires i <= |batch| <= |attempts| && t.consecutiveFailures <= CLEANUP_CONSECUTIVE_FAILURE_LIMIT
    requires forall j, k :: i <= j < k < |batch| ==> batch[j] != batch[k]
    requires forall j :: i <= j < |batch| ==> HasStatus(t.rows, batch[j], Deleting)
    ensures var final, n := Loop(t, batch, attempts, i), Started(t, batch, attempts, i);
      && final.deleted == t.deleted + Successes(attempts, i, n)
      && final.failed == t.failed + (n - i) - Successes(attempts, i, n)
      && final.consecutiveFailures <= 5
      && (n < |batch| ==> attempts[n].isOverBudget || final.consecutiveFailures == 5)
    decreases |batch| - i
  {
    if i < |batch| && !Stops(t, attempts[i]) {
      LoopCounts(Handle(t, batch[i], attempts[i]), batch, attempts, i + 1);
    }
  }

  // ---------------------------------------------------------------- no starvation

  /** One later run of the job: the batch it read and what it met. */
  datatype Pass = Pass(batch: seq<FileId>, attempts: seq<Attempt>)

  function After(rows: Rows, pass: Pass): Rows
    requires |pass.batch| <= |pass.attempts|
  {
    Loop(Tally(rows, 0, 0, 0), pass.batch, pass.attempts, 0).rows
  }

  /** The pass reads a proper batch, starts at least one delete, and only `stuck` files fail, at times or always. */
  ghost predicate IsFair(rows: Rows, pass: Pass, stuck: set<FileId>) {
    && IsBatch(rows, pass.batch) && |pass.batch| <= |pass.attempts|
    && (forall i :: 0 <= i < |pass.batch| ==> (pass.attempts[i].isFailed ==> pass.batch[i] in stuck))
    && (pass.batch != [] ==> Started(Tally(rows, 0, 0, 0), pass.batch, pass.attempts, 0) > 0)
  }

  /** What one other file can still cost `file`: its place in the queue, and the turns it may take before it. */
  function Debt(rows: Rows, stuck: set<FileId>, file: FileId, other: FileId): nat {
    if other !in rows || file !in rows then 0
    else if other !in stuck || rows[other].deleteAttempts > rows[file].deleteAttempts then 1
    else 1 + rows[file].deleteAttempts + 1 - rows[other].deleteAttempts
  }

  function Debts(rows: Rows, stuck: set<FileId>, file: FileId, others: seq<FileId>): nat {
    if others == [] then 0
    else Debt(rows, stuck, file, others[0]) + Debts(rows, stuck, file, others[1..])
  }

  lemma {:induction false} DebtsFall(rows: Rows, rows': Rows, stuck: set<FileId>, file: FileId, others: seq<FileId>)
    requires forall other <- others :: Debt(rows', stuck, file, other) <= Debt(rows, stuck, file, other)
    ensures Debts(rows', stuck, file, others) <= Debts(rows, stuck, file, others)
    ensures (exists other <- others :: Debt(rows', stuck, file, other) < Debt(rows, stuck, file, other))
      ==> Debts(rows', stuck, file, others) < Debts(rows, stuck, file, others)
  {
    if others != [] {
      DebtsFall(rows, rows', stuck, file, others[1..]);
      assert others == [others[0]] + others[1..];
    }
  }

  lemma PassEffect(rows: Rows, pass: Pass, stuck: set<FileId>)
    requires IsFair(rows, pass, stuck)
    ensures var rows' := After(rows, pass);
      && rows'.Keys <= rows.Keys
      && (forall id <- rows' :: rows'[id].status == rows[id].status && rows'[id].deleteAttempts >= rows[id].deleteAttempts)
      && (forall id <- rows' :: id !in stuck ==> rows'[id] == rows[id])
      && (pass.batch != [] ==>
            var first := pass.batch[0];
            first in rows' ==> first in stuck && rows'[first].deleteAttempts == rows[first].deleteAttempts + 1)
  {
    var t := Tally(rows, 0, 0, 0);
    var n := Started(t, pass.batch, pass.attempts, 0);
    LoopEffect(t, pass.batch, pass.attempts, 0);
    var rows' := After(rows, pass);
    forall id <- rows'
      ensures rows'[id] == rows[id] || (id in stuck && rows'[id] == Retried(rows[id]))
    {
      if id in pass.batch[0..n] {
        var j :| 0 <= j < n && pass.batch[j] == id;
      }
    }
  }

  /** While `file` waits, every fair pass pays off part of what the others can cost it. */
  lemma PassPaysDebt(rows: Rows, pass: Pass, stuck: set<FileId>, file: FileId, others: seq<FileId>)
    requires IsFair(rows, pass, stuck) && HasStatus(rows, file, Deleting) && file !in stuck && file in After(rows, pass)
    requires forall id <- rows :: rows[id].status.Deleting? ==> id == file || id in others
    ensures Debts(After(rows, pass), stuck, file, others) < Debts(rows, stuck, file, others)
  {
    var rows' := After(rows, pass);
    PassEffect(rows, pass, stuck);
    assert pass.batch != [];
    var first := pass.batch[0];
    assert first != file && first in others;
    assert rows[first].deleteAttempts <= rows[file].deleteAttempts by {
      if file in pass.batch {
        var j :| 0 <= j < |pass.batch| && pass.batch[j] == file;
        assert rows[pass.batch[0]].deleteAttempts <= rows[pass.batch[j]].deleteAttempts;
      }
    }
    assert Debt(rows', stuck, file, first) < Debt(rows, stuck, file, first);
    DebtsFall(rows, rows', stuck, file, others);
  }

  function AfterAll(rows: Rows, passes: seq<Pass>): Rows
    requires forall pass <- passes :: |pass.batch| <= |pass.attempts|
    decreases |passes|
  {
    if passes == [] then rows else AfterAll(After(rows, passes[0]), passes[1..])
  }

  ghost predicate AreFair(rows: Rows, passes: seq<Pass>, stuck: set<FileId>)
    decreases |passes|
  {
    passes != [] ==> IsFair(rows, passes[0], stuck) && AreFair(After(rows, passes[0]), passes[1..], stuck)
  }

  /**
    Files storage refuses, at times or always, cannot starve one it does not: beside any files in use
    and a fixed set of deleting ones, a deleting file whose deletes go through is gone once there have
    been more runs than its debts.
   */
  lemma {:induction false} NoStarvation(rows: Rows, passes: seq<Pass>, stuck: set<FileId>, file: FileId,
                                        others: seq<FileId>)
    requires AreFair(rows, passes, stuck) && file !in stuck && (file in rows ==> rows[file].status.Deleting?)
    requires forall pass <- passes :: |pass.batch| <= |pass.attempts|
    requires forall id <- rows :: rows[id].status.Deleting? ==> id == file || id in others
    requires |passes| > Debts(rows, stuck, file, others)
    ensures file !in AfterAll(rows, passes)
    decreases |passes|
  {
    var rows' := After(rows, passes[0]);
    PassEffect(rows, passes[0], stuck);
    if file in rows' {
      PassPaysDebt(rows, passes[0], stuck, file, others);
      NoStarvation(rows', passes[1..], stuck, file, others);
    } else {
      GoneStaysGone(rows', passes[1..], stuck, file);
    }
  }

  lemma {:induction false} GoneStaysGone(rows: Rows, passes: seq<Pass>, stuck: set<FileId>, file: FileId)
    requires AreFair(rows, passes, stuck) && file !in rows
    requires forall pass <- passes :: |pass.batch| <= |pass.attempts|
    ensures file !in AfterAll(rows, passes)
    decreases |passes|
  {
    if passes != [] {
      PassEffect(rows, passes[0], stuck);
      GoneStaysGone(After(rows, passes[0]), passes[1..], stuck, file);
    }
  }
}
