/** The loop of `cleanUp` and the steps of a cleanup run are the same thing when nothing comes between. */
module CleanupSteps {
  import opened FileAssets
  import opened FileRuns
  import opened CleanupRun

  /** The steps for one file: both deletes, or up to the one that throws, and then the count. */
  function StepsFor(c: Process, attempt: Attempt, isRowRefused: bool): seq<Event> {
    if !attempt.isFailed then [DeleteObject(c, true, true), DeleteRow(c, false)]
    else if isRowRefused then [DeleteObject(c, true, true), DeleteRow(c, true), CountFailure(c)]
    else [DeleteObject(c, false, false), CountFailure(c)]
  }

  lemma Unrolled(s: State, first: Event, second: Event, rest: seq<Event>)
    ensures Run(s, [first, second] + rest) == Run(Step(Step(s, first), second), rest)
  {
    var events := [first, second] + rest;
    assert events[1..] == [second] + rest && events[1..][1..] == rest;
  }

  lemma BothDeletes(s: State, c: Process, isRefused: bool)
    requires c in s.cleaners && s.cleaners[c].todo != [] && s.cleaners[c].stage.ObjectNext?
    ensures var Cleaner(todo, _) := s.cleaners[c];
      Step(Step(s, DeleteObject(c, true, true)), DeleteRow(c, isRefused)) ==
        s.(objects := s.objects - {todo[0].key}, rows := if isRefused then s.rows else RemoveRow(s.rows, todo[0].id),
           cleaners := s.cleaners[c := if isRefused then Cleaner(todo, FailureNext) else Cleaner(todo[1..], ObjectNext)])
  {
    var Cleaner(todo, _) := s.cleaners[c];
    var s1 := s.(objects := s.objects - {todo[0].key}, cleaners := s.cleaners[c := Cleaner(todo, RowNext)]);
    assert Step(s, DeleteObject(c, true, true)) == s1;
  }

  lemma FailureIsCounted(s: State, c: Process)
    requires c in s.cleaners && s.cleaners[c].todo != [] && s.cleaners[c].stage.FailureNext?
    ensures var todo := s.cleaners[c].todo;
      Step(s, CountFailure(c)) == s.(rows := RecordFailedDelete(s.rows, todo[0].id),
                                     cleaners := s.cleaners[c := Cleaner(todo[1..], ObjectNext)])
  {
  }

  /** One file of the batch: the rows are the loop's, the object is gone unless its own delete failed. */
  lemma UninterruptedFile(s: State, c: Process, t: Tally, attempt: Attempt, isRowRefused: bool)
    requires c in s.cleaners && s.cleaners[c].todo != [] && s.cleaners[c].stage.ObjectNext? && t.rows == s.rows
    ensures var item := s.cleaners[c].todo[0];
      var s' := Run(s, StepsFor(c, attempt, isRowRefused));
      && s'.rows == Handle(t, item.id, attempt).rows
      && s'.objects == (if attempt.isFailed && !isRowRefused then s.objects else s.objects - {item.key})
      && s'.cleaners == s.cleaners[c := Cleaner(s.cleaners[c].todo[1..], ObjectNext)]
      && s'.uploads == s.uploads
  {
    if !attempt.isFailed || isRowRefused {
      BothDeletes(s, c, attempt.isFailed);
      var s2 := Step(Step(s, DeleteObject(c, true, true)), DeleteRow(c, attempt.isFailed));
      if attempt.isFailed {
        Unrolled(s, DeleteObject(c, true, true), DeleteRow(c, true), [CountFailure(c)]);
        FailureIsCounted(s2, c);
        assert Run(s2, [CountFailure(c)]) == Run(Step(s2, CountFailure(c)), []);
      } else {
        Unrolled(s, DeleteObject(c, true, true), DeleteRow(c, false), []);
        assert [DeleteObject(c, true, true), DeleteRow(c, false)] + [] == StepsFor(c, attempt, isRowRefused);
      }
    } else {
      var s1 := s.(cleaners := s.cleaners[c := Cleaner(s.cleaners[c].todo, FailureNext)]);
      assert Step(s, DeleteObject(c, false, false)) == s1;
      FailureIsCounted(s1, c);
      Unrolled(s, DeleteObject(c, false, false), CountFailure(c), []);
      assert [DeleteObject(c, false, false), CountFailure(c)] + [] == StepsFor(c, attempt, isRowRefused);
    }
  }
}
