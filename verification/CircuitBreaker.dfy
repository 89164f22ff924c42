/**
  The breaker of `src/common/turnstile/turnstile-circuit-breaker.ts`, against the log of verdicts and
  no-answers it has been told of. Nothing is assumed of the clock.
 */
module CircuitBreaker {
  import opened Prelude

  const THRESHOLD := 3
  const OPEN_WINDOW := 30000
  const FAILURE_MEMORY := 2 * OPEN_WINDOW

  datatype Answer = Verdict | NoAnswer(at: nat)

  // ---------------------------------------------------------------- failure runs

  /** How far apart a run's `length`-th failure and the next may be: the memory, past any open window. */
  function Allowance(length: nat): nat {
    FAILURE_MEMORY + if length >= THRESHOLD then OPEN_WINDOW else 0
  }

  /** The answer at `j` is a failure, and not too long after the one before it in the run from `start`. */
  ghost predicate BelongsToRun(log: seq<Answer>, start: nat, j: nat)
    requires start <= j < |log|
  {
    log[j].NoAnswer? && (start < j ==> log[j - 1].NoAnswer? && log[j].at <= log[j - 1].at + Allowance(j - start))
  }

  /** The log ends in a run of failures from `start` on. */
  ghost predicate IsRun(log: seq<Answer>, start: nat) {
    start <= |log| && forall j :: start <= j < |log| ==> BelongsToRun(log, start, j)
  }

  /** When the last answer, a failure, was recorded. */
  function LastFailureAt(log: seq<Answer>): nat {
    if log != [] && log[|log| - 1].NoAnswer? then log[|log| - 1].at else 0
  }

  /** The longest such run: the current one, of length `|log| - start`. */
  ghost predicate IsCurrentRun(log: seq<Answer>, start: nat) {
    IsRun(log, start) && forall earlier :: 0 <= earlier < start ==> !IsRun(log, earlier)
  }

  lemma CurrentRunIsUnique(log: seq<Answer>, one: nat, two: nat)
    requires IsCurrentRun(log, one) && IsCurrentRun(log, two)
    ensures one == two
  {
  }

  lemma VerdictEndsTheRun(log: seq<Answer>)
    ensures IsCurrentRun(log + [Verdict], |log| + 1)
  {
    forall earlier | 0 <= earlier < |log| + 1
      ensures !IsRun(log + [Verdict], earlier)
    {
      assert !BelongsToRun(log + [Verdict], earlier, |log|);
    }
  }

  /** A run of the longer log is a run of the shorter one that the last failure still reaches. */
  lemma RunWithOneMore(log: seq<Answer>, answer: Answer, start: nat)
    requires start <= |log|
    ensures IsRun(log + [answer], start) <==>
      && IsRun(log, start) && answer.NoAnswer?
      && (start < |log| ==> answer.at <= LastFailureAt(log) + Allowance(|log| - start))
  {
    var longer := log + [answer];
    forall j | start <= j < |log|
      ensures BelongsToRun(longer, start, j) <==> BelongsToRun(log, start, j)
    {
    }
    if IsRun(longer, start) || IsRun(log, start) {
      assert IsRun(longer, start) ==> BelongsToRun(longer, start, |log|);
      assert start < |log| ==> BelongsToRun(log, start, |log| - 1);
    }
  }

  lemma FailureExtendsTheRun(log: seq<Answer>, start: nat, at: nat)
    requires IsCurrentRun(log, start)
    requires start < |log| ==> at <= LastFailureAt(log) + Allowance(|log| - start)
    ensures IsCurrentRun(log + [NoAnswer(at)], start)
  {
    RunWithOneMore(log, NoAnswer(at), start);
    forall earlier | 0 <= earlier < start
      ensures !IsRun(log + [NoAnswer(at)], earlier)
    {
      RunWithOneMore(log, NoAnswer(at), earlier);
    }
  }

  /** A failure out of the run's reach is out of the reach of every shorter run, and starts anew. */
  lemma LateFailureStartsARun(log: seq<Answer>, start: nat, at: nat)
    requires IsCurrentRun(log, start) && start < |log| && at > LastFailureAt(log) + Allowance(|log| - start)
    ensures IsCurrentRun(log + [NoAnswer(at)], |log|)
  {
    forall earlier | 0 <= earlier < |log|
      ensures !IsRun(log + [NoAnswer(at)], earlier)
    {
      RunWithOneMore(log, NoAnswer(at), earlier);
    }
    RunWithOneMore(log, NoAnswer(at), |log|);
  }

  /** How many of the current run's failures a failure at `at` adds to: all of them, or none if it is too late. */
  ghost function Remembered(log: seq<Answer>, start: nat, at: nat): (length: nat)
    requires IsCurrentRun(log, start)
  {
    if start < |log| && at > LastFailureAt(log) + Allowance(|log| - start) then 0 else |log| - start
  }

  lemma FailureMovesTheRun(log: seq<Answer>, start: nat, at: nat)
    requires IsCurrentRun(log, start)
    ensures IsCurrentRun(log + [NoAnswer(at)], |log| - Remembered(log, start, at))
  {
    if Remembered(log, start, at) == |log| - start {
      FailureExtendsTheRun(log, start, at);
    } else {
      LateFailureStartsARun(log, start, at);
    }
  }

  /** While a run lasts, every prefix of the log that reaches into it has it as its current run. */
  lemma {:induction false} RunGrowsByOne(log: seq<Answer>, start: nat, end: nat)
    requires IsCurrentRun(log, start) && start < end <= |log|
    ensures IsCurrentRun(log[..end], start)
    decreases |log| - end
  {
    if end == |log| {
      assert log[..end] == log;
    } else {
      RunGrowsByOne(log, start, end + 1);
      var before, last := log[..end], log[end];
      assert log[..end + 1] == before + [last];
      RunWithOneMore(before, last, start);
      forall earlier | 0 <= earlier < start
        ensures !IsRun(before, earlier)
      {
        RunWithOneMore(before, last, earlier);
        assert Allowance(end - start) <= Allowance(end - earlier);
      }
    }
  }

  /** The failure at `j` is the one that takes its run to the threshold. */
  ghost predicate Opens(log: seq<Answer>, j: nat)
    requires j < |log|
  {
    j + 1 >= THRESHOLD && IsCurrentRun(log[..j + 1], j + 1 - THRESHOLD)
  }

  /** Of a run's failures exactly the third opens the breaker: an episode is announced once. */
  lemma EachRunOpensOnce(log: seq<Answer>, start: nat, j: nat)
    requires IsCurrentRun(log, start) && start <= j < |log|
    ensures Opens(log, j) <==> j == start + THRESHOLD - 1
  {
    RunGrowsByOne(log, start, j + 1);
    if Opens(log, j) {
      CurrentRunIsUnique(log[..j + 1], start, j + 1 - THRESHOLD);
    }
  }

  /** The current run has reached the threshold. */
  ghost predicate IsOutage(log: seq<Answer>) {
    exists start :: IsCurrentRun(log, start) && |log| - start >= THRESHOLD
  }

  lemma CurrentRunDecides(log: seq<Answer>, start: nat)
    requires IsCurrentRun(log, start)
    ensures IsOutage(log) <==> |log| - start >= THRESHOLD
    ensures |log| > 0 ==> (Opens(log, |log| - 1) <==> |log| - start == THRESHOLD)
  {
    forall other | IsCurrentRun(log, other)
      ensures other == start
    {
      CurrentRunIsUnique(log, start, other);
    }
    assert log[..|log|] == log;
  }

  /** By the clock: three failures after a verdict are an outage exactly if each came within a minute of the last. */
  lemma ThreeFailuresByTheClock(log: seq<Answer>, a: nat, b: nat, c: nat)
    ensures IsOutage(log + [Verdict] + [NoAnswer(a)] + [NoAnswer(b)] + [NoAnswer(c)]) <==> b <= a + 60000 && c <= b + 60000
  {
    var closed := log + [Verdict];
    VerdictEndsTheRun(log);
    var one := closed + [NoAnswer(a)];
    FailureExtendsTheRun(closed, |closed|, a);
    var start := |one| - 1 - Remembered(one, |closed|, b) + 1;
    FailureMovesTheRun(one, |closed|, b);
    var two := one + [NoAnswer(b)];
    assert IsCurrentRun(two, start);
    FailureMovesTheRun(two, start, c);
    CurrentRunDecides(two + [NoAnswer(c)], |two| - Remembered(two, start, c));
  }

  /** Once there is an outage, a further failure belongs to it exactly if it comes within a minute of the window's end. */
  lemma OutageContinuesByTheClock(log: seq<Answer>, at: nat)
    requires IsOutage(log)
    ensures IsOutage(log + [NoAnswer(at)]) <==> at <= LastFailureAt(log) + 30000 + 60000
  {
    var start :| IsCurrentRun(log, start) && |log| - start >= THRESHOLD;
    FailureMovesTheRun(log, start, at);
    CurrentRunDecides(log + [NoAnswer(at)], |log| - Remembered(log, start, at));
  }

  // ---------------------------------------------------------------- the breaker

  datatype Outcome = Outcome(isBypassActive: bool, isNewlyOpened: bool)

  class TurnstileCircuitBreaker {
    var consecutiveProviderFailures: nat
    var lastFailureMilliseconds: Option<nat>
    var openUntilMilliseconds: Option<nat>
    ghost var log: seq<Answer>

    /** The fields say exactly what the current run of the log is. */
    ghost predicate Valid()
      reads this
    {
      && consecutiveProviderFailures <= |log|
      && IsCurrentRun(log, |log| - consecutiveProviderFailures)
      && lastFailureMilliseconds ==
           (if consecutiveProviderFailures == 0 then None else Some(LastFailureAt(log)))
      && openUntilMilliseconds ==
           (if consecutiveProviderFailures < THRESHOLD then None else Some(LastFailureAt(log) + OPEN_WINDOW))
    }

    constructor ()
      ensures Valid() && log == []
    {
      consecutiveProviderFailures, lastFailureMilliseconds, openUntilMilliseconds := 0, None, None;
      log := [];
    }

    method ShouldBypass(nowMilliseconds: nat) returns (isBypassed: bool)
      requires Valid()
      ensures isBypassed <==> IsOutage(log) && nowMilliseconds < LastFailureAt(log) + 30000
    {
      CurrentRunDecides(log, |log| - consecutiveProviderFailures);
      return openUntilMilliseconds.Some? && nowMilliseconds < openUntilMilliseconds.value;
    }

    method RecordProviderFailure(nowMilliseconds: nat) returns (outcome: Outcome)
      requires Valid()
      modifies this
      ensures Valid() && log == old(log) + [NoAnswer(nowMilliseconds)]
      ensures outcome.isNewlyOpened <==> Opens(log, |log| - 1)
      ensures outcome.isBypassActive <==> IsOutage(log)
    {
      ghost var after := log + [NoAnswer(nowMilliseconds)];
      FailureMovesTheRun(log, |log| - consecutiveProviderFailures, nowMilliseconds);
      if lastFailureMilliseconds.Some? {
        var openUntil := if openUntilMilliseconds.Some? then openUntilMilliseconds.value else 0;
        var lastEvidence := if lastFailureMilliseconds.value < openUntil then openUntil else lastFailureMilliseconds.value;
        if nowMilliseconds - lastEvidence > FAILURE_MEMORY {
          Reset();
        }
      }
      lastFailureMilliseconds := Some(nowMilliseconds);
      consecutiveProviderFailures := consecutiveProviderFailures + 1;
      log := after;
      CurrentRunDecides(log, |log| - consecutiveProviderFailures);
      if consecutiveProviderFailures < THRESHOLD {
        return Outcome(false, false);
      }
      openUntilMilliseconds := Some(nowMilliseconds + OPEN_WINDOW);
      return Outcome(true, consecutiveProviderFailures == THRESHOLD);
    }

    method Reset()
      modifies this`consecutiveProviderFailures, this`lastFailureMilliseconds, this`openUntilMilliseconds
      ensures consecutiveProviderFailures == 0 && lastFailureMilliseconds == None && openUntilMilliseconds == None
    {
      consecutiveProviderFailures := 0;
      lastFailureMilliseconds := None;
      openUntilMilliseconds := None;
    }

    /** True only when this closes a breaker that a run had opened. */
    method RecordProviderSuccess() returns (wasOpen: bool)
      requires Valid()
      modifies this
      ensures Valid() && log == old(log) + [Verdict]
      ensures wasOpen <==> IsOutage(old(log))
    {
      CurrentRunDecides(log, |log| - consecutiveProviderFailures);
      wasOpen := openUntilMilliseconds.Some?;
      VerdictEndsTheRun(log);
      log := log + [Verdict];
      Reset();
    }
  }
}
