/**
  The session cutoff of `src/common/util/session-cutoff.util.ts`, in milliseconds, and the
  whole-second `iat` comparison that reads it (section 4.1.6 of RFC 7519).
 */
module SessionCutoff {
  import opened Prelude

  const SECOND := 1000

  /** The least whole second at or after `from`. */
  function NextWholeSecond(from: nat): (cutoff: nat)
    ensures from <= cutoff < from + 1000 && cutoff % 1000 == 0
  {
    (from + SECOND - 1) / SECOND * SECOND
  }

  /** The `iat` signed for a session decided at `at`. */
  function IssuedAtSecond(at: nat): nat {
    at / SECOND
  }

  /** The comparison `isAccountUsable` and `JwtStrategy` make. */
  predicate Accepts(cutoff: Option<nat>, issuedAtSecond: nat) {
    cutoff.None? || issuedAtSecond >= cutoff.value / SECOND
  }

  /** How long `waitForSessionCutoff` sleeps. */
  function RemainingWait(cutoff: Option<nat>, now: nat): nat {
    if cutoff.None? || cutoff.value <= now then 0 else cutoff.value - now
  }

  /** `NextWholeSecond` is the only whole second that its bounds allow. */
  lemma NextWholeSecondIsUnique(from: nat, cutoff: nat)
    requires from <= cutoff < from + SECOND && cutoff % SECOND == 0
    ensures cutoff == NextWholeSecond(from)
  {
    var other := NextWholeSecond(from);
    assert cutoff == SECOND * (cutoff / SECOND) && other == SECOND * (other / SECOND);
  }

  lemma NextWholeSecondIsMonotone(t1: nat, t2: nat)
    requires t1 <= t2
    ensures NextWholeSecond(t1) <= NextWholeSecond(t2)
  {
    var c1, c2 := NextWholeSecond(t1), NextWholeSecond(t2);
    assert c1 == SECOND * (c1 / SECOND) && c2 == SECOND * (c2 / SECOND);
  }

  /**
    A session decided at `decided` survives a revocation at `revoked` exactly when both fall on
    the same millisecond and that millisecond is a whole second.
   */
  lemma RevocationBoundary(decided: nat, revoked: nat)
    requires decided <= revoked
    ensures Accepts(Some(NextWholeSecond(revoked)), IssuedAtSecond(decided))
       <==> decided == revoked && revoked % 1000 == 0
  {
    var cutoff := NextWholeSecond(revoked);
    assert cutoff == SECOND * (cutoff / SECOND);
    assert decided == SECOND * (decided / SECOND) + decided % SECOND;
    if decided == revoked && revoked % SECOND == 0 {
      NextWholeSecondIsUnique(revoked, revoked);
    }
  }

  /** Without the rounding, every session decided in the revocation's own second survives. */
  lemma UnroundedCutoffLeaksItsSecond(decided: nat, revoked: nat)
    requires decided <= revoked
    ensures Accepts(Some(revoked), IssuedAtSecond(decided)) <==> decided / 1000 == revoked / 1000
  {
    assert decided / SECOND <= revoked / SECOND by {
      assert decided == SECOND * (decided / SECOND) + decided % SECOND;
      assert revoked == SECOND * (revoked / SECOND) + revoked % SECOND;
    }
  }

  /** Two revocations write the same cutoff exactly when no whole second separates them. */
  lemma SameCutoff(t1: nat, t2: nat)
    requires t1 <= t2
    ensures NextWholeSecond(t1) == NextWholeSecond(t2)
       <==> !exists whole :: t1 <= whole < t2 && whole % 1000 == 0
  {
    var c1, c2 := NextWholeSecond(t1), NextWholeSecond(t2);
    NextWholeSecondIsMonotone(t1, t2);
    if c1 < c2 {
      assert t1 <= c1 < t2 && c1 % SECOND == 0 by {
        if t2 <= c1 { NextWholeSecondIsUnique(t2, c1); }
      }
    } else {
      forall whole | t1 <= whole < t2 && whole % SECOND == 0
        ensures false
      {
        NextWholeSecondIsUnique(t1, whole);
      }
    }
  }

  /** Once the wait is over, a session decided then carries an accepted `iat`. */
  lemma WaitSuffices(cutoff: Option<nat>, now: nat, decided: nat)
    requires decided >= now + RemainingWait(cutoff, now)
    ensures cutoff.Some? ==> cutoff.value <= decided
    ensures Accepts(cutoff, IssuedAtSecond(decided))
  {
    if cutoff.Some? {
      AtOrAfterCutoffIsAccepted(cutoff.value, decided);
    }
  }

  lemma AtOrAfterCutoffIsAccepted(cutoff: nat, decided: nat)
    requires cutoff <= decided
    ensures Accepts(Some(cutoff), IssuedAtSecond(decided))
  {
    assert cutoff == SECOND * (cutoff / SECOND) + cutoff % SECOND;
    assert decided == SECOND * (decided / SECOND) + decided % SECOND;
  }
}
