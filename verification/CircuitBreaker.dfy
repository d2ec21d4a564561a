/**
 * The circuit breaker of one backend, used by calls that do not overlap.
 * The clock counts whole seconds since the epoch.
 */
module CircuitBreaker {

  const FAILURE_THRESHOLD := 5
  const RESET_TIMEOUT_SECS := 30

  datatype CircuitState = Closed | Open | HalfOpen

  datatype Event = Success | Failure(at: nat)

  /** The state shown by a failure count and a stamp when the clock reads `now`. */
  function StateOf(failures: nat, lastFailure: nat, now: nat): (s: CircuitState) {
    if failures < FAILURE_THRESHOLD then Closed
    else if now > lastFailure + RESET_TIMEOUT_SECS then HalfOpen
    else Open
  }

  /** Enough calls have been recorded and the latest of them all failed. */
  ghost predicate Tripped(history: seq<Event>) {
    && |history| >= FAILURE_THRESHOLD
    && forall i :: |history| - FAILURE_THRESHOLD <= i < |history| ==> history[i].Failure?
  }

  /** The state that a history calls for, without counters or stamps. */
  ghost function StateFor(history: seq<Event>, now: nat): (s: CircuitState) {
    if !Tripped(history) then Closed
    else if now > history[|history| - 1].at + RESET_TIMEOUT_SECS then HalfOpen
    else Open
  }

  /** The number of failures after the latest success. */
  ghost function Streak(history: seq<Event>): (n: nat)
    ensures n <= |history|
  {
    if history == [] || history[|history| - 1].Success? then 0
    else 1 + Streak(history[..|history| - 1])
  }

  lemma {:induction false} StreakIsTail(history: seq<Event>)
    ensures forall i :: |history| - Streak(history) <= i < |history| ==> history[i].Failure?
    ensures Streak(history) < |history| ==> history[|history| - Streak(history) - 1].Success?
  {
    if history != [] && history[|history| - 1].Failure? {
      StreakIsTail(history[..|history| - 1]);
    }
  }

  /** A long streak and a tail of failures are the same thing. */
  lemma TrippedIffStreak(history: seq<Event>)
    ensures Tripped(history) <==> Streak(history) >= FAILURE_THRESHOLD
  {
    StreakIsTail(history);
  }

  /** In numbers: four failures leave it closed; five at t open it up to t + 30, and from t + 31 on it is half open. */
  lemma FiveFailuresAt(t: nat, now: nat)
    ensures StateFor(seq(4, _ => Failure(t)), now) == Closed
    ensures StateFor(seq(5, _ => Failure(t)), now) == if now <= t + 30 then Open else HalfOpen
    ensures StateFor(seq(5, _ => Failure(t)) + [Success], now) == Closed
  {
    var five := seq(5, _ => Failure(t));
    assert (five + [Success])[5].Success?;
  }

  class Breaker {
    var failures: nat
    var lastFailureTime: nat
    ghost var history: seq<Event>

    /** The two counters follow the history; the stamp is 0 while the count is below the threshold. */
    ghost predicate Valid()
      reads this
    {
      && failures == Streak(history)
      && lastFailureTime == (if Tripped(history) then history[|history| - 1].at else 0)
    }

    constructor ()
      ensures Valid() && history == []
    {
      failures, lastFailureTime := 0, 0;
      history := [];
    }

    /** For every history of calls, and whatever the clock did, the state is the one it calls for. */
    method State(now: nat) returns (s: CircuitState)
      requires Valid()
      ensures s == StateFor(history, now)
    {
      TrippedIffStreak(history);
      if failures < FAILURE_THRESHOLD {
        return Closed;
      }
      if now > lastFailureTime + RESET_TIMEOUT_SECS {
        return HalfOpen;
      } else {
        return Open;
      }
    }

    method RecordSuccess()
      requires Valid()
      modifies this
      ensures Valid() && history == old(history) + [Success]
      ensures failures == 0 && lastFailureTime == 0
    {
      failures := 0;
      lastFailureTime := 0;
      history := history + [Success];
      TrippedIffStreak(history);
    }

    method RecordFailure(now: nat)
      requires Valid()
      modifies this
      ensures Valid() && history == old(history) + [Failure(now)]
      ensures failures == old(failures) + 1
    {
      var before := failures;
      failures := failures + 1;
      if before + 1 >= FAILURE_THRESHOLD {
        lastFailureTime := now;
      }
      TrippedIffStreak(history);
      history := history + [Failure(now)];
      assert history[..|history| - 1] == old(history);
      TrippedIffStreak(history);
    }
  }
}
