/**
 * Runs of the circuit breaker together with the states they pass through, so that what
 * a call records or answers can be told from the steps of the run.
 */
module BreakerTraces {
  import opened Options
  import opened CircuitBreaker
  import opened CircuitBreakerConcurrent

  ghost predicate StepAt(steps: seq<Step>, states: seq<State>, i: int) {
    0 <= i < |steps| && i + 1 < |states| && Enabled(states[i], steps[i]) && states[i + 1] == Apply(states[i], steps[i])
  }

  /** States[i] is the state before step i. */
  ghost predicate Trace(steps: seq<Step>, states: seq<State>) {
    |states| == |steps| + 1 && states[0] == INITIAL && forall i :: 0 <= i < |steps| ==> StepAt(steps, states, i)
  }

  lemma {:induction false} TraceReaches(steps: seq<Step>, states: seq<State>, n: nat)
    requires Trace(steps, states) && n <= |steps|
    ensures Reaches(steps[..n], states[n])
  {
    if n > 0 {
      TraceReaches(steps, states, n - 1);
      assert StepAt(steps, states, n - 1);
      var more, next := TakeStep(steps[..n - 1], states[n - 1], steps[n - 1]);
      assert more == steps[..n];
    }
  }

  /** Every run has its states. */
  lemma {:induction false} RunHasTrace(steps: seq<Step>, s: State) returns (states: seq<State>)
    requires Reaches(steps, s)
    ensures Trace(steps, states) && states[|steps|] == s
    decreases |steps|
  {
    if steps == [] {
      states := [INITIAL];
    } else {
      var last := |steps| - 1;
      var mid :| Reaches(steps[..last], mid) && Enabled(mid, steps[last]) && s == Apply(mid, steps[last]);
      var before := RunHasTrace(steps[..last], mid);
      states := before + [s];
      forall i | 0 <= i < |steps|
        ensures StepAt(steps, states, i)
      {
        assert i < last ==> StepAt(steps[..last], before, i);
      }
    }
  }

  predicate Concerns(step: Step, t: TaskId) {
    !step.SetClock? && step.task == t
  }

  // ----- which calls the run consists of

  /** The kind of the call that task t has begun, as long as it has taken no step. */
  ghost function Begun(steps: seq<Step>, n: nat, t: TaskId): (kind: Option<Kind>)
    requires n <= |steps|
  {
    if n == 0 then None
    else if !Concerns(steps[n - 1], t) then Begun(steps, n - 1, t)
    else if steps[n - 1].Start? then Some(steps[n - 1].kind)
    else None
  }

  ghost function FirstPhase(kind: Kind): (phase: Phase) {
    match kind
    case RecordSuccess => ResetCounter
    case RecordFailure => AddFailure
    case ReadState => LoadCounter
  }

  lemma {:induction false} BegunShows(steps: seq<Step>, states: seq<State>, n: nat, t: TaskId)
    requires Trace(steps, states) && n <= |steps|
    ensures Begun(steps, n, t).Some? ==> t in states[n].tasks && states[n].tasks[t] == FirstPhase(Begun(steps, n, t).value)
    ensures Begun(steps, n, t).None? && t in states[n].tasks ==>
              !(states[n].tasks[t].ResetCounter? || states[n].tasks[t].AddFailure? || states[n].tasks[t].LoadCounter?)
  {
    if n > 0 {
      BegunShows(steps, states, n - 1, t);
      assert StepAt(steps, states, n - 1);
    }
  }

  /** The recording calls of the first n steps, in the order of their counter steps. */
  ghost function Recorded(steps: seq<Step>, n: nat): (kinds: seq<Kind>)
    requires n <= |steps|
  {
    if n == 0 then []
    else
      var step := steps[n - 1];
      var kind := if step.Advance? then Begun(steps, n - 1, step.task) else None;
      Recorded(steps, n - 1) + if kind.Some? && kind.value != ReadState then [kind.value] else []
  }

  ghost predicate SameCalls(kinds: seq<Kind>, history: seq<Event>) {
    |kinds| == |history| && forall i :: 0 <= i < |kinds| ==> (kinds[i] == RecordSuccess <==> history[i].Success?)
  }

  lemma HistoryGrows(s: State, step: Step)
    requires TagsOk(s) && Enabled(s, step)
    ensures var r := Apply(s, step);
            if step.Advance? && s.tasks[step.task].ResetCounter? then r.history == s.history + [Success]
            else if step.Advance? && s.tasks[step.task].AddFailure? then r.history == s.history + [Failure(0)]
            else SameKinds(s.history, r.history)
  {
    if step.Advance? && s.tasks[step.task].ReadClock? {
      assert TagOk(s, s.tasks[step.task]);
    }
  }

  lemma HistoryStepsTo(steps: seq<Step>, states: seq<State>, n: nat)
    requires Trace(steps, states) && n < |steps|
    ensures var kind := if steps[n].Advance? then Begun(steps, n, steps[n].task) else None;
            if kind == Some(RecordSuccess) then states[n + 1].history == states[n].history + [Success]
            else if kind == Some(RecordFailure) then states[n + 1].history == states[n].history + [Failure(0)]
            else SameKinds(states[n].history, states[n + 1].history)
  {
    assert StepAt(steps, states, n);
    TraceReaches(steps, states, n);
    ReachableInvariant(steps[..n], states[n]);
    HistoryGrows(states[n], steps[n]);
    if steps[n].Advance? {
      BegunShows(steps, states, n, steps[n].task);
    }
  }

  /** In every run, the history lists exactly the recording calls, in the order of their counter steps. */
  lemma {:induction false} HistoryFollowsRun(steps: seq<Step>, states: seq<State>, n: nat)
    requires Trace(steps, states) && n <= |steps|
    ensures SameCalls(Recorded(steps, n), states[n].history)
  {
    if n > 0 {
      HistoryFollowsRun(steps, states, n - 1);
      assert StepAt(steps, states, n - 1);
      HistoryStepsTo(steps, states, n - 1);
    }
  }

  /** The clock shows what the run set it to last. */
  lemma {:induction false} ClockFollowsRun(steps: seq<Step>, states: seq<State>, i: nat, n: nat)
    requires Trace(steps, states) && i < n <= |steps| && steps[i].SetClock?
    requires forall m :: i < m < n ==> !steps[m].SetClock?
    ensures states[n].clock == steps[i].now
    decreases n
  {
    assert StepAt(steps, states, n - 1);
    if n > i + 1 {
      ClockFollowsRun(steps, states, i, n - 1);
    }
  }

  // ----- what one call does

  /** Step i is the first one of a call of this kind by task t. */
  ghost predicate FirstAt(steps: seq<Step>, t: TaskId, kind: Kind, i: int) {
    0 <= i < |steps| && steps[i] == Advance(t) && Begun(steps, i, t) == Some(kind)
  }

  /** Step j is the next one by task t after step i. */
  ghost predicate NextAt(steps: seq<Step>, t: TaskId, i: int, j: int) {
    0 <= i < j < |steps| && steps[j] == Advance(t) && Idle(steps, t, i, j)
  }

  /** Task t takes no step between steps i and n. */
  ghost predicate Idle(steps: seq<Step>, t: TaskId, i: int, n: int) {
    forall m :: 0 <= i < m < n <= |steps| ==> !Concerns(steps[m], t)
  }

  lemma {:induction false} PhaseStays(steps: seq<Step>, states: seq<State>, t: TaskId, i: nat, n: nat)
    requires Trace(steps, states) && i < n <= |steps| && Idle(steps, t, i, n)
    ensures t in states[n].tasks <==> t in states[i + 1].tasks
    ensures t in states[n].tasks ==> states[n].tasks[t] == states[i + 1].tasks[t]
    decreases n
  {
    if n > i + 1 {
      PhaseStays(steps, states, t, i, n - 1);
      assert StepAt(steps, states, n - 1);
    }
  }

  /** A success resets the counter with its first step and the stamp with its second. */
  lemma SuccessResets(steps: seq<Step>, states: seq<State>, t: TaskId, i: nat, j: nat)
    requires Trace(steps, states) && FirstAt(steps, t, RecordSuccess, i) && NextAt(steps, t, i, j)
    ensures states[i + 1].failures == 0 && states[j + 1].lastFailureTime == 0
    ensures states[j + 1].failures == states[j].failures && t !in states[j + 1].tasks
  {
    BegunShows(steps, states, i, t);
    assert StepAt(steps, states, i) && StepAt(steps, states, j);
    PhaseStays(steps, states, t, i, j);
  }

  /** A failure adds one; below the threshold it is over. */
  lemma FailureAdds(steps: seq<Step>, states: seq<State>, t: TaskId, i: nat)
    requires Trace(steps, states) && FirstAt(steps, t, RecordFailure, i)
    ensures states[i + 1].failures == states[i].failures + 1 && states[i + 1].lastFailureTime == states[i].lastFailureTime
    ensures t in states[i + 1].tasks <==> states[i].failures + 1 >= 5
  {
    BegunShows(steps, states, i, t);
    assert StepAt(steps, states, i);
  }

  lemma {:induction false} StampsGrow(steps: seq<Step>, states: seq<State>, i: nat, n: nat)
    requires Trace(steps, states) && i <= n <= |steps|
    ensures states[i].stamps <= states[n].stamps
    decreases n
  {
    if n > i {
      StampsGrow(steps, states, i, n - 1);
      assert StepAt(steps, states, n - 1);
    }
  }

  /**
   * A failure that reaches the threshold stores the reading of its own clock step, and
   * its place in the history carries that reading ever after.
   */
  lemma FailureStoresItsReading(steps: seq<Step>, states: seq<State>, t: TaskId, i: nat, j: nat, k: nat, n: nat)
    requires Trace(steps, states) && FirstAt(steps, t, RecordFailure, i) && NextAt(steps, t, i, j) && NextAt(steps, t, j, k)
    requires k < n <= |steps|
    ensures states[k + 1].lastFailureTime == states[j].clock && t !in states[k + 1].tasks
    ensures |states[i].history| < |states[n].history| && states[n].history[|states[i].history|] == Failure(states[j].clock)
  {
    FailureAdds(steps, states, t, i);
    BegunShows(steps, states, i, t);
    assert StepAt(steps, states, i) && StepAt(steps, states, j) && StepAt(steps, states, k);
    PhaseStays(steps, states, t, i, j);
    PhaseStays(steps, states, t, j, k);
    var at := |states[i].history| + 1;
    assert states[k + 1].stamps == states[k].stamps + [Stamped(at, states[j].clock)];
    StampsGrow(steps, states, k + 1, n);
    TraceReaches(steps, states, n);
    ReachableInvariant(steps[..n], states[n]);
    assert states[n].stamps[|states[k].stamps|] == Stamped(at, states[j].clock);
    assert StampOk(states[n], states[n].stamps[|states[k].stamps|]);
  }

  // ----- what a reader answers

  /** The reader loads the counter at i, then the stamp at j, and compares at k. */
  ghost predicate ReadsAt(steps: seq<Step>, t: TaskId, i: int, j: int, k: int) {
    FirstAt(steps, t, ReadState, i) && NextAt(steps, t, i, j) && NextAt(steps, t, j, k)
  }

  /** A reader that finds the count below the threshold answers Closed at once. */
  lemma ClosedAtOnce(steps: seq<Step>, states: seq<State>, t: TaskId, i: nat)
    requires Trace(steps, states) && FirstAt(steps, t, ReadState, i)
    ensures t in states[i + 1].tasks
    ensures if states[i].failures < 5
            then states[i + 1].tasks[t].Answered? && states[i + 1].tasks[t].answer == Closed
            else states[i + 1].tasks[t].LoadStamp?
  {
    BegunShows(steps, states, i, t);
    assert StepAt(steps, states, i);
  }

  /** An answer stays: an answered task takes no further step. */
  lemma {:induction false} AnswerStays(steps: seq<Step>, states: seq<State>, t: TaskId, i: nat, n: nat)
    requires Trace(steps, states) && i <= n <= |steps| && t in states[i].tasks && states[i].tasks[t].Answered?
    ensures t in states[n].tasks && states[n].tasks[t] == states[i].tasks[t]
    decreases n
  {
    if n > i {
      AnswerStays(steps, states, t, i, n - 1);
      assert StepAt(steps, states, n - 1);
    }
  }

  /**
   * In every run, a reader that finds the count at the threshold or above answers by the
   * stamp as it was at its second step and the clock as it was at its third.
   */
  lemma ReaderAnswers(steps: seq<Step>, states: seq<State>, t: TaskId, i: nat, j: nat, k: nat, n: nat)
    requires Trace(steps, states) && ReadsAt(steps, t, i, j, k) && k < n <= |steps|
    ensures t in states[n].tasks && states[n].tasks[t].Answered?
    ensures states[n].tasks[t].answer == StateOf(states[i].failures, states[j].lastFailureTime, states[k].clock)
    ensures states[n].tasks[t].lastFailure == states[j].lastFailureTime && states[n].tasks[t].now == states[k].clock
  {
    ClosedAtOnce(steps, states, t, i);
    assert StepAt(steps, states, i) && StepAt(steps, states, j) && StepAt(steps, states, k);
    PhaseStays(steps, states, t, i, j);
    PhaseStays(steps, states, t, j, k);
    AnswerStays(steps, states, t, k + 1, n);
  }

  /** The step is one of a recording call. */
  predicate Records(s: State, step: Step) {
    step.Advance? && step.task in s.tasks && (Between(s.tasks[step.task]) || CounterStep(s, step))
  }

  ghost predicate Quiet(steps: seq<Step>, states: seq<State>, i: int, n: int) {
    |states| == |steps| + 1 && forall m :: 0 <= i <= m < n <= |steps| ==> !Records(states[m], steps[m])
  }

  lemma {:induction false} FieldsStay(steps: seq<Step>, states: seq<State>, i: nat, n: nat)
    requires Trace(steps, states) && i <= n <= |steps| && Quiet(steps, states, i, n)
    ensures states[n].failures == states[i].failures && states[n].lastFailureTime == states[i].lastFailureTime
    decreases n
  {
    if n > i {
      FieldsStay(steps, states, i, n - 1);
      assert StepAt(steps, states, n - 1) && !Records(states[n - 1], steps[n - 1]);
    }
  }

  /** If no recording call steps while it reads, a reader answers by the fields and the clock at its last step. */
  lemma QuietReader(steps: seq<Step>, states: seq<State>, t: TaskId, i: nat, j: nat, k: nat, n: nat)
    requires Trace(steps, states) && ReadsAt(steps, t, i, j, k) && k < n <= |steps| && Quiet(steps, states, i, k)
    ensures t in states[n].tasks && states[n].tasks[t].Answered?
    ensures states[n].tasks[t].answer == StateOf(states[k].failures, states[k].lastFailureTime, states[k].clock)
  {
    ReaderAnswers(steps, states, t, i, j, k, n);
    FieldsStay(steps, states, i, k);
    FieldsStay(steps, states, j, k);
  }

  /** And if the recording calls before it were calm and are over, it answers by the history. */
  lemma CalmReader(steps: seq<Step>, states: seq<State>, t: TaskId, i: nat, j: nat, k: nat, n: nat)
    requires Trace(steps, states) && ReadsAt(steps, t, i, j, k) && k < n <= |steps| && Quiet(steps, states, i, k)
    requires Calm(steps[..k], states[k]) && Settled(states[k]) && states[k].clock > RESET_TIMEOUT_SECS
    ensures t in states[n].tasks && states[n].tasks[t].Answered?
    ensures states[n].tasks[t].answer == StateFor(states[k].history, states[k].clock)
  {
    QuietReader(steps, states, t, i, j, k, n);
    SequentialIfCalm(steps[..k], states[k]);
  }
}
