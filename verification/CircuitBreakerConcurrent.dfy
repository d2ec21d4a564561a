/**
 * The circuit breaker with overlapping calls.
 *
 * Each load, addition and store is one atomic step, and any task may step next.  The
 * wall clock may be set to anything at any time.  Two records say what happened; the
 * program has no such variables.  `history` lists the recorded calls in the order of
 * their counter steps, and a failure that reached the threshold carries the time that
 * it read from the clock.  `stamps` lists the stores to the stamp.
 */
module CircuitBreakerConcurrent {
  import opened CircuitBreaker

  type TaskId = nat

  datatype Kind = RecordSuccess | RecordFailure | ReadState

  /** The next atomic step of a task.  `at` counts the calls in the history up to its own. */
  datatype Phase =
    | ResetCounter
    | ResetStamp(at: nat)
    | AddFailure
    | ReadClock(at: nat)
    | StoreStamp(at: nat, stamp: nat)
    | LoadCounter
    | LoadStamp(at: nat)
    | Compare(at: nat, lastFailure: nat)
    | Answered(at: nat, answer: CircuitState, lastFailure: nat, now: nat)

  /** A store to the stamp, by the call with number `at`. */
  datatype Stamp = Cleared(at: nat) | Stamped(at: nat, time: nat)

  datatype State = State(
    failures: nat,
    lastFailureTime: nat,
    clock: nat,
    tasks: map<TaskId, Phase>,
    history: seq<Event>,
    stamps: seq<Stamp>)

  datatype Step =
    | SetClock(now: nat)
    | Start(task: TaskId, kind: Kind)
    | Advance(task: TaskId)

  const INITIAL := State(0, 0, 0, map[], [], [])

  predicate Enabled(s: State, step: Step) {
    match step
    case SetClock(_) => true
    case Start(t, _) => t !in s.tasks
    case Advance(t) => t in s.tasks && !s.tasks[t].Answered?
  }

  function Apply(s: State, step: Step): (r: State)
    requires Enabled(s, step)
  {
    match step
    case SetClock(now) => s.(clock := now)
    case Start(t, kind) =>
      s.(tasks := s.tasks[t := match kind
                               case RecordSuccess => ResetCounter
                               case RecordFailure => AddFailure
                               case ReadState => LoadCounter])
    case Advance(t) => AdvanceTask(s, t)
  }

  /** The history with the clock reading of call number `at` filled in. */
  function Filled(history: seq<Event>, at: nat, time: nat): (h: seq<Event>)
    ensures |h| == |history|
  {
    if 0 < at <= |history| then history[at - 1 := Failure(time)] else history
  }

  function AdvanceTask(s: State, t: TaskId): (r: State)
    requires Enabled(s, Advance(t))
  {
    match s.tasks[t]
    case ResetCounter =>
      s.(failures := 0, history := s.history + [Success], tasks := s.tasks[t := ResetStamp(|s.history| + 1)])
    case ResetStamp(at) =>
      s.(lastFailureTime := 0, stamps := s.stamps + [Cleared(at)], tasks := s.tasks - {t})
    case AddFailure =>
      var r := s.(failures := s.failures + 1, history := s.history + [Failure(0)]);
      if s.failures + 1 >= FAILURE_THRESHOLD
      then r.(tasks := s.tasks[t := ReadClock(|s.history| + 1)])
      else r.(tasks := s.tasks - {t})
    case ReadClock(at) =>
      s.(history := Filled(s.history, at, s.clock), tasks := s.tasks[t := StoreStamp(at, s.clock)])
    case StoreStamp(at, stamp) =>
      s.(lastFailureTime := stamp, stamps := s.stamps + [Stamped(at, stamp)], tasks := s.tasks - {t})
    case LoadCounter =>
      if s.failures < FAILURE_THRESHOLD
      then s.(tasks := s.tasks[t := Answered(|s.history|, Closed, 0, s.clock)])
      else s.(tasks := s.tasks[t := LoadStamp(|s.history|)])
    case LoadStamp(at) =>
      s.(tasks := s.tasks[t := Compare(at, s.lastFailureTime)])
    case Compare(at, last) =>
      var answer := if s.clock > last + RESET_TIMEOUT_SECS then HalfOpen else Open;
      s.(tasks := s.tasks[t := Answered(at, answer, last, s.clock)])
  }

  ghost predicate Reaches(steps: seq<Step>, s: State)
    decreases |steps|
  {
    if steps == [] then s == INITIAL
    else
      var last := |steps| - 1;
      exists before: State :: Reaches(steps[..last], before) && Enabled(before, steps[last]) && s == Apply(before, steps[last])
  }

  /** The call has taken its counter step and has yet to store its stamp. */
  predicate Between(phase: Phase) {
    phase.ResetStamp? || phase.ReadClock? || phase.StoreStamp?
  }

  /** No recording call stands between its two steps. */
  ghost predicate Settled(s: State) {
    forall t :: t in s.tasks ==> !Between(s.tasks[t])
  }

  // ----- the records only grow

  ghost predicate SameKinds(a: seq<Event>, b: seq<Event>) {
    |a| == |b| && forall i :: 0 <= i < |a| ==> (a[i].Failure? <==> b[i].Failure?)
  }

  lemma {:induction false} StreakByKind(a: seq<Event>, b: seq<Event>)
    requires SameKinds(a, b)
    ensures Streak(a) == Streak(b)
  {
    if a != [] && a[|a| - 1].Failure? {
      StreakByKind(a[..|a| - 1], b[..|b| - 1]);
    }
  }

  /** After `at` recorded calls the count stood at the threshold or above. */
  ghost predicate TrippedAt(s: State, at: nat) {
    at <= |s.history| && Streak(s.history[..at]) >= FAILURE_THRESHOLD
  }

  /** `later` extends the two records of `s`; it may fill in clock readings. */
  ghost predicate Extends(s: State, later: State) {
    && |s.history| <= |later.history|
    && SameKinds(s.history, later.history[..|s.history|])
    && s.stamps <= later.stamps
  }

  lemma StepExtends(s: State, step: Step)
    requires Enabled(s, step)
    requires step.Advance? && s.tasks[step.task].ReadClock? ==> TagOk(s, s.tasks[step.task])
    ensures Extends(s, Apply(s, step))
  {
  }

  lemma TrippedStays(s: State, later: State, at: nat)
    requires Extends(s, later) && at <= |s.history|
    ensures TrippedAt(later, at) <==> TrippedAt(s, at)
  {
    StreakByKind(s.history[..at], later.history[..at]);
  }

  lemma StreakAppend(history: seq<Event>, e: Event)
    ensures Streak(history + [e]) == if e.Success? then 0 else Streak(history) + 1
  {
    assert (history + [e])[..|history|] == history;
  }

  // ----- each call and its own store

  /** The phase belongs to the call that its number names. */
  ghost predicate TagOk(s: State, phase: Phase)
    requires Between(phase)
  {
    && 0 < phase.at <= |s.history|
    && match phase
       case ResetStamp(at) => s.history[at - 1].Success?
       case ReadClock(at) => s.history[at - 1].Failure? && TrippedAt(s, at)
       case StoreStamp(at, time) => s.history[at - 1] == Failure(time) && TrippedAt(s, at)
       case _ => true
  }

  ghost predicate StampOk(s: State, stamp: Stamp) {
    && 0 < stamp.at <= |s.history|
    && match stamp
       case Cleared(at) => s.history[at - 1].Success?
       case Stamped(at, time) => s.history[at - 1] == Failure(time) && TrippedAt(s, at)
  }

  ghost predicate TagsOk(s: State) {
    && (forall t :: t in s.tasks && Between(s.tasks[t]) ==> TagOk(s, s.tasks[t]))
    && (forall i :: 0 <= i < |s.stamps| ==> StampOk(s, s.stamps[i]))
  }

  /** No two of the waiting tasks and the stores belong to the same call. */
  ghost predicate TagsDistinct(s: State) {
    && (forall t, u :: t in s.tasks && u in s.tasks && t != u && Between(s.tasks[t]) && Between(s.tasks[u]) ==>
          s.tasks[t].at != s.tasks[u].at)
    && (forall t, i :: t in s.tasks && Between(s.tasks[t]) && 0 <= i < |s.stamps| ==> s.tasks[t].at != s.stamps[i].at)
    && (forall i, j :: 0 <= i < j < |s.stamps| ==> s.stamps[i].at != s.stamps[j].at)
  }

  /** The call stores to the stamp: a success does, and so does a failure that reached the threshold. */
  ghost predicate Stores(s: State, at: nat) {
    0 < at <= |s.history| && (s.history[at - 1].Success? || TrippedAt(s, at))
  }

  ghost predicate WaitsAs(s: State, at: nat, t: TaskId) {
    t in s.tasks && Between(s.tasks[t]) && s.tasks[t].at == at
  }

  ghost predicate StoredAs(s: State, at: nat, i: int) {
    0 <= i < |s.stamps| && s.stamps[i].at == at
  }

  /** Every call that stores has stored, or a task is about to store for it. */
  ghost predicate NothingForgotten(s: State) {
    forall at :: Stores(s, at) ==> (exists t :: WaitsAs(s, at, t)) || (exists i :: StoredAs(s, at, i))
  }

  ghost function ValueOf(stamp: Stamp): (time: nat) {
    if stamp.Stamped? then stamp.time else 0
  }

  ghost predicate Fields(s: State) {
    && s.failures == Streak(s.history)
    && s.lastFailureTime == if s.stamps == [] then 0 else ValueOf(s.stamps[|s.stamps| - 1])
  }

  // ----- readers

  /** The time was stored by a failure whose own addition reached the threshold. */
  ghost predicate StampedBy(s: State, time: nat, i: int) {
    0 <= i < |s.stamps| && s.stamps[i].Stamped? && s.stamps[i].time == time && TrippedAt(s, s.stamps[i].at)
  }

  ghost predicate ZeroOrStamped(s: State, time: nat) {
    time == 0 || exists i :: StampedBy(s, time, i)
  }

  ghost predicate ReaderOk(s: State, phase: Phase) {
    match phase
    case LoadStamp(at) => TrippedAt(s, at)
    case Compare(at, last) => TrippedAt(s, at) && ZeroOrStamped(s, last)
    case Answered(at, answer, last, now) =>
      && at <= |s.history|
      && (answer.Closed? <==> !TrippedAt(s, at))
      && (answer.Open? ==> now <= last + RESET_TIMEOUT_SECS && ZeroOrStamped(s, last))
      && (answer.HalfOpen? ==> now > last + RESET_TIMEOUT_SECS && ZeroOrStamped(s, last))
    case _ => true
  }

  ghost predicate ReadersOk(s: State) {
    forall t :: t in s.tasks ==> ReaderOk(s, s.tasks[t])
  }

  ghost predicate Invariant(s: State) {
    Fields(s) && TagsOk(s) && TagsDistinct(s) && NothingForgotten(s) && ReadersOk(s)
  }

  // ----- the invariant is kept

  lemma OwnExtends(s: State, step: Step)
    requires TagsOk(s) && Enabled(s, step)
    ensures Extends(s, Apply(s, step))
  {
    if step.Advance? && s.tasks[step.task].ReadClock? {
      assert TagOk(s, s.tasks[step.task]);
    }
    StepExtends(s, step);
  }

  lemma FieldsStep(s: State, step: Step)
    requires Fields(s) && TagsOk(s) && Enabled(s, step)
    ensures Fields(Apply(s, step))
  {
    StreakAppend(s.history, Success);
    StreakAppend(s.history, Failure(0));
    if step.Advance? && s.tasks[step.task].ReadClock? {
      assert TagOk(s, s.tasks[step.task]);
      StreakByKind(s.history, Apply(s, step).history);
    }
  }

  /** A step changes the history only at its end or at the stepping call's own place. */
  lemma HistoryStep(s: State, step: Step, p: nat)
    requires Enabled(s, step) && p < |s.history|
    requires !(step.Advance? && s.tasks[step.task].ReadClock? && s.tasks[step.task].at == p + 1)
    ensures p < |Apply(s, step).history| && Apply(s, step).history[p] == s.history[p]
  {
  }

  lemma TagStays(s: State, step: Step, phase: Phase)
    requires TagsOk(s) && Enabled(s, step) && Between(phase) && TagOk(s, phase)
    requires step.Advance? && s.tasks[step.task].ReadClock? ==> s.tasks[step.task].at != phase.at
    ensures TagOk(Apply(s, step), phase)
  {
    HistoryStep(s, step, phase.at - 1);
    OwnExtends(s, step);
    TrippedStays(s, Apply(s, step), phase.at);
  }

  lemma StampStays(s: State, step: Step, stamp: Stamp)
    requires TagsOk(s) && Enabled(s, step) && StampOk(s, stamp)
    requires step.Advance? && s.tasks[step.task].ReadClock? ==> s.tasks[step.task].at != stamp.at
    ensures StampOk(Apply(s, step), stamp)
  {
    HistoryStep(s, step, stamp.at - 1);
    OwnExtends(s, step);
    TrippedStays(s, Apply(s, step), stamp.at);
  }

  lemma OwnTag(s: State, t: TaskId)
    requires Fields(s) && TagsOk(s) && Enabled(s, Advance(t))
    ensures var r := AdvanceTask(s, t); t in r.tasks && Between(r.tasks[t]) ==> TagOk(r, r.tasks[t])
  {
    var r := AdvanceTask(s, t);
    match s.tasks[t] {
      case ResetCounter =>
        assert r.tasks[t] == ResetStamp(|s.history| + 1);
      case AddFailure =>
        StreakAppend(s.history, Failure(0));
        assert r.history[..|r.history|] == r.history;
      case ReadClock(at) =>
        assert TagOk(s, s.tasks[t]);
        OwnExtends(s, Advance(t));
        TrippedStays(s, r, at);
      case _ =>
    }
  }

  lemma TagsOkStep(s: State, step: Step)
    requires Fields(s) && TagsOk(s) && TagsDistinct(s) && Enabled(s, step)
    ensures TagsOk(Apply(s, step))
  {
    var r := Apply(s, step);
    forall u | u in r.tasks && Between(r.tasks[u])
      ensures TagOk(r, r.tasks[u])
    {
      if step.Advance? && u == step.task {
        OwnTag(s, u);
      } else {
        TagStays(s, step, s.tasks[u]);
      }
    }
    forall i | 0 <= i < |r.stamps|
      ensures StampOk(r, r.stamps[i])
    {
      if i < |s.stamps| {
        StampStays(s, step, s.stamps[i]);
      } else {
        assert TagOk(s, s.tasks[step.task]);
        assert r.history == s.history;
      }
    }
  }

  lemma TagsDistinctStep(s: State, step: Step)
    requires TagsOk(s) && TagsDistinct(s) && Enabled(s, step)
    ensures TagsDistinct(Apply(s, step))
  {
    if CounterStep(s, step) {
      TagsBounded(s);
      FreshTag(s, step);
    } else if step.Advance? && Between(s.tasks[step.task]) && !s.tasks[step.task].ReadClock? {
      TagMoves(s, step.task);
    }
  }

  lemma TagsBounded(s: State)
    requires TagsOk(s)
    ensures forall t :: t in s.tasks && Between(s.tasks[t]) ==> s.tasks[t].at <= |s.history|
    ensures forall i :: 0 <= i < |s.stamps| ==> s.stamps[i].at <= |s.history|
  {
    forall i | 0 <= i < |s.stamps|
      ensures s.stamps[i].at <= |s.history|
    {
      assert StampOk(s, s.stamps[i]);
    }
  }

  /** A counter step makes a call with a new number. */
  lemma FreshTag(s: State, step: Step)
    requires TagsDistinct(s) && Enabled(s, step) && CounterStep(s, step)
    requires forall t :: t in s.tasks && Between(s.tasks[t]) ==> s.tasks[t].at <= |s.history|
    requires forall i :: 0 <= i < |s.stamps| ==> s.stamps[i].at <= |s.history|
    ensures TagsDistinct(Apply(s, step))
  {
  }

  /** A store takes the number over from its task. */
  lemma TagMoves(s: State, t: TaskId)
    requires TagsDistinct(s) && Enabled(s, Advance(t)) && (s.tasks[t].ResetStamp? || s.tasks[t].StoreStamp?)
    ensures TagsDistinct(AdvanceTask(s, t))
  {
  }

  lemma NothingForgottenStep(s: State, step: Step)
    requires Fields(s) && TagsOk(s) && NothingForgotten(s) && Enabled(s, step)
    ensures NothingForgotten(Apply(s, step))
  {
    var r := Apply(s, step);
    forall at: nat | Stores(r, at)
      ensures (exists t :: WaitsAs(r, at, t)) || (exists i :: StoredAs(r, at, i))
    {
      if at <= |s.history| {
        OldCallRemembered(s, step, at);
      } else {
        NewCallRemembered(s, step, at);
      }
    }
  }

  lemma OldCallRemembered(s: State, step: Step, at: nat)
    requires TagsOk(s) && NothingForgotten(s) && Enabled(s, step)
    requires at <= |s.history| && Stores(Apply(s, step), at)
    ensures var r := Apply(s, step); (exists t :: WaitsAs(r, at, t)) || (exists i :: StoredAs(r, at, i))
  {
    var r := Apply(s, step);
    OwnExtends(s, step);
    TrippedStays(s, r, at);
    assert s.history[at - 1].Failure? <==> r.history[..|s.history|][at - 1].Failure?;
    assert Stores(s, at);
    if exists i :: StoredAs(s, at, i) {
      var i :| StoredAs(s, at, i);
      assert StoredAs(r, at, i);
    } else {
      var t :| WaitsAs(s, at, t);
      if step.Advance? && step.task == t && !s.tasks[t].ReadClock? {
        assert StoredAs(r, at, |s.stamps|);
      } else {
        assert WaitsAs(r, at, t);
      }
    }
  }

  lemma NewCallRemembered(s: State, step: Step, at: nat)
    requires Fields(s) && Enabled(s, step) && at > |s.history| && Stores(Apply(s, step), at)
    ensures exists t :: WaitsAs(Apply(s, step), at, t)
  {
    var r := Apply(s, step);
    StreakAppend(s.history, Failure(0));
    assert r.history[..|r.history|] == r.history;
    assert WaitsAs(r, at, step.task);
  }

  lemma StampedStays(s: State, later: State, time: nat)
    requires TagsOk(s) && Extends(s, later) && ZeroOrStamped(s, time)
    ensures ZeroOrStamped(later, time)
  {
    if time != 0 {
      var i :| StampedBy(s, time, i);
      TrippedStays(s, later, s.stamps[i].at);
      assert StampedBy(later, time, i);
    }
  }

  lemma ReaderStays(s: State, later: State, phase: Phase)
    requires TagsOk(s) && Extends(s, later) && ReaderOk(s, phase)
    ensures ReaderOk(later, phase)
  {
    if phase.LoadStamp? || phase.Compare? || phase.Answered? {
      TrippedStays(s, later, phase.at);
    }
    if phase.Compare? || (phase.Answered? && !phase.answer.Closed?) {
      StampedStays(s, later, phase.lastFailure);
    }
  }

  lemma LatestStamp(s: State)
    requires Fields(s) && TagsOk(s)
    ensures ZeroOrStamped(s, s.lastFailureTime)
  {
    var last := |s.stamps| - 1;
    if s.stamps != [] && s.stamps[last].Stamped? {
      assert StampOk(s, s.stamps[last]);
      assert StampedBy(s, s.lastFailureTime, last);
    }
  }

  lemma OwnReader(s: State, t: TaskId)
    requires Fields(s) && TagsOk(s) && ReadersOk(s) && Enabled(s, Advance(t))
    ensures var r := AdvanceTask(s, t); t in r.tasks ==> ReaderOk(r, r.tasks[t])
  {
    var r := AdvanceTask(s, t);
    OwnExtends(s, Advance(t));
    match s.tasks[t] {
      case LoadCounter => assert s.history[..|s.history|] == s.history;
      case LoadStamp(at) =>
        LatestStamp(s);
        ReaderStays(s, r, Compare(at, s.lastFailureTime));
      case Compare(at, last) => ReaderStays(s, r, s.tasks[t]);
      case _ =>
    }
  }

  lemma ReadersOkStep(s: State, step: Step)
    requires Fields(s) && TagsOk(s) && ReadersOk(s) && Enabled(s, step)
    ensures ReadersOk(Apply(s, step))
  {
    var r := Apply(s, step);
    OwnExtends(s, step);
    forall u | u in r.tasks
      ensures ReaderOk(r, r.tasks[u])
    {
      if step.Advance? && u == step.task {
        OwnReader(s, u);
      } else if u in s.tasks && !(step.Start? && u == step.task) {
        ReaderStays(s, r, s.tasks[u]);
      }
    }
  }

  lemma {:induction false} ReachableInvariant(steps: seq<Step>, s: State)
    requires Reaches(steps, s)
    ensures Invariant(s)
    decreases |steps|
  {
    if steps != [] {
      var last := |steps| - 1;
      var before :| Reaches(steps[..last], before) && Enabled(before, steps[last]) && s == Apply(before, steps[last]);
      ReachableInvariant(steps[..last], before);
      InvariantStep(before, steps[last]);
    }
  }

  lemma InvariantStep(s: State, step: Step)
    requires Invariant(s) && Enabled(s, step)
    ensures Invariant(Apply(s, step))
  {
    FieldsStep(s, step);
    TagsOkStep(s, step);
    TagsDistinctStep(s, step);
    NothingForgottenStep(s, step);
    ReadersOkStep(s, step);
  }

  // ----- what survives every interleaving

  /** Closed is answered exactly when the count, at the moment it was read, was below the threshold. */
  lemma ClosedIsExact(steps: seq<Step>, s: State, t: TaskId)
    requires Reaches(steps, s) && t in s.tasks && s.tasks[t].Answered?
    ensures s.tasks[t].at <= |s.history|
    ensures s.tasks[t].answer == Closed <==> Streak(s.history[..s.tasks[t].at]) < FAILURE_THRESHOLD
  {
    ReachableInvariant(steps, s);
    assert ReaderOk(s, s.tasks[t]);
  }

  /**
   * Whatever the interleaving, a reader that saw a clock past 30 s and answers Open saw
   * at least five additions since the latest reset, and a stamp no more than 30 s old
   * that a failure reaching the threshold had stored.
   */
  lemma OpenIsJustified(steps: seq<Step>, s: State, t: TaskId)
    requires Reaches(steps, s) && t in s.tasks && s.tasks[t].Answered? && s.tasks[t].answer == Open
    requires s.tasks[t].now > RESET_TIMEOUT_SECS
    ensures TrippedAt(s, s.tasks[t].at)
    ensures exists i :: 0 <= i < |s.stamps| && s.stamps[i].Stamped? && TrippedAt(s, s.stamps[i].at) &&
                        s.tasks[t].now <= s.stamps[i].time + RESET_TIMEOUT_SECS
  {
    ClosedIsExact(steps, s, t);
    ReachableInvariant(steps, s);
    assert ReaderOk(s, s.tasks[t]);
    var i :| StampedBy(s, s.tasks[t].lastFailure, i);
  }

  /** So no reader is stuck on Open once 30 s have passed beyond every stored stamp. */
  lemma NeverStuckOpen(steps: seq<Step>, s: State, t: TaskId)
    requires Reaches(steps, s) && t in s.tasks && s.tasks[t].Answered?
    requires s.tasks[t].now > RESET_TIMEOUT_SECS
    requires forall i :: 0 <= i < |s.stamps| && s.stamps[i].Stamped? ==>
               s.tasks[t].now > s.stamps[i].time + RESET_TIMEOUT_SECS
    ensures s.tasks[t].answer != Open
  {
    if s.tasks[t].answer == Open {
      OpenIsJustified(steps, s, t);
    }
  }

  /**
   * In every interleaving, each success and each failure that reached the threshold has
   * exactly one store to the stamp, done or about to be done, and a failure's store
   * carries its own clock reading.
   */
  lemma OneStorePerCall(steps: seq<Step>, s: State, at: nat)
    requires Reaches(steps, s) && Stores(s, at)
    ensures (exists t :: WaitsAs(s, at, t)) || (exists i :: StoredAs(s, at, i))
    ensures forall t, i :: !(WaitsAs(s, at, t) && StoredAs(s, at, i))
    ensures forall t, u :: WaitsAs(s, at, t) && WaitsAs(s, at, u) ==> t == u
    ensures forall i, j :: StoredAs(s, at, i) && StoredAs(s, at, j) ==> i == j
    ensures forall i :: StoredAs(s, at, i) && s.history[at - 1].Failure? ==> s.stamps[i] == Stamped(at, s.history[at - 1].at)
  {
    ReachableInvariant(steps, s);
    forall i | StoredAs(s, at, i) && s.history[at - 1].Failure?
      ensures s.stamps[i] == Stamped(at, s.history[at - 1].at)
    {
      assert StampOk(s, s.stamps[i]);
    }
  }

  // ----- when the answer is that of the same calls one after the other

  /** Whoever asks gets the answer that the history calls for. */
  ghost predicate Sequential(s: State) {
    forall now :: now > RESET_TIMEOUT_SECS ==> StateOf(s.failures, s.lastFailureTime, now) == StateFor(s.history, now)
  }

  /** The latest store to the stamp left the clock reading of the latest call. */
  ghost predicate LatestCallShows(s: State) {
    && s.stamps != [] && s.history != [] && s.history[|s.history| - 1].Failure?
    && ValueOf(s.stamps[|s.stamps| - 1]) == s.history[|s.history| - 1].at
  }

  lemma StateWithStreak(s: State, now: nat)
    requires Fields(s)
    ensures StateFor(s.history, now) ==
            if s.failures < FAILURE_THRESHOLD then Closed
            else StateOf(s.failures, s.history[|s.history| - 1].at, now)
  {
    TrippedIffStreak(s.history);
  }

  /**
   * With no recording call between its two steps, the breaker answers as after the same
   * calls one after the other exactly when the count is below the threshold, or the
   * latest store to the stamp left the clock reading of the latest call.  The latest
   * call has stored that reading; if its store is the latest one, the condition holds.
   */
  lemma SequentialIff(steps: seq<Step>, s: State)
    requires Reaches(steps, s) && Settled(s)
    ensures Sequential(s) <==> s.failures < FAILURE_THRESHOLD || LatestCallShows(s)
    ensures s.stamps != [] && s.stamps[|s.stamps| - 1].at == |s.history| ==> Sequential(s)
    ensures s.failures >= FAILURE_THRESHOLD ==>
              && s.history != [] && s.history[|s.history| - 1].Failure?
              && exists i :: StoredAs(s, |s.history|, i) && s.stamps[i] == Stamped(|s.history|, s.history[|s.history| - 1].at)
  {
    ReachableInvariant(steps, s);
    if s.failures >= FAILURE_THRESHOLD {
      LatestHasStored(s);
      SequentialIffShows(s);
      OwnStoreShows(s);
    } else {
      ClosedIsSequential(s);
    }
  }

  lemma ClosedIsSequential(s: State)
    requires Fields(s) && s.failures < FAILURE_THRESHOLD
    ensures Sequential(s)
  {
    forall now: nat
      ensures StateOf(s.failures, s.lastFailureTime, now) == StateFor(s.history, now)
    {
      StateWithStreak(s, now);
    }
  }

  lemma OwnStoreShows(s: State)
    requires TagsOk(s) && s.stamps != [] && s.history != [] && s.history[|s.history| - 1].Failure?
    ensures s.stamps[|s.stamps| - 1].at == |s.history| ==> LatestCallShows(s)
  {
    assert StampOk(s, s.stamps[|s.stamps| - 1]);
  }

  lemma LatestHasStored(s: State)
    requires Invariant(s) && Settled(s) && s.failures >= FAILURE_THRESHOLD
    ensures s.stamps != [] && s.history != [] && s.history[|s.history| - 1].Failure?
    ensures exists i :: StoredAs(s, |s.history|, i) && s.stamps[i] == Stamped(|s.history|, s.history[|s.history| - 1].at)
  {
    var n := |s.history|;
    assert s.history[..n] == s.history;
    assert Stores(s, n);
    assert forall t :: !WaitsAs(s, n, t);
    var i :| StoredAs(s, n, i);
    assert StampOk(s, s.stamps[i]);
  }

  lemma SequentialIffShows(s: State)
    requires Fields(s) && s.failures >= FAILURE_THRESHOLD
    requires s.stamps != [] && s.history != [] && s.history[|s.history| - 1].Failure?
    ensures Sequential(s) <==> LatestCallShows(s)
  {
    var shown, read := s.lastFailureTime, s.history[|s.history| - 1].at;
    forall now: nat
      ensures StateFor(s.history, now) == StateOf(s.failures, read, now)
    {
      StateWithStreak(s, now);
    }
    if shown != read {
      var later := (if shown < read then read else shown) + RESET_TIMEOUT_SECS;
      assert StateOf(s.failures, shown, later) != StateOf(s.failures, read, later);
    }
  }

  /** The step resets or increments the counter. */
  predicate CounterStep(s: State, step: Step) {
    step.Advance? && step.task in s.tasks && (s.tasks[step.task].ResetCounter? || s.tasks[step.task].AddFailure?)
  }

  /**
   * The run was calm when it mattered: at the latest counter step no other recording
   * call stood between its own counter step and its store.
   */
  ghost predicate Calm(steps: seq<Step>, s: State)
    decreases |steps|
  {
    if steps == [] then s == INITIAL
    else
      var last := |steps| - 1;
      exists before: State ::
        && Reaches(steps[..last], before) && Enabled(before, steps[last]) && s == Apply(before, steps[last])
        && if CounterStep(before, steps[last]) then Settled(before) else Calm(steps[..last], before)
  }

  /** Only the latest call may still have to store; once it has, its store is the latest. */
  ghost predicate LatestAlone(s: State) {
    && (forall t :: t in s.tasks && Between(s.tasks[t]) ==> s.tasks[t].at == |s.history|)
    && (s.failures >= FAILURE_THRESHOLD ==>
          (exists t :: WaitsAs(s, |s.history|, t)) || (s.stamps != [] && s.stamps[|s.stamps| - 1].at == |s.history|))
  }

  lemma CounterStepAlone(s: State, step: Step)
    requires Settled(s) && Enabled(s, step) && CounterStep(s, step)
    ensures LatestAlone(Apply(s, step))
  {
    var r := Apply(s, step);
    if r.failures >= FAILURE_THRESHOLD {
      assert WaitsAs(r, |r.history|, step.task);
    }
  }

  lemma OtherStepAlone(s: State, step: Step)
    requires LatestAlone(s) && Enabled(s, step) && !CounterStep(s, step)
    ensures LatestAlone(Apply(s, step))
  {
    var r := Apply(s, step);
    assert |r.history| == |s.history| && r.failures == s.failures;
    if r.failures >= FAILURE_THRESHOLD && exists t :: WaitsAs(s, |s.history|, t) {
      var t :| WaitsAs(s, |s.history|, t);
      if !(step.Advance? && step.task == t && !s.tasks[t].ReadClock?) {
        if step.Advance? && Between(s.tasks[step.task]) {
          assert s.tasks[step.task].at == |s.history|;
        }
        assert WaitsAs(r, |r.history|, t);
      }
    }
  }

  lemma {:induction false} CalmAlone(steps: seq<Step>, s: State)
    requires Calm(steps, s)
    ensures Reaches(steps, s) && LatestAlone(s)
    decreases |steps|
  {
    if steps != [] {
      var last := |steps| - 1;
      var before :|
        && Reaches(steps[..last], before) && Enabled(before, steps[last]) && s == Apply(before, steps[last])
        && if CounterStep(before, steps[last]) then Settled(before) else Calm(steps[..last], before);
      if CounterStep(before, steps[last]) {
        CounterStepAlone(before, steps[last]);
      } else {
        CalmAlone(steps[..last], before);
        OtherStepAlone(before, steps[last]);
      }
    }
  }

  /**
   * If no recording call stood between its two steps when the latest counter step was
   * taken, the calls might as well have come one after the other.  In particular this
   * holds if no recording call ever takes its counter step between another's two steps.
   */
  lemma SequentialIfCalm(steps: seq<Step>, s: State)
    requires Calm(steps, s) && Settled(s)
    ensures Sequential(s)
  {
    CalmAlone(steps, s);
    SequentialIff(steps, s);
    if s.failures >= FAILURE_THRESHOLD {
      ReachableInvariant(steps, s);
      LatestStoreIsOwn(s);
    }
  }

  lemma LatestStoreIsOwn(s: State)
    requires Invariant(s) && Settled(s) && LatestAlone(s) && s.failures >= FAILURE_THRESHOLD
    ensures LatestCallShows(s)
  {
    LatestHasStored(s);
    assert forall t :: !WaitsAs(s, |s.history|, t);
    assert StampOk(s, s.stamps[|s.stamps| - 1]);
  }

  // ----- two runs in which it is not

  lemma TakeStep(steps: seq<Step>, s: State, step: Step) returns (steps': seq<Step>, s': State)
    requires Reaches(steps, s) && Enabled(s, step)
    ensures steps' == steps + [step] && s' == Apply(s, step) && Reaches(steps', s')
  {
    steps', s' := steps + [step], Apply(s, step);
    assert steps'[..|steps|] == steps;
  }

  /** How many calls of a kind a run starts. */
  ghost function Started(steps: seq<Step>, kind: Kind): (n: nat) {
    if steps == [] then 0
    else Started(steps[..|steps| - 1], kind) + (if steps[|steps| - 1].Start? && steps[|steps| - 1].kind == kind then 1 else 0)
  }

  lemma StartedMore(steps: seq<Step>, step: Step, kind: Kind)
    ensures Started(steps + [step], kind) == Started(steps, kind) + (if step.Start? && step.kind == kind then 1 else 0)
  {
    assert (steps + [step])[..|steps|] == steps;
  }

  /** The run starts so many successes and failures, and no reader. */
  ghost predicate Tally(steps: seq<Step>, successes: nat, failures: nat) {
    Started(steps, RecordSuccess) == successes && Started(steps, RecordFailure) == failures && Started(steps, ReadState) == 0
  }

  lemma TallyMore(steps: seq<Step>, step: Step, successes: nat, failures: nat)
    requires Tally(steps, successes, failures) && !(step.Start? && step.kind == ReadState)
    ensures Tally(steps + [step],
                  successes + (if step.Start? && step.kind == RecordSuccess then 1 else 0),
                  failures + (if step.Start? && step.kind == RecordFailure then 1 else 0))
  {
    StartedMore(steps, step, RecordSuccess);
    StartedMore(steps, step, RecordFailure);
    StartedMore(steps, step, ReadState);
  }

  /** The readings that a run sets the clock to, in order. */
  ghost function Clocks(steps: seq<Step>): (readings: seq<nat>) {
    if steps == [] then []
    else Clocks(steps[..|steps| - 1]) + (if steps[|steps| - 1].SetClock? then [steps[|steps| - 1].now] else [])
  }

  lemma ClocksMore(steps: seq<Step>, step: Step)
    ensures Clocks(steps + [step]) == Clocks(steps) + (if step.SetClock? then [step.now] else [])
  {
    assert (steps + [step])[..|steps|] == steps;
  }

  /** The run begins by setting the clock, and sets it to these readings in all. */
  ghost predicate ClockRuns(steps: seq<Step>, readings: seq<nat>) {
    steps != [] && readings != [] && steps[0] == SetClock(readings[0]) && Clocks(steps) == readings
  }

  ghost function Failures(n: nat): (h: seq<Event>) {
    seq(n, _ => Failure(0))
  }

  /** The run reaches the state with these clock readings and with so many calls started. */
  ghost predicate Plays(steps: seq<Step>, s: State, readings: seq<nat>, successes: nat, failures: nat) {
    Reaches(steps, s) && Tally(steps, successes, failures) && ClockRuns(steps, readings)
  }

  lemma Play(steps: seq<Step>, s: State, readings: seq<nat>, successes: nat, failures: nat, step: Step, r: State)
    returns (steps': seq<Step>)
    requires Plays(steps, s, readings, successes, failures) && Enabled(s, step) && Apply(s, step) == r
    requires !(step.Start? && step.kind == ReadState)
    ensures Plays(steps', r,
                  readings + (if step.SetClock? then [step.now] else []),
                  successes + (if step.Start? && step.kind == RecordSuccess then 1 else 0),
                  failures + (if step.Start? && step.kind == RecordFailure then 1 else 0))
  {
    var r';
    steps', r' := TakeStep(steps, s, step);
    TallyMore(steps, step, successes, failures);
    ClocksMore(steps, step);
  }

  lemma ClockFirst(now: nat) returns (steps: seq<Step>)
    ensures Plays(steps, INITIAL.(clock := now), [now], 0, 0)
  {
    var s;
    steps, s := TakeStep([], INITIAL, SetClock(now));
    assert steps == [] + [SetClock(now)];
    TallyMore([], SetClock(now), 0, 0);
    ClocksMore([], SetClock(now));
  }

  /** A failure begins and adds itself to the counter. */
  lemma Addition(readings: seq<nat>, s: State, successes: nat, failures: nat, steps: seq<Step>, t: TaskId, r: State)
    returns (steps': seq<Step>)
    requires Plays(steps, s, readings, successes, failures) && t !in s.tasks
    requires r == s.(failures := s.failures + 1,
                     history := s.history + [Failure(0)],
                     tasks := if s.failures + 1 < FAILURE_THRESHOLD then s.tasks else s.tasks[t := ReadClock(|s.history| + 1)])
    ensures Plays(steps', r, readings, successes, failures + 1)
  {
    var mid := s.(tasks := s.tasks[t := AddFailure]);
    steps' := Play(steps, s, readings, successes, failures, Start(t, RecordFailure), mid);
    assert mid.tasks - {t} == s.tasks;
    assert mid.tasks[t := ReadClock(|s.history| + 1)] == s.tasks[t := ReadClock(|s.history| + 1)];
    assert Apply(mid, Advance(t)) == r;
    steps' := Play(steps', mid, readings, successes, failures + 1, Advance(t), r);
  }

  /** Failures that come and go one after the other while the count is below the threshold. */
  lemma {:induction false} Additions(readings: seq<nat>, s: State, successes: nat, steps: seq<Step>, n: nat) returns (steps': seq<Step>)
    requires Plays(steps, s, readings, successes, 0) && 1 !in s.tasks && s.failures == 0 && n < FAILURE_THRESHOLD
    ensures Plays(steps', s.(failures := n, history := s.history + Failures(n)), readings, successes, n)
  {
    if n == 0 {
      steps' := steps;
      assert s.history + Failures(0) == s.history;
      assert s.(failures := 0, history := s.history + Failures(0)) == s;
    } else {
      steps' := Additions(readings, s, successes, steps, n - 1);
      assert s.history + Failures(n - 1) + [Failure(0)] == s.history + Failures(n);
      steps' := Addition(readings, s.(failures := n - 1, history := s.history + Failures(n - 1)), successes, n - 1, steps', 1,
                         s.(failures := n, history := s.history + Failures(n)));
    }
  }

  /** The task that reached the threshold reads the clock and stores what it read. */
  lemma ReadAndStore(readings: seq<nat>, s: State, successes: nat, failures: nat, steps: seq<Step>, t: TaskId, r: State)
    returns (steps': seq<Step>)
    requires Plays(steps, s, readings, successes, failures) && t in s.tasks && s.tasks[t] == ReadClock(|s.history|) && s.history != []
    requires r == s.(lastFailureTime := s.clock,
                     history := s.history[|s.history| - 1 := Failure(s.clock)],
                     stamps := s.stamps + [Stamped(|s.history|, s.clock)],
                     tasks := s.tasks - {t})
    ensures Plays(steps', r, readings, successes, failures)
  {
    var n := |s.history|;
    var mid := s.(history := s.history[n - 1 := Failure(s.clock)], tasks := s.tasks[t := StoreStamp(n, s.clock)]);
    steps' := Play(steps, s, readings, successes, failures, Advance(t), mid);
    assert mid.tasks - {t} == s.tasks - {t};
    assert Apply(mid, Advance(t)) == r;
    steps' := Play(steps', mid, readings, successes, failures, Advance(t), r);
  }

  // ----- a success overtaken by five failures

  /** A success has reset the counter but not yet the stamp. */
  lemma ResetFirst(now: nat) returns (steps: seq<Step>)
    ensures Plays(steps, State(0, 0, now, map[0 := ResetStamp(1)], [Success], []), [now], 1, 0)
  {
    steps := ClockFirst(now);
    var s := INITIAL.(clock := now);
    var mid := s.(tasks := map[0 := ResetCounter]);
    steps := Play(steps, s, [now], 0, 0, Start(0, RecordSuccess), mid);
    steps := Play(steps, mid, [now], 1, 0, Advance(0), State(0, 0, now, map[0 := ResetStamp(1)], [Success], []));
  }

  lemma Overtaken(now: nat) returns (steps: seq<Step>, history: seq<Event>)
    ensures Plays(steps, State(5, now, now, map[0 := ResetStamp(1)], history, [Stamped(6, now)]), [now], 1, 5)
  {
    steps := ResetFirst(now);
    var waiting := map[0 := ResetStamp(1)];
    var s := State(0, 0, now, waiting, [Success], []);
    steps := Additions([now], s, 1, steps, 4);
    s := s.(failures := 4, history := [Success] + Failures(4));
    var r := State(5, 0, now, waiting[1 := ReadClock(6)], [Success] + Failures(4) + [Failure(0)], []);
    steps := Addition([now], s, 1, 4, steps, 1, r);
    history := r.history[5 := Failure(now)];
    assert r.tasks - {1} == waiting;
    steps := ReadAndStore([now], r, 1, 5, steps, 1, State(5, now, now, waiting, history, [Stamped(6, now)]));
  }

  /** The histories made of one success and five failures at the given time, in any order. */
  ghost predicate SixCalls(history: seq<Event>, now: nat) {
    multiset(history) == multiset{Success, Failure(now), Failure(now), Failure(now), Failure(now), Failure(now)}
  }

  lemma SixCallsNeverHalfOpen(history: seq<Event>, now: nat)
    requires SixCalls(history, now)
    ensures StateFor(history, now) != HalfOpen
  {
    if Tripped(history) {
      assert history[|history| - 1] in multiset(history);
    }
  }

  /**
   * The run consists of one success and five failures, all of them ended, under a clock
   * that stands still; a reader now answers HalfOpen.  No order of these six calls, one
   * after the other, gives that answer.
   */
  lemma TripCanBeLost(now: nat) returns (steps: seq<Step>, s: State)
    requires now > RESET_TIMEOUT_SECS
    ensures Reaches(steps, s) && s.tasks == map[] && Tally(steps, 1, 5) && ClockRuns(steps, [now])
    ensures StateOf(s.failures, s.lastFailureTime, now) == HalfOpen
    ensures forall history :: SixCalls(history, now) ==> StateFor(history, now) != HalfOpen
  {
    var history;
    steps, history := Overtaken(now);
    s := State(5, 0, now, map[], history, [Stamped(6, now), Cleared(1)]);
    assert map[0 := ResetStamp(1)] - {0} == map[];
    steps := Play(steps, State(5, now, now, map[0 := ResetStamp(1)], history, [Stamped(6, now)]), [now], 1, 5, Advance(0), s);
    forall h | SixCalls(h, now)
      ensures StateFor(h, now) != HalfOpen
    {
      SixCallsNeverHalfOpen(h, now);
    }
  }

  // ----- a failure overtaken by a later one

  /** Five failures, the fifth of which has read the clock and not yet stored. */
  lemma FifthWaits(early: nat) returns (steps: seq<Step>)
    ensures Plays(steps, State(5, 0, early, map[1 := StoreStamp(5, early)], Failures(4) + [Failure(early)], []), [early], 0, 5)
  {
    steps := ClockFirst(early);
    steps := Additions([early], INITIAL.(clock := early), 0, steps, 4);
    assert [] + Failures(4) == Failures(4);
    var s := State(4, 0, early, map[], Failures(4), []);
    var r := State(5, 0, early, map[1 := ReadClock(5)], Failures(4) + [Failure(0)], []);
    steps := Addition([early], s, 0, 4, steps, 1, r);
    assert (Failures(4) + [Failure(0)])[4 := Failure(early)] == Failures(4) + [Failure(early)];
    steps := Play(steps, r, [early], 0, 5, Advance(1),
                  State(5, 0, early, map[1 := StoreStamp(5, early)], Failures(4) + [Failure(early)], []));
  }

  /** A sixth failure begins, reads the clock and stores, whatever is waiting meanwhile. */
  lemma SixthStores(
    steps: seq<Step>, readings: seq<nat>, now: nat, waiting: map<TaskId, Phase>, five: seq<Event>)
    returns (steps': seq<Step>)
    requires Plays(steps, State(5, 0, now, waiting, five, []), readings, 0, 5) && 2 !in waiting && |five| == 5
    ensures Plays(steps', State(6, now, now, waiting, five + [Failure(now)], [Stamped(6, now)]), readings, 0, 6)
  {
    var added := State(6, 0, now, waiting[2 := ReadClock(6)], five + [Failure(0)], []);
    steps' := Addition(readings, State(5, 0, now, waiting, five, []), 0, 5, steps, 2, added);
    assert added.tasks - {2} == waiting;
    assert (five + [Failure(0)])[5 := Failure(now)] == five + [Failure(now)];
    steps' := ReadAndStore(readings, added, 0, 6, steps', 2,
                           State(6, now, now, waiting, five + [Failure(now)], [Stamped(6, now)]));
  }

  /**
   * Six failures and no success, under a clock that only moves forward: the fifth stores
   * its older reading after the sixth has stored the newer one, and the breaker stops
   * being open too early, although the six calls one after the other would keep it open.
   */
  lemma StampCanGoBack(early: nat, late: nat, now: nat) returns (steps: seq<Step>, s: State)
    requires early + RESET_TIMEOUT_SECS < now <= late + RESET_TIMEOUT_SECS
    ensures Reaches(steps, s) && s.tasks == map[] && Tally(steps, 0, 6) && ClockRuns(steps, [early, late])
    ensures s.history == Failures(4) + [Failure(early), Failure(late)]
    ensures StateOf(s.failures, s.lastFailureTime, now) == HalfOpen && StateFor(s.history, now) == Open
  {
    var waiting := map[1 := StoreStamp(5, early)];
    var five := Failures(4) + [Failure(early)];
    steps := FifthWaits(early);
    assert [early] + [late] == [early, late];
    steps := Play(steps, State(5, 0, early, waiting, five, []), [early], 0, 5, SetClock(late), State(5, 0, late, waiting, five, []));
    steps := SixthStores(steps, [early, late], late, waiting, five);
    assert waiting - {1} == map[];
    s := State(6, early, late, map[], five + [Failure(late)], [Stamped(6, late), Stamped(5, early)]);
    steps := Play(steps, State(6, late, late, waiting, five + [Failure(late)], [Stamped(6, late)]), [early, late], 0, 6, Advance(1), s);
    assert s.history == Failures(4) + [Failure(early), Failure(late)] && s.history[5] == Failure(late);
  }
}
