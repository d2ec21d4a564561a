/**
 * `observe_latency` run by any number of threads at once.
 *
 * Each call begins, loads the cell, and then tries a compare-and-swap until one
 * succeeds.  A weak compare-and-swap may fail even when the cell holds the expected
 * value.  The log records the successful ones in the order in which they happen.
 */
module PeakEwmaConcurrent {
  import opened PeakEwma

  type CallId = nat

  /**
   * Where a call stands.  `loadedAt` notes how many samples had been committed when
   * `seen` was read; the program has no such variable.
   */
  datatype Phase =
    | Entered
    | Computing(seen: real, loadedAt: nat)
    | Committed

  datatype Commit = Commit(call: CallId, sample: real, at: nat)

  datatype State = State(
    cell: real,
    phase: map<CallId, Phase>,
    sample: map<CallId, real>,
    log: seq<Commit>,
    clock: nat,
    begun: map<CallId, nat>,
    ended: map<CallId, nat>)

  datatype Step =
    | Begin(call: CallId, rtt: real)
    | Load(call: CallId)
    | CasSucceeds(call: CallId)
    | CasFails(call: CallId)
    | Return(call: CallId)

  function Initial(initial: real): (s: State) {
    State(initial, map[], map[], [], 0, map[], map[])
  }

  predicate Enabled(s: State, step: Step) {
    match step
    case Begin(c, _) => c !in s.sample
    case Load(c) => c in s.phase && s.phase[c].Entered?
    case CasSucceeds(c) => c in s.phase && s.phase[c].Computing? && s.phase[c].seen == s.cell && c in s.sample
    case CasFails(c) => c in s.phase && s.phase[c].Computing?
    case Return(c) => c in s.phase && s.phase[c].Committed?
  }

  function Apply(alpha: real, s: State, step: Step): (t: State)
    requires Enabled(s, step)
  {
    var u := s.(clock := s.clock + 1);
    match step
    case Begin(c, rtt) =>
      u.(phase := s.phase[c := Entered], sample := s.sample[c := rtt], begun := s.begun[c := s.clock])
    case Load(c) =>
      u.(phase := s.phase[c := Computing(s.cell, |s.log|)])
    case CasSucceeds(c) =>
      u.(cell := PeakStep(alpha, s.phase[c].seen, s.sample[c]),
         phase := s.phase[c := Committed],
         log := s.log + [Commit(c, s.sample[c], s.clock)])
    case CasFails(c) =>
      u.(phase := s.phase[c := Computing(s.cell, |s.log|)])
    case Return(c) =>
      u.(phase := s.phase - {c}, ended := s.ended[c := s.clock])
  }

  ghost predicate Reaches(alpha: real, initial: real, steps: seq<Step>, s: State)
    decreases |steps|
  {
    if steps == [] then s == Initial(initial)
    else
      var last := |steps| - 1;
      exists before: State ::
        Reaches(alpha, initial, steps[..last], before) && Enabled(before, steps[last]) && s == Apply(alpha, before, steps[last])
  }

  function Samples(log: seq<Commit>): (xs: seq<real>)
    ensures |xs| == |log|
    ensures forall i :: 0 <= i < |log| ==> xs[i] == log[i].sample
  {
    seq(|log|, i requires 0 <= i < |log| => log[i].sample)
  }

  // ----- the invariant

  /** The cell, and each value a call has seen, is the sequential fold of a part of the log. */
  ghost predicate CellIsFold(alpha: real, initial: real, s: State) {
    && s.cell == Peak(alpha, initial, Samples(s.log))
    && forall c :: c in s.phase && s.phase[c].Computing? ==>
         && s.phase[c].loadedAt <= |s.log|
         && s.phase[c].seen == Peak(alpha, initial, Samples(s.log[..s.phase[c].loadedAt]))
  }

  ghost predicate Logged(s: State, c: CallId) {
    exists i :: 0 <= i < |s.log| && s.log[i].call == c
  }

  /** Running and ended calls partition the begun ones; exactly the committed ones are logged. */
  ghost predicate CallsAccounted(s: State) {
    && s.sample.Keys == s.begun.Keys == s.phase.Keys + s.ended.Keys
    && s.phase.Keys !! s.ended.Keys
    && (forall c :: c in s.phase ==> (s.phase[c].Committed? <==> Logged(s, c)))
    && (forall c :: c in s.ended ==> Logged(s, c))
    && (forall i :: 0 <= i < |s.log| ==> s.log[i].call in s.sample && s.log[i].sample == s.sample[s.log[i].call])
    && (forall i, j :: 0 <= i < j < |s.log| ==> s.log[i].call != s.log[j].call)
  }

  /** Each commit lies strictly between the begin and the end of its own call. */
  ghost predicate Timed(s: State) {
    && (forall c :: c in s.begun ==> s.begun[c] < s.clock)
    && (forall i, j :: 0 <= i < j < |s.log| ==> s.log[i].at < s.log[j].at)
    && (forall i :: 0 <= i < |s.log| ==> s.log[i].at < s.clock)
    && (forall i :: 0 <= i < |s.log| && s.log[i].call in s.begun ==> s.begun[s.log[i].call] < s.log[i].at)
    && (forall i :: 0 <= i < |s.log| && s.log[i].call in s.ended ==> s.log[i].at < s.ended[s.log[i].call])
  }

  lemma FoldStep(alpha: real, initial: real, s: State, step: Step)
    requires CellIsFold(alpha, initial, s) && Enabled(s, step)
    ensures CellIsFold(alpha, initial, Apply(alpha, s, step))
  {
    var t := Apply(alpha, s, step);
    assert s.log[..|s.log|] == s.log;
    if step.CasSucceeds? {
      var x := s.sample[step.call];
      assert Samples(t.log) == Samples(s.log) + [x];
      assert Samples(t.log)[..|s.log|] == Samples(s.log);
      forall c | c in t.phase && t.phase[c].Computing?
        ensures t.log[..t.phase[c].loadedAt] == s.log[..s.phase[c].loadedAt]
      {
      }
    }
  }

  lemma AccountedStep(alpha: real, s: State, step: Step)
    requires CallsAccounted(s) && Enabled(s, step)
    ensures CallsAccounted(Apply(alpha, s, step))
  {
    forall d
      ensures Logged(Apply(alpha, s, step), d) <==> Logged(s, d) || (step.CasSucceeds? && d == step.call)
    {
      LoggedStep(alpha, s, step, d);
    }
    if step.CasSucceeds? {
      CommitAccounted(alpha, s, step);
    } else {
      assert step.Begin? ==> !Logged(s, step.call);
    }
  }

  lemma CommitAccounted(alpha: real, s: State, step: Step)
    requires CallsAccounted(s) && Enabled(s, step) && step.CasSucceeds?
    requires forall d :: Logged(Apply(alpha, s, step), d) <==> Logged(s, d) || d == step.call
    ensures CallsAccounted(Apply(alpha, s, step))
  {
    assert !Logged(s, step.call);
  }

  lemma LoggedStep(alpha: real, s: State, step: Step, d: CallId)
    requires Enabled(s, step)
    ensures Logged(Apply(alpha, s, step), d) <==> Logged(s, d) || (step.CasSucceeds? && d == step.call)
  {
    var t := Apply(alpha, s, step);
    if step.CasSucceeds? {
      assert t.log[|s.log|].call == step.call;
      if Logged(s, d) {
        var i :| 0 <= i < |s.log| && s.log[i].call == d;
        assert t.log[i].call == d;
      }
    }
  }

  lemma TimedStep(alpha: real, s: State, step: Step)
    requires CallsAccounted(s) && Timed(s) && Enabled(s, step)
    ensures Timed(Apply(alpha, s, step))
  {
    if step.CasSucceeds? {
      CommitTimed(alpha, s, step);
    }
  }

  lemma CommitTimed(alpha: real, s: State, step: Step)
    requires CallsAccounted(s) && Timed(s) && Enabled(s, step) && step.CasSucceeds?
    ensures Timed(Apply(alpha, s, step))
  {
    assert step.call in s.begun && step.call !in s.ended;
  }

  lemma {:induction false} ReachableInvariant(alpha: real, initial: real, steps: seq<Step>, s: State)
    requires Reaches(alpha, initial, steps, s)
    ensures CellIsFold(alpha, initial, s) && CallsAccounted(s) && Timed(s)
    decreases |steps|
  {
    if steps != [] {
      var last := |steps| - 1;
      var before :| Reaches(alpha, initial, steps[..last], before) && Enabled(before, steps[last]) &&
        s == Apply(alpha, before, steps[last]);
      ReachableInvariant(alpha, initial, steps[..last], before);
      FoldStep(alpha, initial, before, steps[last]);
      AccountedStep(alpha, before, steps[last]);
      TimedStep(alpha, before, steps[last]);
    }
  }

  // ----- what holds in every interleaving

  ghost predicate LoggedOnce(s: State, c: CallId, i: nat) {
    && i < |s.log| && s.log[i].call == c
    && c in s.sample && s.log[i].sample == s.sample[c]
    && forall j :: 0 <= j < |s.log| && s.log[j].call == c ==> j == i
  }

  /**
   * In every interleaving, the cell is the sequential Peak EWMA of the committed samples,
   * and each call that has returned has its own sample among them exactly once.
   */
  lemma CellIsSequentialFold(alpha: real, initial: real, steps: seq<Step>, s: State)
    requires Reaches(alpha, initial, steps, s)
    ensures s.cell == Peak(alpha, initial, Samples(s.log))
    ensures forall c :: c in s.ended ==> exists i :: LoggedOnce(s, c, i)
    ensures forall c :: c in s.phase && !s.phase[c].Committed? ==> !Logged(s, c)
  {
    ReachableInvariant(alpha, initial, steps, s);
    forall c | c in s.ended
      ensures exists i :: LoggedOnce(s, c, i)
    {
      var i :| 0 <= i < |s.log| && s.log[i].call == c;
      assert LoggedOnce(s, c, i);
    }
  }

  /** The commit order respects real time: a call that ended before another began precedes it. */
  lemma CommitOrderRespectsRealTime(alpha: real, initial: real, steps: seq<Step>, s: State, i: nat, j: nat)
    requires Reaches(alpha, initial, steps, s)
    requires i < |s.log| && j < |s.log|
    requires s.log[i].call in s.ended && s.log[j].call in s.begun
    requires s.ended[s.log[i].call] < s.begun[s.log[j].call]
    ensures i < j
  {
    ReachableInvariant(alpha, initial, steps, s);
    TimedOrder(s, i, j);
  }

  lemma TimedOrder(s: State, i: nat, j: nat)
    requires Timed(s) && i < |s.log| && j < |s.log|
    requires s.log[i].call in s.ended && s.log[j].call in s.begun
    requires s.ended[s.log[i].call] < s.begun[s.log[j].call]
    ensures i < j
  {
    assert s.log[i].at < s.ended[s.log[i].call] < s.begun[s.log[j].call] < s.log[j].at;
  }

  /**
   * A compare-and-swap that finds another value fails because some other call has
   * committed since this call last read the cell, so some call always makes progress.
   */
  lemma FailureMeansProgress(alpha: real, initial: real, steps: seq<Step>, s: State, c: CallId)
    requires Reaches(alpha, initial, steps, s)
    requires c in s.phase && s.phase[c].Computing? && s.phase[c].seen != s.cell
    ensures s.phase[c].loadedAt < |s.log|
    ensures forall i :: s.phase[c].loadedAt <= i < |s.log| ==> s.log[i].call != c
  {
    ReachableInvariant(alpha, initial, steps, s);
    assert s.log[..|s.log|] == s.log;
    assert !Logged(s, c);
  }

  // ----- the records are those of the run

  /** Step i of the run began the call with this sample; later clauses likewise. */
  ghost predicate BeginsAt(steps: seq<Step>, i: int, c: CallId, rtt: real) {
    0 <= i < |steps| && steps[i] == Begin(c, rtt)
  }

  ghost predicate CommitsAt(steps: seq<Step>, i: int, c: CallId) {
    0 <= i < |steps| && steps[i] == CasSucceeds(c)
  }

  ghost predicate ReturnsAt(steps: seq<Step>, i: int, c: CallId) {
    0 <= i < |steps| && steps[i] == Return(c)
  }

  ghost predicate LoggedAs(s: State, c: CallId, i: int) {
    exists k :: 0 <= k < |s.log| && s.log[k].call == c && s.log[k].at == i
  }

  /** Samples, times and log are what the steps of the run say. */
  ghost predicate RecordsRun(steps: seq<Step>, s: State) {
    && s.clock == |steps|
    && (forall i, c, x :: BeginsAt(steps, i, c, x) <==> c in s.begun && c in s.sample && s.begun[c] == i && s.sample[c] == x)
    && (forall i, c :: ReturnsAt(steps, i, c) <==> c in s.ended && s.ended[c] == i)
    && (forall i, c :: CommitsAt(steps, i, c) <==> LoggedAs(s, c, i))
  }

  lemma {:induction false} RecordsFollowRun(alpha: real, initial: real, steps: seq<Step>, s: State)
    requires Reaches(alpha, initial, steps, s)
    ensures RecordsRun(steps, s)
    decreases |steps|
  {
    if steps != [] {
      var last := |steps| - 1;
      var before :| Reaches(alpha, initial, steps[..last], before) && Enabled(before, steps[last]) &&
        s == Apply(alpha, before, steps[last]);
      RecordsFollowRun(alpha, initial, steps[..last], before);
      ReachableInvariant(alpha, initial, steps[..last], before);
      ShorterRun(steps);
      RecordsStep(alpha, steps, before, s);
    }
  }

  lemma ShorterRun(steps: seq<Step>)
    requires steps != []
    ensures forall i, c, x :: BeginsAt(steps, i, c, x) <==>
              BeginsAt(steps[..|steps| - 1], i, c, x) || (i == |steps| - 1 && steps[i] == Begin(c, x))
    ensures forall i, c :: ReturnsAt(steps, i, c) <==>
              ReturnsAt(steps[..|steps| - 1], i, c) || (i == |steps| - 1 && steps[i] == Return(c))
    ensures forall i, c :: CommitsAt(steps, i, c) <==>
              CommitsAt(steps[..|steps| - 1], i, c) || (i == |steps| - 1 && steps[i] == CasSucceeds(c))
  {
  }

  lemma RecordsStep(alpha: real, steps: seq<Step>, before: State, s: State)
    requires steps != [] && RecordsRun(steps[..|steps| - 1], before) && CallsAccounted(before)
    requires Enabled(before, steps[|steps| - 1]) && s == Apply(alpha, before, steps[|steps| - 1])
    requires forall i, c, x :: BeginsAt(steps, i, c, x) <==>
               BeginsAt(steps[..|steps| - 1], i, c, x) || (i == |steps| - 1 && steps[i] == Begin(c, x))
    requires forall i, c :: ReturnsAt(steps, i, c) <==>
               ReturnsAt(steps[..|steps| - 1], i, c) || (i == |steps| - 1 && steps[i] == Return(c))
    requires forall i, c :: CommitsAt(steps, i, c) <==>
               CommitsAt(steps[..|steps| - 1], i, c) || (i == |steps| - 1 && steps[i] == CasSucceeds(c))
    ensures RecordsRun(steps, s)
  {
    var step := steps[|steps| - 1];
    forall i, c
      ensures LoggedAs(s, c, i) <==> LoggedAs(before, c, i) || (step == CasSucceeds(c) && i == |steps| - 1)
    {
      LoggedAsStep(alpha, before, step, c, i);
    }
  }

  lemma LoggedAsStep(alpha: real, s: State, step: Step, c: CallId, i: int)
    requires Enabled(s, step)
    ensures LoggedAs(Apply(alpha, s, step), c, i) <==> LoggedAs(s, c, i) || (step == CasSucceeds(c) && i == s.clock)
  {
    var t := Apply(alpha, s, step);
    if LoggedAs(s, c, i) {
      var k :| 0 <= k < |s.log| && s.log[k].call == c && s.log[k].at == i;
      assert t.log[k] == s.log[k];
    }
    if step == CasSucceeds(c) && i == s.clock {
      assert t.log[|s.log|].call == c;
    }
  }

  // ----- every call gets through

  /** The call has read the value that the cell holds. */
  ghost predicate UpToDate(s: State, c: CallId) {
    c in s.phase && s.phase[c].Computing? && s.phase[c].seen == s.cell && c in s.sample
  }

  lemma ReadIsUpToDate(alpha: real, s: State, step: Step, c: CallId)
    requires CallsAccounted(s) && Enabled(s, step) && (step == Load(c) || step == CasFails(c))
    ensures UpToDate(Apply(alpha, s, step), c)
  {
  }

  lemma StaysUpToDate(alpha: real, s: State, step: Step, c: CallId)
    requires UpToDate(s, c) && Enabled(s, step) && !step.CasSucceeds?
    ensures UpToDate(Apply(alpha, s, step), c)
  {
  }

  /**
   * After a call's load or failed exchange, its next exchange succeeds unless another
   * call commits in between or the exchange fails spuriously.
   */
  lemma {:induction false} RetryIsUpToDate(
    alpha: real, initial: real, before: seq<Step>, step: Step, later: seq<Step>, s: State, c: CallId)
    requires step == Load(c) || step == CasFails(c)
    requires forall i :: 0 <= i < |later| ==> !later[i].CasSucceeds?
    requires Reaches(alpha, initial, before + [step] + later, s)
    ensures UpToDate(s, c) && Enabled(s, CasSucceeds(c))
    decreases |later|
  {
    var all := before + [step] + later;
    var last := |all| - 1;
    var mid :| Reaches(alpha, initial, all[..last], mid) && Enabled(mid, all[last]) && s == Apply(alpha, mid, all[last]);
    if later == [] {
      assert all[last] == step;
      ReachableInvariant(alpha, initial, all[..last], mid);
      ReadIsUpToDate(alpha, mid, step, c);
    } else {
      assert all[..last] == before + [step] + later[..|later| - 1];
      RetryIsUpToDate(alpha, initial, before, step, later[..|later| - 1], mid, c);
      StaysUpToDate(alpha, mid, later[|later| - 1], c);
    }
  }

  /** The steps that a call needs to return when no other call interferes. */
  ghost function Needed(s: State, c: CallId): (n: nat)
    requires c in s.phase
  {
    match s.phase[c]
    case Entered => 3
    case Computing(seen, _) => if seen == s.cell then 2 else 3
    case Committed => 1
  }

  function NextOwn(s: State, c: CallId): (step: Step)
    requires c in s.phase
  {
    match s.phase[c]
    case Entered => Load(c)
    case Computing(seen, _) => if seen == s.cell then CasSucceeds(c) else CasFails(c)
    case Committed => Return(c)
  }

  lemma NextOwnAdvances(alpha: real, s: State, c: CallId)
    requires CallsAccounted(s) && c in s.phase
    ensures Enabled(s, NextOwn(s, c)) && NextOwn(s, c).call == c && !NextOwn(s, c).Begin?
    ensures var t := Apply(alpha, s, NextOwn(s, c));
            if c in t.phase then Needed(t, c) == Needed(s, c) - 1 else Needed(s, c) == 1 && c in t.ended
  {
  }

  /** The steps are a running call's own. */
  ghost predicate OnlyBy(steps: seq<Step>, c: CallId) {
    forall i :: 0 <= i < |steps| ==> steps[i].call == c && !steps[i].Begin?
  }

  lemma TakeStep(alpha: real, initial: real, steps: seq<Step>, s: State, step: Step)
    requires Reaches(alpha, initial, steps, s) && Enabled(s, step)
    ensures Reaches(alpha, initial, steps + [step], Apply(alpha, s, step))
  {
    assert (steps + [step])[..|steps|] == steps;
  }

  /**
   * From every state of every run, each call that has begun can return by its own steps
   * alone, in at most three of them, and its sample is then in the log.
   */
  lemma EveryCallCanReturn(alpha: real, initial: real, steps: seq<Step>, s: State, c: CallId)
    returns (more: seq<Step>, t: State)
    requires Reaches(alpha, initial, steps, s) && c in s.phase
    ensures Reaches(alpha, initial, steps + more, t) && |more| == Needed(s, c) <= 3
    ensures OnlyBy(more, c) && c in t.ended && exists i :: LoggedOnce(t, c, i)
  {
    assert steps + [] == steps;
    more, t := Completes(alpha, initial, steps, [], s, c);
    CellIsSequentialFold(alpha, initial, steps + more, t);
  }

  lemma OwnStep(alpha: real, initial: real, steps: seq<Step>, s: State, c: CallId) returns (step: Step, t: State)
    requires Reaches(alpha, initial, steps, s) && c in s.phase
    ensures Reaches(alpha, initial, steps + [step], t) && step.call == c && !step.Begin?
    ensures if c in t.phase then Needed(t, c) == Needed(s, c) - 1 else Needed(s, c) == 1 && c in t.ended
  {
    ReachableInvariant(alpha, initial, steps, s);
    NextOwnAdvances(alpha, s, c);
    step := NextOwn(s, c);
    t := Apply(alpha, s, step);
    TakeStep(alpha, initial, steps, s, step);
  }

  lemma {:induction false} Completes(alpha: real, initial: real, steps: seq<Step>, done: seq<Step>, s: State, c: CallId)
    returns (more: seq<Step>, t: State)
    requires Reaches(alpha, initial, steps + done, s) && c in s.phase
    requires OnlyBy(done, c)
    ensures Reaches(alpha, initial, steps + more, t) && |more| == |done| + Needed(s, c)
    ensures OnlyBy(more, c) && c in t.ended
    decreases Needed(s, c)
  {
    var step;
    step, t := OwnStep(alpha, initial, steps + done, s, c);
    more := done + [step];
    assert steps + done + [step] == steps + more;
    if c in t.phase {
      more, t := Completes(alpha, initial, steps, more, t, c);
    }
  }
}
