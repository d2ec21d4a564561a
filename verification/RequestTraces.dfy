/**
 * Runs of the request lifecycle together with the states they pass through.  Whatever
 * the model keeps a record of, and whatever becomes of a request or a connection, is
 * told here from the steps of the run.
 */
module RequestTraces {
  import opened Options
  import opened PeakEwma
  import opened CircuitBreaker
  import opened Selector
  import opened ConnectionPool
  import opened RequestLifecycle

  ghost predicate StepAt(steps: seq<Step>, states: seq<State>, i: int) {
    0 <= i < |steps| && i + 1 < |states| && Enabled(states[i], steps[i]) && states[i + 1] == Apply(states[i], steps[i])
  }

  /** States[i] is the state before step i. */
  ghost predicate Trace(steps: seq<Step>, states: seq<State>) {
    |states| == |steps| + 1 && states[0] == INITIAL && forall i :: 0 <= i < |steps| ==> StepAt(steps, states, i)
  }

  lemma {:induction false} TraceRuns(steps: seq<Step>, states: seq<State>, n: nat)
    requires Trace(steps, states) && n <= |steps|
    ensures Runs(INITIAL, steps[..n], states[n])
  {
    if n > 0 {
      TraceRuns(steps, states, n - 1);
      assert StepAt(steps, states, n - 1);
      OneMore(INITIAL, steps[..n - 1], states[n - 1], steps[n - 1]);
      assert steps[..n - 1] + [steps[n - 1]] == steps[..n];
    }
  }

  /** Every run has its states. */
  lemma {:induction false} RunHasTrace(steps: seq<Step>, s: State) returns (states: seq<State>)
    requires Runs(INITIAL, steps, s)
    ensures Trace(steps, states) && states[|steps|] == s
    decreases |steps|
  {
    if steps == [] {
      states := [INITIAL];
    } else {
      var last := |steps| - 1;
      var mid :| Runs(INITIAL, steps[..last], mid) && Enabled(mid, steps[last]) && s == Apply(mid, steps[last]);
      var before := RunHasTrace(steps[..last], mid);
      states := before + [s];
      forall i | 0 <= i < |steps|
        ensures StepAt(steps, states, i)
      {
        assert i < last ==> StepAt(steps[..last], before, i);
      }
    }
  }

  lemma TraceOk(steps: seq<Step>, states: seq<State>, n: nat)
    requires Trace(steps, states) && n <= |steps|
    ensures RequestsOk(states[n]) && SendersOk(states[n])
  {
    TraceRuns(steps, states, n);
    ReachableInvariant(steps[..n], states[n]);
  }

  // ----- what is recorded on a backend

  /** The outcome that a step reports on the request's backend. */
  function Told(step: Step): (events: seq<Event>) {
    match step
    case SendSucceeds(_) => [Success]
    case SendFails(_, now) => [Failure(now)]
    case ConnectFails(_, now) => [Failure(now)]
    case _ => []
  }

  function Sampled(step: Step): (rtts: seq<real>) {
    match step
    case Observe(_, rtt) => [rtt]
    case _ => []
  }

  /** The step is taken by a request that has this backend. */
  predicate On(s: State, step: Step, h: Handle) {
    ByRequest(step) && step.req in s.requests && s.requests[step.req].backend == Some(h)
  }

  ghost function Outcomes(steps: seq<Step>, states: seq<State>, n: nat, h: Handle): (events: seq<Event>)
    requires n <= |steps| < |states|
  {
    if n == 0 then []
    else Outcomes(steps, states, n - 1, h) + if On(states[n - 1], steps[n - 1], h) then Told(steps[n - 1]) else []
  }

  ghost function Samples(steps: seq<Step>, states: seq<State>, n: nat, h: Handle): (rtts: seq<real>)
    requires n <= |steps| < |states|
  {
    if n == 0 then []
    else Samples(steps, states, n - 1, h) + if On(states[n - 1], steps[n - 1], h) then Sampled(steps[n - 1]) else []
  }

  lemma OwnRecord(s: State, step: Step)
    requires Enabled(s, step) && ByRequest(step)
    requires step.req in s.requests ==> RequestOk(s.requests[step.req])
    ensures var e := EffectOf(s, step);
            if e.node.Some? then
              && HasBackend(s, step.req) && e.request.backend == s.requests[step.req].backend
              && e.node.value.outcomes == NodeOf(s, step.req).outcomes + Told(step)
              && e.node.value.samples == NodeOf(s, step.req).samples + Sampled(step)
            else Told(step) == [] && Sampled(step) == []
  {
  }

  lemma RecordStep(s: State, step: Step, h: Handle)
    requires RequestsOk(s) && Enabled(s, step) && h in s.nodes
    ensures var n := Apply(s, step).nodes[h];
            && n.outcomes == s.nodes[h].outcomes + (if On(s, step, h) then Told(step) else [])
            && n.samples == s.nodes[h].samples + (if On(s, step, h) then Sampled(step) else [])
  {
    if ByRequest(step) {
      OwnRecord(s, step);
    }
  }

  lemma NewNodeRecord(s: State, step: Step, h: Handle)
    requires RequestsOk(s) && Enabled(s, step) && h !in s.nodes
    ensures !On(s, step, h)
    ensures h in Apply(s, step).nodes ==> Apply(s, step).nodes[h].outcomes == [] && Apply(s, step).nodes[h].samples == []
  {
    if ByRequest(step) {
      OwnRecord(s, step);
    }
  }

  ghost function OutcomesIn(s: State, h: Handle): (events: seq<Event>) {
    if h in s.nodes then s.nodes[h].outcomes else []
  }

  ghost function SamplesIn(s: State, h: Handle): (rtts: seq<real>) {
    if h in s.nodes then s.nodes[h].samples else []
  }

  lemma RecordAt(steps: seq<Step>, states: seq<State>, n: nat, h: Handle)
    requires Trace(steps, states) && n < |steps|
    ensures OutcomesIn(states[n + 1], h) == OutcomesIn(states[n], h) + if On(states[n], steps[n], h) then Told(steps[n]) else []
    ensures SamplesIn(states[n + 1], h) == SamplesIn(states[n], h) + if On(states[n], steps[n], h) then Sampled(steps[n]) else []
  {
    assert StepAt(steps, states, n);
    TraceOk(steps, states, n);
    if h in states[n].nodes {
      RecordStep(states[n], steps[n], h);
    } else {
      NewNodeRecord(states[n], steps[n], h);
    }
  }

  /**
   * In every run, a backend's outcomes are those of the sends and connection attempts of
   * the requests that have it, and its samples are the latencies they observe, in order.
   */
  lemma {:induction false} RecordFollowsRun(steps: seq<Step>, states: seq<State>, n: nat, h: Handle)
    requires Trace(steps, states) && n <= |steps|
    ensures Outcomes(steps, states, n, h) == OutcomesIn(states[n], h)
    ensures Samples(steps, states, n, h) == SamplesIn(states[n], h)
  {
    if n > 0 {
      RecordFollowsRun(steps, states, n - 1, h);
      RecordAt(steps, states, n - 1, h);
    }
  }

  // ----- the course of a request

  /** What may come next after a step of a request, going down the program. */
  predicate MayFollow(a: Step, b: Step) {
    match a
    case Arrive(_) => b.Limited? || b.Pass? || b.Cancel?
    case Pass(_) => b.Select? || b.Cancel?
    case Select(_, _) => b.TakeGuard? || b.Cancel?
    case TakeGuard(_) => b.Look? || b.Cancel?
    case Look(_) => b.Pop? || b.ConnectFails? || b.Connect? || b.Cancel?
    case Pop(_) => b.Pop? || b.Probed? || b.ConnectFails? || b.Connect? || b.Cancel?
    case Probed(_, ok) => (if ok then b.Prepared? else b.ConnectFails? || b.Connect?) || b.Cancel?
    case Connect(_, _) => b.Prepared? || b.Cancel?
    case Prepared(_, ok) => (if ok then b.SendSucceeds? || b.SendFails? else b.DropGuard?) || b.Cancel?
    case SendSucceeds(_) => b.Push? || b.Cancel?
    case Push(_) => b.Enqueue? || b.Observe? || b.Cancel?
    case Enqueue(_) => b.Observe? || b.Cancel?
    case ConnectFails(_, _) => b.DropGuard? || b.Cancel?
    case SendFails(_, _) => b.DropGuard? || b.Cancel?
    case Observe(_, _) => b.DropGuard? || b.Cancel?
    case _ => false
  }

  /** Steps i and j are consecutive steps of request r. */
  ghost predicate NextOwn(steps: seq<Step>, r: RequestId, i: int, j: int) {
    0 <= i < j < |steps| && IsOwn(steps[i], r) && IsOwn(steps[j], r) && OthersOnly(steps, r, i + 1, j)
  }

  ghost predicate OthersOnly(steps: seq<Step>, r: RequestId, i: int, n: int) {
    forall m :: 0 <= i <= m < n <= |steps| ==> !IsOwn(steps[m], r)
  }

  lemma OthersLeaveAlone(s: State, step: Step, r: RequestId)
    requires Enabled(s, step) && !IsOwn(step, r)
    ensures r in Apply(s, step).requests <==> r in s.requests
    ensures r in s.requests ==> Apply(s, step).requests[r] == s.requests[r]
  {
    if ByRequest(step) {
      CommitLeavesAlone(s, step.req, EffectOf(s, step), r);
    }
  }

  lemma CommitLeavesAlone(s: State, u: RequestId, e: Effect, r: RequestId)
    requires u != r
    ensures r in Commit(s, u, e).requests <==> r in s.requests
    ensures r in s.requests ==> Commit(s, u, e).requests[r] == s.requests[r]
  {
  }

  lemma {:induction false} RequestStays(steps: seq<Step>, states: seq<State>, r: RequestId, i: nat, n: nat)
    requires Trace(steps, states) && i <= n <= |steps| && OthersOnly(steps, r, i, n)
    ensures r in states[n].requests <==> r in states[i].requests
    ensures r in states[n].requests ==> states[n].requests[r] == states[i].requests[r]
    decreases n
  {
    if n > i {
      RequestStays(steps, states, r, i, n - 1);
      assert StepAt(steps, states, n - 1);
      OthersLeaveAlone(states[n - 1], steps[n - 1], r);
    }
  }

  /** The steps that a request at this point may take. */
  predicate MayTake(pc: Pc, b: Step) {
    match pc
    case Checking => b.Limited? || b.Pass? || b.Cancel?
    case Selecting => b.Select? || b.Cancel?
    case Guarding => b.TakeGuard? || b.Cancel?
    case Popping => b.Look? || b.Cancel?
    case Looping => b.Pop? || b.Cancel?
    case Probing => b.Probed? || b.Cancel?
    case Connecting => b.ConnectFails? || b.Connect? || b.Cancel?
    case Preparing => b.Prepared? || b.Cancel?
    case Sending => b.SendSucceeds? || b.SendFails? || b.Cancel?
    case Pushing => b.Push? || b.Cancel?
    case Returning => b.Enqueue? || b.Cancel?
    case Observing => b.Observe? || b.Cancel?
    case Leaving => b.DropGuard? || b.Cancel?
    case Finished => false
  }

  lemma TakesOnly(s: State, step: Step)
    requires Enabled(s, step) && ByRequest(step) && step.req in s.requests
    ensures MayTake(s.requests[step.req].pc, step)
  {
  }

  lemma LeadsOnlyTo(s: State, a: Step, b: Step)
    requires Enabled(s, a) && ByRequest(a) && MayTake(EffectOf(s, a).request.pc, b)
    ensures MayFollow(a, b)
  {
  }

  /** In every run, each request goes down the program: consecutive steps of it follow one another there. */
  lemma RequestGoesDown(steps: seq<Step>, states: seq<State>, r: RequestId, i: nat, j: nat)
    requires Trace(steps, states) && NextOwn(steps, r, i, j)
    ensures MayFollow(steps[i], steps[j])
  {
    assert StepAt(steps, states, i) && StepAt(steps, states, j);
    RequestStays(steps, states, r, i + 1, j);
    TakesOnly(states[j], steps[j]);
    LeadsOnlyTo(states[i], steps[i], steps[j]);
  }

  /** The step ends its request: refused, no fit backend, done, or cancelled. */
  predicate Ends(s: State, step: Step) {
    || step.Limited? || step.DropGuard? || step.Cancel?
    || (step.Select? && Enabled(s, step) && SelectBest(Snapshot(s, step.now)).None?)
  }

  ghost predicate EndsAt(steps: seq<Step>, states: seq<State>, r: RequestId, i: int) {
    0 <= i < |steps| < |states| && IsOwn(steps[i], r) && Ends(states[i], steps[i])
  }

  lemma EndsIff(s: State, step: Step)
    requires Enabled(s, step) && ByRequest(step)
    ensures EffectOf(s, step).request.pc == Finished <==> Ends(s, step)
  {
  }

  /** In every run, a request has finished exactly when one of its steps ended it; nothing follows that step. */
  lemma {:induction false} FinishedIff(steps: seq<Step>, states: seq<State>, n: nat, r: RequestId)
    requires Trace(steps, states) && n <= |steps|
    ensures At(states[n], r, Finished) <==> exists i :: 0 <= i < n && EndsAt(steps, states, r, i)
  {
    if n > 0 {
      FinishedIff(steps, states, n - 1, r);
      assert StepAt(steps, states, n - 1);
      if IsOwn(steps[n - 1], r) {
        EndsIff(states[n - 1], steps[n - 1]);
        if At(states[n - 1], r, Finished) {
          TakesOnly(states[n - 1], steps[n - 1]);
        }
        assert EndsAt(steps, states, r, n - 1) <==> Ends(states[n - 1], steps[n - 1]);
      } else {
        OthersLeaveAlone(states[n - 1], steps[n - 1], r);
      }
    }
  }

  lemma {:induction false} FinishedStays(steps: seq<Step>, states: seq<State>, r: RequestId, i: nat, n: nat)
    requires Trace(steps, states) && i <= n <= |steps| && At(states[i], r, Finished)
    ensures r in states[n].requests && states[n].requests[r] == states[i].requests[r]
    decreases n
  {
    if n > i {
      FinishedStays(steps, states, r, i, n - 1);
      assert StepAt(steps, states, n - 1);
      if IsOwn(steps[n - 1], r) {
        TakesOnly(states[n - 1], steps[n - 1]);
      } else {
        OthersLeaveAlone(states[n - 1], steps[n - 1], r);
      }
    }
  }

  /** In every run, a refused request never gets a backend, a guard or a connection. */
  lemma RefusedGetsNothing(steps: seq<Step>, states: seq<State>, r: RequestId, i: nat, n: nat)
    requires Trace(steps, states) && i < n <= |steps| && steps[i] == Limited(r)
    ensures r in states[n].requests && states[n].requests[r].backend.None?
    ensures !states[n].requests[r].guarded && states[n].requests[r].sender.None?
  {
    assert StepAt(steps, states, i);
    TraceOk(steps, states, i);
    assert RequestOk(states[i].requests[r]);
    FinishedStays(steps, states, r, i + 1, n);
  }

  /** The request has taken its guard and has not given it back. */
  ghost predicate Guards(steps: seq<Step>, n: int, r: RequestId) {
    && (exists i :: 0 <= i < n <= |steps| && steps[i] == TakeGuard(r))
    && forall i :: 0 <= i < n <= |steps| ==> steps[i] != DropGuard(r) && steps[i] != Cancel(r)
  }

  lemma OwnGuard(s: State, step: Step)
    requires Enabled(s, step) && ByRequest(step)
    requires step.req in s.requests ==> RequestOk(s.requests[step.req])
    ensures EffectOf(s, step).request.guarded <==>
            step.TakeGuard? || (step.req in s.requests && s.requests[step.req].guarded && !step.DropGuard? && !step.Cancel?)
  {
  }

  /** The request has given its guard back, or was cancelled. */
  ghost predicate GaveUp(steps: seq<Step>, n: int, r: RequestId) {
    exists i :: 0 <= i < n <= |steps| && (steps[i] == DropGuard(r) || steps[i] == Cancel(r))
  }

  lemma GuardsMore(steps: seq<Step>, n: nat, r: RequestId)
    requires n < |steps|
    ensures GaveUp(steps, n + 1, r) <==> GaveUp(steps, n, r) || steps[n] == DropGuard(r) || steps[n] == Cancel(r)
    ensures Guards(steps, n + 1, r) <==>
            && (Guards(steps, n, r) || (steps[n] == TakeGuard(r) && !GaveUp(steps, n, r)))
            && steps[n] != DropGuard(r) && steps[n] != Cancel(r)
  {
    if steps[n] == TakeGuard(r) && !GaveUp(steps, n, r) {
      assert exists i :: 0 <= i < n + 1 && steps[i] == TakeGuard(r);
    }
  }

  lemma {:induction false} GivingUpEnds(steps: seq<Step>, states: seq<State>, n: nat, r: RequestId)
    requires Trace(steps, states) && n <= |steps| && GaveUp(steps, n, r)
    ensures At(states[n], r, Finished)
  {
    var i :| 0 <= i < n && (steps[i] == DropGuard(r) || steps[i] == Cancel(r));
    assert EndsAt(steps, states, r, i);
    FinishedIff(steps, states, n, r);
  }

  ghost predicate Holds(s: State, r: RequestId) {
    r in s.requests && s.requests[r].guarded
  }

  lemma OwnGuardStep(s: State, step: Step)
    requires RequestsOk(s) && Enabled(s, step) && ByRequest(step)
    ensures Holds(Apply(s, step), step.req) <==>
            step.TakeGuard? || (Holds(s, step.req) && !step.DropGuard? && !step.Cancel?)
  {
    OwnGuard(s, step);
  }

  /** So in every run the holders of a backend are the requests between taking its guard and dropping it. */
  lemma {:induction false} GuardFollowsRun(steps: seq<Step>, states: seq<State>, n: nat, r: RequestId)
    requires Trace(steps, states) && n <= |steps|
    ensures Holds(states[n], r) <==> Guards(steps, n, r)
  {
    if n > 0 {
      GuardFollowsRun(steps, states, n - 1, r);
      GuardsMore(steps, n - 1, r);
      GuardStep(steps, states, n - 1, r);
    }
  }

  lemma GuardStep(steps: seq<Step>, states: seq<State>, n: nat, r: RequestId)
    requires Trace(steps, states) && n < |steps|
    ensures Holds(states[n + 1], r) <==>
            (Holds(states[n], r) || steps[n] == TakeGuard(r)) && steps[n] != DropGuard(r) && steps[n] != Cancel(r)
    ensures steps[n] == TakeGuard(r) ==> !GaveUp(steps, n, r)
  {
    assert StepAt(steps, states, n);
    TraceOk(steps, states, n);
    if IsOwn(steps[n], r) {
      OwnGuardStep(states[n], steps[n]);
      if steps[n] == TakeGuard(r) && GaveUp(steps, n, r) {
        GivingUpEnds(steps, states, n, r);
        assert false;
      }
    } else {
      OthersLeaveAlone(states[n], steps[n], r);
    }
  }

  // ----- what becomes of a connection

  /** The step finds that the connection is of no more use, or its request is cancelled. */
  ghost predicate Useless(s: State, step: Step, x: Sender) {
    match step
    case Pop(r) =>
      HasBackend(s, r) && QueueOf(s.pool.idle, NodeOf(s, r).addr) != [] &&
      QueueOf(s.pool.idle, NodeOf(s, r).addr)[0] == x && x in s.pool.closed
    case Push(r) => LeasedTo(s, x, r) && x in s.pool.closed
    case Probed(r, ok) => LeasedTo(s, x, r) && !ok
    case Prepared(r, ok) => LeasedTo(s, x, r) && !ok
    case SendFails(r, _) => LeasedTo(s, x, r)
    case Cancel(r) => LeasedTo(s, x, r)
    case _ => false
  }

  ghost predicate UselessAt(steps: seq<Step>, states: seq<State>, x: Sender, i: int) {
    0 <= i < |steps| < |states| && Useless(states[i], steps[i], x)
  }

  lemma OwnDiscard(s: State, step: Step, x: Sender)
    requires Enabled(s, step) && ByRequest(step)
    requires step.req in s.requests ==> RequestOk(s.requests[step.req])
    ensures x in Moved(s.pool, EffectOf(s, step).move).discarded <==> x in s.pool.discarded || Useless(s, step, x)
  {
  }

  /** In every run, the discarded connections are exactly those that a step found useless. */
  lemma {:induction false} DiscardedIff(steps: seq<Step>, states: seq<State>, n: nat, x: Sender)
    requires Trace(steps, states) && n <= |steps|
    ensures x in states[n].pool.discarded <==> exists i :: 0 <= i < n && UselessAt(steps, states, x, i)
  {
    if n > 0 {
      DiscardedIff(steps, states, n - 1, x);
      assert StepAt(steps, states, n - 1);
      TraceOk(steps, states, n - 1);
      assert UselessAt(steps, states, x, n - 1) <==> Useless(states[n - 1], steps[n - 1], x);
      if ByRequest(steps[n - 1]) {
        OwnDiscard(states[n - 1], steps[n - 1], x);
      }
    }
  }

  /** And no request ever gets hold of one again, to send on it or to return it. */
  lemma UselessIsGone(steps: seq<Step>, states: seq<State>, i: nat, n: nat, x: Sender)
    requires Trace(steps, states) && i < n <= |steps| && Useless(states[i], steps[i], x)
    ensures x in states[n].pool.discarded && !Idle(states[n], x) && forall r :: !LeasedTo(states[n], x, r)
  {
    assert UselessAt(steps, states, x, i);
    DiscardedIff(steps, states, n, x);
    TraceOk(steps, states, n);
  }

  /** The connection that the step returns to the address, if it does. */
  function ReturnedBy(s: State, step: Step, a: Addr): (xs: seq<Sender>) {
    if step.Enqueue? && Returns(s, step.req, a) && HasSender(s, step.req) then [s.requests[step.req].sender.value] else []
  }

  ghost function Returned(steps: seq<Step>, states: seq<State>, n: nat, a: Addr): (xs: seq<Sender>)
    requires n <= |steps| < |states|
  {
    if n == 0 then [] else Returned(steps, states, n - 1, a) + ReturnedBy(states[n - 1], steps[n - 1], a)
  }

  lemma QueueStep(s: State, step: Step, a: Addr)
    requires Enabled(s, step)
    ensures var was, now := QueueOf(s.pool.idle, a), QueueOf(Apply(s, step).pool.idle, a);
            now == was + ReturnedBy(s, step, a) || (ReturnedBy(s, step, a) == [] && was != [] && now == was[1..])
  {
    if ByRequest(step) {
      OwnQueueMove(s, step);
      MoveQueue(s.pool, EffectOf(s, step).move, a);
    }
  }

  /** Only a return lengthens a queue, and only taking or dropping the oldest shortens it. */
  lemma MoveQueue(p: RequestLifecycle.Pool, move: Move, a: Addr)
    ensures var was, now := QueueOf(p.idle, a), QueueOf(Moved(p, move).idle, a);
            if move.Return? && move.addr == a then now == was + [move.sender]
            else if (move.TakeOldest? || move.DropOldest?) && move.addr == a && was != [] then now == was[1..]
            else now == was
    ensures Moved(p, move).closed == p.closed
  {
  }

  lemma OwnQueueMove(s: State, step: Step)
    requires Enabled(s, step) && ByRequest(step)
    ensures var move := EffectOf(s, step).move;
            && (if step.Enqueue? then move == Return(s.requests[step.req].sender.value, NodeOf(s, step.req).addr) else !move.Return?)
            && (move.TakeOldest? || move.DropOldest? ==>
                  step.Pop? && LoopsAt(s, step.req, move.addr) && QueueOf(s.pool.idle, move.addr) != [])
  {
  }

  lemma QueueStepAt(steps: seq<Step>, states: seq<State>, n: nat, a: Addr)
    requires Trace(steps, states) && n < |steps|
    ensures var was, now := QueueOf(states[n].pool.idle, a), QueueOf(states[n + 1].pool.idle, a);
            var more := ReturnedBy(states[n], steps[n], a);
            now == was + more || (more == [] && was != [] && now == was[1..])
  {
    assert StepAt(steps, states, n);
    QueueStep(states[n], steps[n], a);
  }

  /** The queue is the end of the list. */
  ghost predicate IsEndOf(queue: seq<Sender>, all: seq<Sender>) {
    |queue| <= |all| && queue == all[|all| - |queue|..]
  }

  lemma StaysEnd(queue: seq<Sender>, all: seq<Sender>, next: seq<Sender>, more: seq<Sender>)
    requires IsEndOf(queue, all)
    requires next == queue + more || (more == [] && queue != [] && next == queue[1..])
    ensures IsEndOf(next, all + more)
  {
  }

  /** In every run, the queue of an address holds the latest returns to it, oldest first. */
  lemma {:induction false} QueueHoldsLatestReturns(steps: seq<Step>, states: seq<State>, n: nat, a: Addr)
    requires Trace(steps, states) && n <= |steps|
    ensures IsEndOf(QueueOf(states[n].pool.idle, a), Returned(steps, states, n, a))
  {
    if n > 0 {
      QueueHoldsLatestReturns(steps, states, n - 1, a);
      QueueStepAt(steps, states, n - 1, a);
      StaysEnd(QueueOf(states[n - 1].pool.idle, a), Returned(steps, states, n - 1, a), QueueOf(states[n].pool.idle, a),
               ReturnedBy(states[n - 1], steps[n - 1], a));
    }
  }

  // ----- one request's try for an idle connection

  /** The step takes from the queue of the address or adds to it. */
  predicate Touches(s: State, step: Step, a: Addr) {
    (step.Pop? && LoopsAt(s, step.req, a)) || (step.Enqueue? && Returns(s, step.req, a))
  }

  lemma UntouchedQueue(s: State, step: Step, a: Addr)
    requires Enabled(s, step) && !Touches(s, step, a)
    ensures QueueOf(Apply(s, step).pool.idle, a) == QueueOf(s.pool.idle, a)
  {
    if ByRequest(step) {
      OwnQueueMove(s, step);
      MoveQueue(s.pool, EffectOf(s, step).move, a);
    }
  }

  predicate Trying(s: State, r: RequestId, a: Addr) {
    (At(s, r, Popping) || At(s, r, Looping)) && HasBackend(s, r) && NodeOf(s, r).addr == a
  }

  /** Between steps i and n only request r touches the queue of the address. */
  ghost predicate OnlyOwnTouches(steps: seq<Step>, states: seq<State>, r: RequestId, a: Addr, i: int, n: int) {
    |states| == |steps| + 1 &&
    forall m :: 0 <= i <= m < n <= |steps| ==> IsOwn(steps[m], r) || !Touches(states[m], steps[m], a)
  }

  /** From the queue as it was, only closed connections have been thrown away so far. */
  ghost predicate Skipped(queue: seq<Sender>, s: State, a: Addr, k: int) {
    && 0 <= k <= |queue| && QueueOf(s.pool.idle, a) == queue[k..]
    && forall j :: 0 <= j < k ==> queue[j] in s.pool.closed
  }

  lemma ClosedGrows(s: State, step: Step)
    requires Enabled(s, step)
    ensures s.pool.closed <= Apply(s, step).pool.closed
  {
    if ByRequest(step) {
      MoveQueue(s.pool, EffectOf(s, step).move, 0);
    }
  }

  lemma TryStep(s: State, step: Step, r: RequestId, a: Addr, queue: seq<Sender>, k: int)
    requires RequestsOk(s) && Enabled(s, step) && (IsOwn(step, r) || !Touches(s, step, a))
    requires Trying(s, r, a) && Skipped(queue, s, a, k)
    ensures var t := Apply(s, step);
            || (Trying(t, r, a) && Skipped(queue, t, a, if step == Pop(r) then k + 1 else k))
            || (step.Cancel? && step.req == r)
            || (IsOwn(step, r) && Served(queue, t, r, a))
  {
    var t := Apply(s, step);
    ClosedGrows(s, step);
    AddressStays(s, step, r);
    if !IsOwn(step, r) {
      UntouchedQueue(s, step, a);
      OthersLeaveAlone(s, step, r);
    } else if step.Look? {
      UntouchedQueue(s, step, a);
    } else if step.Pop? && QueueOf(s.pool.idle, a) != [] {
      assert QueueOf(s.pool.idle, a)[0] == queue[k];
      assert QueueOf(t.pool.idle, a) == queue[k + 1..];
      if queue[k] !in s.pool.closed {
        assert FirstOpenAt(queue, t.pool.closed, queue[k + 1..], k);
      }
    }
  }

  /** How a step of its try leaves the request. */
  ghost predicate Served(queue: seq<Sender>, t: State, r: RequestId, a: Addr) {
    && r in t.requests && t.requests[r].pc == (if t.requests[r].sender.Some? then Probing else Connecting)
    && PopsFirstOpen(queue, t.pool.closed, t.requests[r].sender, QueueOf(t.pool.idle, a))
  }

  lemma {:induction false} PointsFall(steps: seq<Step>, states: seq<State>, r: RequestId, i: nat, n: nat)
    requires Trace(steps, states) && i <= n <= |steps|
    ensures PointsLeft(states[n], r) <= PointsLeft(states[i], r)
    decreases n
  {
    if n > i {
      PointsFall(steps, states, r, i, n - 1);
      assert StepAt(steps, states, n - 1);
      if IsOwn(steps[n - 1], r) {
        OwnPoint(states[n - 1], steps[n - 1]);
      } else {
        OthersLeaveAlone(states[n - 1], steps[n - 1], r);
      }
    }
  }

  lemma TryGoesOn(s: State, step: Step, r: RequestId, a: Addr)
    requires RequestsOk(s) && Enabled(s, step) && PointsLeft(s, r) <= PointsAfter(Popping) && HasBackend(s, r)
    requires Trying(Apply(s, step), r, a)
    ensures Trying(s, r, a)
  {
    AddressStays(s, step, r);
    if IsOwn(step, r) {
      OwnPoint(s, step);
      TakesOnly(s, step);
    } else {
      OthersLeaveAlone(s, step, r);
    }
  }

  lemma WasTrying(steps: seq<Step>, states: seq<State>, r: RequestId, a: Addr, i: nat, n: nat)
    requires Trace(steps, states) && i <= n < |steps| && At(states[i], r, Popping) && Trying(states[i], r, a)
    requires Trying(states[n + 1], r, a)
    ensures Trying(states[n], r, a)
  {
    assert StepAt(steps, states, n);
    TraceOk(steps, states, n);
    PointsFall(steps, states, r, i, n);
    BackendKept(steps, states, r, i, n);
    TryGoesOn(states[n], steps[n], r, a);
  }

  lemma SkipsOne(steps: seq<Step>, states: seq<State>, r: RequestId, a: Addr, queue: seq<Sender>, k: int, n: nat) returns (k': int)
    requires Trace(steps, states) && n < |steps| && (IsOwn(steps[n], r) || !Touches(states[n], steps[n], a))
    requires Trying(states[n], r, a) && Trying(states[n + 1], r, a) && Skipped(queue, states[n], a, k)
    ensures Skipped(queue, states[n + 1], a, k')
  {
    assert StepAt(steps, states, n);
    TraceOk(steps, states, n);
    TryStep(states[n], steps[n], r, a, queue, k);
    k' := if steps[n] == Pop(r) then k + 1 else k;
  }

  lemma {:induction false} SkipsClosed(steps: seq<Step>, states: seq<State>, r: RequestId, a: Addr, i: nat, n: nat) returns (k: int)
    requires Trace(steps, states) && i <= n <= |steps| && OnlyOwnTouches(steps, states, r, a, i, n)
    requires At(states[i], r, Popping) && Trying(states[i], r, a) && Trying(states[n], r, a)
    ensures Skipped(QueueOf(states[i].pool.idle, a), states[n], a, k)
    decreases n
  {
    if n == i {
      k := 0;
    } else {
      WasTrying(steps, states, r, a, i, n - 1);
      k := SkipsClosed(steps, states, r, a, i, n - 1);
      k := SkipsOne(steps, states, r, a, QueueOf(states[i].pool.idle, a), k, n - 1);
    }
  }

  lemma {:induction false} BackendKept(steps: seq<Step>, states: seq<State>, r: RequestId, i: nat, n: nat)
    requires Trace(steps, states) && i <= n <= |steps| && HasBackend(states[i], r)
    ensures HasBackend(states[n], r) && NodeOf(states[n], r).addr == NodeOf(states[i], r).addr
    decreases n
  {
    if n > i {
      BackendKept(steps, states, r, i, n - 1);
      assert StepAt(steps, states, n - 1);
      TraceOk(steps, states, n - 1);
      AddressStays(states[n - 1], steps[n - 1], r);
    }
  }

  /**
   * In every run, a request's turns of the loop together do what one call of try_pop
   * does: unless others touch the queue meanwhile, it comes out with the first idle
   * connection that is not closed, or with none if all are, and goes on to use it or to
   * connect.
   */
  lemma TryPopsFirstOpen(steps: seq<Step>, states: seq<State>, r: RequestId, a: Addr, i: nat, n: nat)
    requires Trace(steps, states) && i < n <= |steps| && OnlyOwnTouches(steps, states, r, a, i, n)
    requires At(states[i], r, Popping) && Trying(states[i], r, a)
    requires Trying(states[n - 1], r, a) && !Trying(states[n], r, a) && steps[n - 1] != Cancel(r)
    ensures Served(QueueOf(states[i].pool.idle, a), states[n], r, a)
  {
    var k := SkipsClosed(steps, states, r, a, i, n - 1);
    TryEnds(steps, states, r, a, QueueOf(states[i].pool.idle, a), k, n - 1);
  }

  lemma TryEnds(steps: seq<Step>, states: seq<State>, r: RequestId, a: Addr, queue: seq<Sender>, k: int, n: nat)
    requires Trace(steps, states) && n < |steps| && (IsOwn(steps[n], r) || !Touches(states[n], steps[n], a))
    requires Trying(states[n], r, a) && Skipped(queue, states[n], a, k)
    requires !Trying(states[n + 1], r, a) && steps[n] != Cancel(r)
    ensures Served(queue, states[n + 1], r, a)
  {
    assert StepAt(steps, states, n);
    TraceOk(steps, states, n);
    TryStep(states[n], steps[n], r, a, queue, k);
  }

  // ----- what the environment did

  /** The tables that the first n steps swapped in. */
  ghost function Swapped(steps: seq<Step>, n: nat): (tables: seq<seq<Handle>>)
    requires n <= |steps|
  {
    if n == 0 then [] else Swapped(steps, n - 1) + if steps[n - 1].Swap? then [steps[n - 1].table] else []
  }

  /** In every run, the tables are the ones swapped in, after the empty one, and the closed connections those that closed. */
  lemma {:induction false} TablesFollowRun(steps: seq<Step>, states: seq<State>, n: nat, x: Sender)
    requires Trace(steps, states) && n <= |steps|
    ensures states[n].tables == [[]] + Swapped(steps, n)
    ensures x in states[n].pool.closed <==> exists i :: 0 <= i < n && steps[i] == Close(x)
  {
    if n > 0 {
      TablesFollowRun(steps, states, n - 1, x);
      assert StepAt(steps, states, n - 1);
      SurroundingsStep(states[n - 1], steps[n - 1], x);
      assert steps[n - 1] == Close(x) <==> exists i :: n - 1 <= i < n && steps[i] == Close(x);
    }
  }

  lemma SurroundingsStep(s: State, step: Step, x: Sender)
    requires Enabled(s, step)
    ensures Apply(s, step).tables == s.tables + if step.Swap? then [step.table] else []
    ensures x in Apply(s, step).pool.closed <==> x in s.pool.closed || step == Close(x)
  {
    if ByRequest(step) {
      MoveQueue(s.pool, EffectOf(s, step).move, 0);
    }
  }

  /** Address, decay, initial latency and health of a backend. */
  datatype Nature = Nature(addr: Addr, alpha: real, initial: real, healthy: bool)

  function NatureOf(n: Node): (a: Nature) {
    Nature(n.addr, n.alpha, n.initial, n.healthy)
  }

  lemma NatureStep(s: State, step: Step, h: Handle)
    requires RequestsOk(s) && Enabled(s, step) && h in s.nodes
    ensures h in Apply(s, step).nodes
    ensures NatureOf(Apply(s, step).nodes[h]) ==
            if step.SetHealth? && step.node == h then NatureOf(s.nodes[h]).(healthy := step.healthy) else NatureOf(s.nodes[h])
  {
    if ByRequest(step) {
      OwnNature(s, step);
    }
  }

  lemma OwnNature(s: State, step: Step)
    requires Enabled(s, step) && ByRequest(step)
    requires step.req in s.requests ==> RequestOk(s.requests[step.req])
    ensures var e := EffectOf(s, step);
            e.node.Some? ==>
              HasBackend(s, step.req) && e.request.backend == s.requests[step.req].backend &&
              NatureOf(e.node.value) == NatureOf(NodeOf(s, step.req))
  {
  }

  /** The health that the steps from i on leave, starting from the given one. */
  ghost function Health(steps: seq<Step>, i: nat, n: nat, h: Handle, start: bool): (healthy: bool)
    requires i <= n <= |steps|
    decreases n
  {
    if n == i then start
    else if steps[n - 1].SetHealth? && steps[n - 1].node == h then steps[n - 1].healthy
    else Health(steps, i, n - 1, h, start)
  }

  /** In every run, a backend is as it was added, except for the health that was set since. */
  lemma {:induction false} NatureFollowsRun(steps: seq<Step>, states: seq<State>, i: nat, n: nat, h: Handle)
    requires Trace(steps, states) && i < n <= |steps| && steps[i].Swap? && h in steps[i].added
    ensures h in states[n].nodes
    ensures NatureOf(states[n].nodes[h]) ==
            NatureOf(steps[i].added[h]).(healthy := Health(steps, i + 1, n, h, steps[i].added[h].healthy))
    decreases n
  {
    assert StepAt(steps, states, n - 1);
    if n > i + 1 {
      NatureFollowsRun(steps, states, i, n - 1, h);
      TraceOk(steps, states, n - 1);
      NatureStep(states[n - 1], steps[n - 1], h);
    }
  }
}
