/** Runs of the request lifecycle in which requests meet a backend whose breaker is half open. */
module HalfOpenRequests {
  import opened Options
  import opened PeakEwma
  import opened CircuitBreaker
  import opened Ranking
  import opened Selector
  import opened RequestLifecycle

  // ----- one backend

  type Requests = map<RequestId, Request>

  /** Backend 0 is alone in the current table, and no connection has been made. */
  function World(requests: Requests, n: Node): (s: State) {
    State(map[0 := n], [[], [0]], requests, INITIAL.pool)
  }

  /** The run ends with requests as in base, except that r is at q. */
  ghost predicate Reached(steps: seq<Step>, base: Requests, r: RequestId, q: Request, n: Node) {
    Runs(INITIAL, steps, World(base[r := q], n))
  }

  function NodeAfter(n: Node, e: Effect): (m: Node) {
    if e.node.Some? then e.node.value else n
  }

  lemma CommitWorld(base: Requests, r: RequestId, q: Request, n: Node, e: Effect)
    requires (e.node.Some? ==> e.request.backend == Some(0)) && e.move == Stay
    ensures Commit(World(base[r := q], n), r, e) == World(base[r := e.request], NodeAfter(n, e))
  {
    assert base[r := q][r := e.request] == base[r := e.request];
    assert e.node.Some? ==> map[0 := n][0 := e.node.value] == map[0 := e.node.value];
  }

  const NEW_NODE := Node(0, 1.0, 1.0, true, 1.0, 0, 0, 0, [], [])

  lemma Starts(n: Node)
    requires New(n)
    ensures Runs(INITIAL, [Swap([0], map[0 := n])], World(map[], n))
  {
    var step := Swap([0], map[0 := n]);
    assert INITIAL.nodes + map[0 := n] == map[0 := n];
    assert INITIAL.tables + [[0]] == [[], [0]];
    assert Apply(INITIAL, step) == World(map[], n);
    OneMore(INITIAL, [], INITIAL, step);
    assert [] + [step] == [step];
  }

  /** One more step of request r, with the given effect. */
  lemma Act(steps: seq<Step>, base: Requests, q: Request, n: Node, step: Step, e: Effect)
    requires ByRequest(step) && Reached(steps, base, step.req, q, n) && Enabled(World(base[step.req := q], n), step)
    requires EffectOf(World(base[step.req := q], n), step) == e && (e.node.Some? ==> e.request.backend == Some(0)) && e.move == Stay
    ensures Reached(steps + [step], base, step.req, e.request, NodeAfter(n, e))
  {
    OneMore(INITIAL, steps, World(base[step.req := q], n), step);
    CommitWorld(base, step.req, q, n, e);
  }

  // ----- what one request does

  const ARRIVED := Request(Checking, None, false, None, 0, false)
  const POPPING := Request(Popping, Some(0), true, None, 1, false)

  predicate Admits(n: Node, now: nat) {
    n.healthy && StateOf(n.failures, n.lastFailureTime, now) != Open
  }

  lemma ChoosesBackend(requests: Requests, n: Node, now: nat)
    requires Admits(n, now)
    ensures SelectBest(Snapshot(World(requests, n), now)) == Some(View(0, n, now))
  {
    var views := Snapshot(World(requests, n), now);
    assert IsBest(Eligible, Score, views, 0);
    BestIsMinBy(Eligible, Score, views, 0);
  }

  lemma Arrives(steps: seq<Step>, base: Requests, r: RequestId, n: Node)
    requires Runs(INITIAL, steps, World(base, n)) && r !in base
    ensures Reached(steps + [Arrive(r)], base, r, ARRIVED, n)
  {
    OneMore(INITIAL, steps, World(base, n), Arrive(r));
  }

  lemma Passes(steps: seq<Step>, base: Requests, r: RequestId, n: Node)
    requires Reached(steps, base, r, ARRIVED, n)
    ensures Reached(steps + [Pass(r)], base, r, ARRIVED.(pc := Selecting), n)
  {
    Act(steps, base, ARRIVED, n, Pass(r), Effect(ARRIVED.(pc := Selecting), None, Stay));
  }

  lemma Selects(steps: seq<Step>, base: Requests, r: RequestId, n: Node, now: nat)
    requires Reached(steps, base, r, ARRIVED.(pc := Selecting), n) && Admits(n, now)
    ensures Reached(steps + [Select(r, now)], base, r, POPPING.(pc := Guarding, guarded := false), n)
  {
    ChoosesBackend(base[r := ARRIVED.(pc := Selecting)], n, now);
    Act(steps, base, ARRIVED.(pc := Selecting), n, Select(r, now),
        Effect(POPPING.(pc := Guarding, guarded := false), None, Stay));
  }

  lemma TakesGuard(steps: seq<Step>, base: Requests, r: RequestId, n: Node)
    requires Reached(steps, base, r, POPPING.(pc := Guarding, guarded := false), n)
    ensures Reached(steps + [TakeGuard(r)], base, r, POPPING, n.(active := n.active + 1))
  {
    Act(steps, base, POPPING.(pc := Guarding, guarded := false), n, TakeGuard(r),
        Effect(POPPING, Some(n.(active := n.active + 1)), Stay));
  }

  /** A new request arrives, chooses the backend and takes its guard. */
  lemma Enters(steps: seq<Step>, base: Requests, r: RequestId, n: Node, now: nat) returns (more: seq<Step>)
    requires Runs(INITIAL, steps, World(base, n)) && r !in base && Admits(n, now)
    ensures steps <= more && Select(r, now) in more && Reached(more, base, r, POPPING, n.(active := n.active + 1))
  {
    Arrives(steps, base, r, n);
    more := steps + [Arrive(r)];
    Passes(more, base, r, n);
    more := more + [Pass(r)];
    Selects(more, base, r, n, now);
    more := more + [Select(r, now)];
    TakesGuard(more, base, r, n);
    more := more + [TakeGuard(r)];
  }

  lemma FindsNoQueue(steps: seq<Step>, base: Requests, r: RequestId, n: Node)
    requires Reached(steps, base, r, POPPING, n)
    ensures Reached(steps + [Look(r)], base, r, POPPING.(pc := Connecting), n)
  {
    Act(steps, base, POPPING, n, Look(r), Effect(POPPING.(pc := Connecting), None, Stay));
  }

  lemma Leaves(steps: seq<Step>, base: Requests, r: RequestId, n: Node)
    requires Reached(steps, base, r, POPPING.(pc := Leaving, reported := true), n)
    ensures Reached(steps + [DropGuard(r)], base, r, POPPING.(pc := Finished, guarded := false, reported := true),
                    n.(active := Decremented(n.active)))
  {
    Act(steps, base, POPPING.(pc := Leaving, reported := true), n, DropGuard(r),
        Effect(POPPING.(pc := Finished, guarded := false, reported := true), Some(n.(active := Decremented(n.active))), Stay));
  }

  // ----- any number of requests hold a half-open backend

  lemma FailsToConnect(steps: seq<Step>, base: Requests, r: RequestId, n: Node, at: nat)
    requires Reached(steps, base, r, POPPING.(pc := Connecting), n)
    ensures Reached(steps + [ConnectFails(r, at)], base, r, POPPING.(pc := Leaving, reported := true), Failed(n, at))
  {
    Act(steps, base, POPPING.(pc := Connecting), n, ConnectFails(r, at),
        Effect(POPPING.(pc := Leaving, reported := true), Some(Failed(n, at)), Stay));
  }

  /** A new request chooses the backend, fails to connect to it and leaves. */
  lemma Fails(steps: seq<Step>, base: Requests, r: RequestId, n: Node, at: nat) returns (more: seq<Step>, q: Request)
    requires Runs(INITIAL, steps, World(base, n)) && r !in base && Admits(n, at)
    ensures Reached(more, base, r, q, Failed(n, at)) && !q.guarded
  {
    more := Enters(steps, base, r, n, at);
    var m := n.(active := n.active + 1);
    FindsNoQueue(more, base, r, m);
    FailsToConnect(more + [Look(r)], base, r, m, at);
    Leaves(more + [Look(r)] + [ConnectFails(r, at)], base, r, Failed(m, at));
    assert Failed(m, at).(active := Decremented(m.active)) == Failed(n, at);
    more := more + [Look(r)] + [ConnectFails(r, at)] + [DropGuard(r)];
    q := POPPING.(pc := Finished, guarded := false, reported := true);
  }

  /** k requests have failed, and no other is known. */
  ghost predicate FailedOften(steps: seq<Step>, base: Requests, n: Node, k: nat, at: nat) {
    && Runs(INITIAL, steps, World(base, n)) && n.healthy
    && n.failures == k && n.active == 0 && (k >= FAILURE_THRESHOLD ==> n.lastFailureTime == at)
    && forall r :: r in base ==> r < k && !base[r].guarded
  }

  lemma FailsAgain(steps: seq<Step>, base: Requests, n: Node, k: nat, at: nat) returns (more: seq<Step>, all: Requests)
    requires FailedOften(steps, base, n, k, at) && k < FAILURE_THRESHOLD
    ensures FailedOften(more, all, Failed(n, at), k + 1, at)
  {
    var q;
    more, q := Fails(steps, base, k, n, at);
    all := base[k := q];
  }

  lemma {:induction false} FailsOften(k: nat, at: nat) returns (steps: seq<Step>, base: Requests, n: Node)
    requires k <= FAILURE_THRESHOLD
    ensures FailedOften(steps, base, n, k, at)
  {
    if k == 0 {
      Starts(NEW_NODE);
      steps, base, n := [Swap([0], map[0 := NEW_NODE])], map[], NEW_NODE;
    } else {
      var before, others, m := FailsOften(k - 1, at);
      steps, base := FailsAgain(before, others, m, k - 1, at);
      n := Failed(m, at);
    }
  }

  lemma {:induction false} HoldHalfOpen(k: nat, at: nat, now: nat) returns (steps: seq<Step>, base: Requests, n: Node)
    requires now > at + RESET_TIMEOUT_SECS
    ensures Runs(INITIAL, steps, World(base, n)) && n.healthy
    ensures n.active == k && StateOf(n.failures, n.lastFailureTime, now) == HalfOpen
    ensures forall r :: r in base ==> r < FAILURE_THRESHOLD + k && (base[r].guarded ==> Select(r, now) in steps)
  {
    if k == 0 {
      steps, base, n := FailsOften(FAILURE_THRESHOLD, at);
    } else {
      var before, others, m := HoldHalfOpen(k - 1, at, now);
      var r := FAILURE_THRESHOLD + k - 1;
      steps := Enters(before, others, r, m, now);
      base, n := others[r := POPPING], m.(active := m.active + 1);
    }
  }

  /** Any number of requests can choose one backend while its breaker is half open, and hold it together. */
  lemma HalfOpenAdmitsMany(k: nat, at: nat, now: nat) returns (steps: seq<Step>, s: State)
    requires now > at + RESET_TIMEOUT_SECS
    ensures Runs(INITIAL, steps, s) && 0 in s.nodes
    ensures StateFor(s.nodes[0].outcomes, now) == HalfOpen
    ensures |Holders(s, 0)| == k && forall r :: r in Holders(s, 0) ==> Select(r, now) in steps
  {
    var base, n;
    steps, base, n := HoldHalfOpen(k, at, now);
    s := World(base, n);
    ReachableInvariant(steps, s);
    NodeShowsRecord(n, now);
  }
}
