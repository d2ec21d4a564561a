/**
 * Requests flowing through the proxy at once: rate check, selection, active-request
 * guard, connection reuse, sending, and every early return, with table swaps, health
 * changes, closing connections and cancelled requests in between.
 *
 * A backend is an object that outlives the tables it appears in.  A request holds the
 * same local variables as the program: its backend, whether its guard is alive, and its
 * connection sender.
 */
module RequestLifecycle {
  import opened Options
  import opened PeakEwma
  import opened CircuitBreaker
  import opened Ranking
  import opened Selector
  import opened ConnectionPool

  type Handle = nat
  type RequestId = nat

  /**
   * A backend.  `outcomes` and `samples` list what has been recorded on it; the program
   * has no such variables.
   */
  datatype Node = Node(
    addr: Addr,
    alpha: real,
    initial: real,
    healthy: bool,
    ewma: real,
    active: nat,
    failures: nat,
    lastFailureTime: nat,
    outcomes: seq<Event>,
    samples: seq<real>)

  /** A backend as it is created. */
  predicate New(n: Node) {
    n.ewma == n.initial && n.active == n.failures == n.lastFailureTime == 0 && n.outcomes == [] && n.samples == []
  }

  datatype Pc =
    | Checking | Selecting | Guarding | Popping | Looping | Probing | Connecting
    | Preparing | Sending | Pushing | Returning | Observing | Leaving | Finished

  /**
   * `epoch` is the number of the table the backend was chosen from, and `reported` says
   * whether an outcome was recorded; the program has no such variables.
   */
  datatype Request = Request(
    pc: Pc, backend: Option<Handle>, guarded: bool, sender: Option<Sender>, epoch: nat, reported: bool)

  /** The connections: idle ones by address, and where each was made to and which are gone. */
  datatype Pool = Pool(idle: map<Addr, seq<Sender>>, closed: set<Sender>, home: map<Sender, Addr>, discarded: set<Sender>)

  datatype State = State(
    nodes: map<Handle, Node>,
    tables: seq<seq<Handle>>,
    requests: map<RequestId, Request>,
    pool: Pool)

  datatype Step =
    | Swap(table: seq<Handle>, added: map<Handle, Node>)
    | SetHealth(node: Handle, healthy: bool)
    | Close(sender: Sender)
    | Arrive(req: RequestId)
    | Limited(req: RequestId)
    | Pass(req: RequestId)
    | Select(req: RequestId, now: nat)
    | TakeGuard(req: RequestId)
    | Look(req: RequestId)
    | Pop(req: RequestId)
    | Probed(req: RequestId, ok: bool)
    | ConnectFails(req: RequestId, now: nat)
    | Connect(req: RequestId, made: Sender)
    | Prepared(req: RequestId, ok: bool)
    | SendSucceeds(req: RequestId)
    | SendFails(req: RequestId, now: nat)
    | Push(req: RequestId)
    | Enqueue(req: RequestId)
    | Observe(req: RequestId, rtt: real)
    | DropGuard(req: RequestId)
    | Cancel(req: RequestId)

  const INITIAL := State(map[], [[]], map[], Pool(map[], {}, map[], {}))

  // ----- selection from the current table

  function View(h: Handle, n: Node, now: nat): (b: Backend) {
    Backend(h, n.addr, n.healthy, StateOf(n.failures, n.lastFailureTime, now), n.ewma, n.active, [])
  }

  predicate Known(s: State, table: seq<Handle>) {
    forall i :: 0 <= i < |table| ==> table[i] in s.nodes
  }

  function Snapshot(s: State, now: nat): (v: seq<Backend>)
    requires s.tables != [] && Known(s, s.tables[|s.tables| - 1])
    ensures |v| == |s.tables[|s.tables| - 1]|
    ensures forall i :: 0 <= i < |v| ==>
              v[i] == View(s.tables[|s.tables| - 1][i], s.nodes[s.tables[|s.tables| - 1][i]], now)
  {
    var table := s.tables[|s.tables| - 1];
    seq(|table|, i requires 0 <= i < |table| => View(table[i], s.nodes[table[i]], now))
  }

  // ----- the steps

  predicate At(s: State, r: RequestId, pc: Pc) {
    r in s.requests && s.requests[r].pc == pc
  }

  predicate HasBackend(s: State, r: RequestId) {
    r in s.requests && s.requests[r].backend.Some? && s.requests[r].backend.value in s.nodes
  }

  predicate HasSender(s: State, r: RequestId) {
    r in s.requests && s.requests[r].sender.Some?
  }

  /**
   * Some request is in the loop over the idle connections of the address.  It holds the
   * map's lock for reading, so that no other can find or make the queue to push to.
   */
  predicate Occupied(s: State, a: Addr) {
    exists r :: r in s.requests && LoopsAt(s, r, a)
  }

  predicate LoopsAt(s: State, r: RequestId, a: Addr) {
    At(s, r, Looping) && HasBackend(s, r) && NodeOf(s, r).addr == a
  }

  predicate Enabled(s: State, step: Step) {
    match step
    case Swap(table, added) =>
      && added.Keys !! s.nodes.Keys
      && (forall h :: h in added ==> New(added[h]))
      && (forall i :: 0 <= i < |table| ==> table[i] in s.nodes || table[i] in added)
    case SetHealth(h, _) => h in s.nodes
    case Close(x) => true
    case Arrive(r) => r !in s.requests
    case Limited(r) => At(s, r, Checking)
    case Pass(r) => At(s, r, Checking)
    case Select(r, _) => At(s, r, Selecting) && s.tables != [] && Known(s, s.tables[|s.tables| - 1])
    case TakeGuard(r) => At(s, r, Guarding) && HasBackend(s, r)
    case Look(r) => At(s, r, Popping) && HasBackend(s, r)
    case Pop(r) => At(s, r, Looping) && HasBackend(s, r)
    case Probed(r, _) => At(s, r, Probing) && HasSender(s, r)
    case ConnectFails(r, _) => At(s, r, Connecting) && HasBackend(s, r)
    case Connect(r, x) => At(s, r, Connecting) && HasBackend(s, r) && x !in s.pool.home
    case Prepared(r, _) => At(s, r, Preparing) && HasSender(s, r)
    case SendSucceeds(r) => At(s, r, Sending) && HasBackend(s, r)
    case SendFails(r, _) => At(s, r, Sending) && HasBackend(s, r) && HasSender(s, r)
    case Push(r) =>
      && At(s, r, Pushing) && HasBackend(s, r) && HasSender(s, r)
      && (s.requests[r].sender.value in s.pool.closed || !Occupied(s, NodeOf(s, r).addr))
    case Enqueue(r) => At(s, r, Returning) && HasBackend(s, r) && HasSender(s, r)
    case Observe(r, _) => At(s, r, Observing) && HasBackend(s, r)
    case DropGuard(r) => At(s, r, Leaving) && HasBackend(s, r)
    case Cancel(r) => r in s.requests && !At(s, r, Finished) && (s.requests[r].guarded ==> HasBackend(s, r))
  }

  /** What a request's step does to a connection. */
  datatype Move =
    | Stay
    | Make(sender: Sender, addr: Addr)
    | TakeOldest(addr: Addr)
    | DropOldest(addr: Addr)
    | Drop(sender: Sender)
    | Provide(addr: Addr)
    | Return(sender: Sender, addr: Addr)

  /** What a request's step does: to its variables, to its own backend, and to a connection. */
  datatype Effect = Effect(request: Request, node: Option<Node>, move: Move)

  function Moved(p: Pool, move: Move): (q: Pool) {
    match move
    case Stay => p
    case Make(x, a) => p.(home := p.home[x := a])
    case TakeOldest(a) =>
      if QueueOf(p.idle, a) == [] then p else p.(idle := p.idle[a := QueueOf(p.idle, a)[1..]])
    case DropOldest(a) =>
      if QueueOf(p.idle, a) == [] then p
      else p.(idle := p.idle[a := QueueOf(p.idle, a)[1..]], discarded := p.discarded + {QueueOf(p.idle, a)[0]})
    case Drop(x) => p.(discarded := p.discarded + {x})
    case Provide(a) => p.(idle := p.idle[a := QueueOf(p.idle, a)])
    case Return(x, a) => p.(idle := p.idle[a := QueueOf(p.idle, a) + [x]])
  }

  function Commit(s: State, r: RequestId, e: Effect): (t: State) {
    State(
      if e.node.Some? && e.request.backend.Some? then s.nodes[e.request.backend.value := e.node.value] else s.nodes,
      s.tables,
      s.requests[r := e.request],
      Moved(s.pool, e.move))
  }

  function NodeOf(s: State, r: RequestId): (n: Node)
    requires HasBackend(s, r)
  {
    s.nodes[s.requests[r].backend.value]
  }

  /** The node after a failed call has been recorded in its circuit breaker. */
  function Failed(n: Node, now: nat): (m: Node) {
    n.(failures := n.failures + 1,
       lastFailureTime := if n.failures + 1 >= FAILURE_THRESHOLD then now else n.lastFailureTime,
       outcomes := n.outcomes + [Failure(now)])
  }

  function Succeeded(n: Node): (m: Node) {
    n.(failures := 0, lastFailureTime := 0, outcomes := n.outcomes + [Success])
  }

  function Observed(n: Node, rtt: real): (m: Node) {
    n.(ewma := PeakStep(n.alpha, n.ewma, rtt), samples := n.samples + [rtt])
  }

  function Dropped(sender: Option<Sender>): (m: Move) {
    if sender.Some? then Drop(sender.value) else Stay
  }

  predicate ByRequest(step: Step) {
    !(step.Swap? || step.SetHealth? || step.Close?)
  }

  function EffectOf(s: State, step: Step): (e: Effect)
    requires Enabled(s, step) && ByRequest(step)
  {
    var q := if step.req in s.requests then s.requests[step.req] else Request(Checking, None, false, None, 0, false);
    match step
    case Arrive(_) => Effect(q, None, Stay)
    case Limited(_) => Effect(q.(pc := Finished), None, Stay)
    case Pass(_) => Effect(q.(pc := Selecting), None, Stay)
    case Select(_, now) =>
      var choice := SelectBest(Snapshot(s, now));
      if choice.None? then Effect(q.(pc := Finished), None, Stay)
      else Effect(q.(pc := Guarding, backend := Some(choice.value.id), epoch := |s.tables| - 1), None, Stay)
    case TakeGuard(r) =>
      var n := NodeOf(s, r);
      Effect(q.(pc := Popping, guarded := true), Some(n.(active := n.active + 1)), Stay)
    case Look(r) => Effect(q.(pc := if NodeOf(s, r).addr in s.pool.idle then Looping else Connecting), None, Stay)
    case Pop(r) =>
      // one turn of the loop in try_pop: the oldest sender is taken, and thrown away if closed
      var a := NodeOf(s, r).addr;
      var queue := QueueOf(s.pool.idle, a);
      if queue == [] then Effect(q.(pc := Connecting), None, Stay)
      else if queue[0] in s.pool.closed then Effect(q, None, DropOldest(a))
      else Effect(q.(pc := Probing, sender := Some(queue[0])), None, TakeOldest(a))
    case Probed(_, ok) =>
      if ok then Effect(q.(pc := Preparing), None, Stay)
      else Effect(q.(pc := Connecting, sender := None), None, Dropped(q.sender))
    case ConnectFails(r, now) => Effect(q.(pc := Leaving, reported := true), Some(Failed(NodeOf(s, r), now)), Stay)
    case Connect(r, x) => Effect(q.(pc := Preparing, sender := Some(x)), None, Make(x, NodeOf(s, r).addr))
    case Prepared(_, ok) =>
      if ok then Effect(q.(pc := Sending), None, Stay)
      else Effect(q.(pc := Leaving, sender := None), None, Dropped(q.sender))
    case SendSucceeds(r) =>
      Effect(q.(pc := Pushing, reported := true), Some(Succeeded(NodeOf(s, r))), Stay)
    case SendFails(r, now) =>
      Effect(q.(pc := Leaving, sender := None, reported := true), Some(Failed(NodeOf(s, r), now)), Dropped(q.sender))
    case Push(r) =>
      var x := q.sender.value;
      if x in s.pool.closed then Effect(q.(pc := Observing, sender := None), None, Drop(x))
      else Effect(q.(pc := Returning), None, Provide(NodeOf(s, r).addr))
    case Enqueue(r) =>
      Effect(q.(pc := Observing, sender := None), None, Return(q.sender.value, NodeOf(s, r).addr))
    case Observe(r, rtt) => Effect(q.(pc := Leaving), Some(Observed(NodeOf(s, r), rtt)), Stay)
    case DropGuard(r) =>
      var n := NodeOf(s, r);
      Effect(q.(pc := Finished, guarded := false), Some(n.(active := Decremented(n.active))), Stay)
    case Cancel(r) =>
      var node := if q.guarded then Some(NodeOf(s, r).(active := Decremented(NodeOf(s, r).active))) else None;
      Effect(q.(pc := Finished, guarded := false, sender := None), node, Dropped(q.sender))
  }

  function Apply(s: State, step: Step): (t: State)
    requires Enabled(s, step)
  {
    match step
    case Swap(table, added) => s.(tables := s.tables + [table], nodes := s.nodes + added)
    case SetHealth(h, healthy) => s.(nodes := s.nodes[h := s.nodes[h].(healthy := healthy)])
    case Close(x) => s.(pool := s.pool.(closed := s.pool.closed + {x}))
    case _ => Commit(s, step.req, EffectOf(s, step))
  }

  /** `to` is reached from `from` by the given steps. */
  ghost predicate Runs(from: State, steps: seq<Step>, to: State)
    decreases |steps|
  {
    if steps == [] then to == from
    else
      var last := |steps| - 1;
      exists mid: State :: Runs(from, steps[..last], mid) && Enabled(mid, steps[last]) && to == Apply(mid, steps[last])
  }

  lemma OneMore(from: State, steps: seq<Step>, s: State, step: Step)
    requires Runs(from, steps, s) && Enabled(s, step)
    ensures Runs(from, steps + [step], Apply(s, step))
  {
    assert (steps + [step])[..|steps|] == steps;
  }

  // ----- local variables

  /** What each point of the program knows about the request's variables. */
  ghost predicate RequestOk(q: Request) {
    match q.pc
    case Checking => q.backend.None? && !q.guarded && q.sender.None? && !q.reported
    case Selecting => q.backend.None? && !q.guarded && q.sender.None? && !q.reported
    case Guarding => q.backend.Some? && !q.guarded && q.sender.None? && !q.reported
    case Popping => q.backend.Some? && q.guarded && q.sender.None? && !q.reported
    case Looping => q.backend.Some? && q.guarded && q.sender.None? && !q.reported
    case Connecting => q.backend.Some? && q.guarded && q.sender.None? && !q.reported
    case Pushing => q.backend.Some? && q.guarded && q.sender.Some? && q.reported
    case Returning => q.backend.Some? && q.guarded && q.sender.Some? && q.reported
    case Observing => q.backend.Some? && q.guarded && q.sender.None? && q.reported
    case Leaving => q.backend.Some? && q.guarded && q.sender.None?
    case Finished => !q.guarded && q.sender.None? && (q.reported ==> q.backend.Some?)
    case _ => q.backend.Some? && q.guarded && q.sender.Some? && !q.reported
  }

  /** Each chosen backend was in the table it was chosen from, and no backend is forgotten. */
  ghost predicate RequestsOk(s: State) {
    && s.tables != []
    && (forall e :: 0 <= e < |s.tables| ==> Known(s, s.tables[e]))
    && (forall r :: r in s.requests ==> RequestOk(s.requests[r]))
    && (forall r :: r in s.requests && s.requests[r].backend.Some? ==>
          && s.requests[r].epoch < |s.tables|
          && s.requests[r].backend.value in s.tables[s.requests[r].epoch]
          && s.requests[r].backend.value in s.nodes)
  }

  lemma ChoiceIsInTable(s: State, now: nat)
    requires s.tables != [] && Known(s, s.tables[|s.tables| - 1])
    ensures var choice := SelectBest(Snapshot(s, now));
            choice.Some? ==> choice.value.id in s.tables[|s.tables| - 1] && choice.value.id in s.nodes && Eligible(choice.value)
  {
    var i := MinByFindsBest(Eligible, Score, Snapshot(s, now));
  }

  /** A request's step leaves its variables as its next point expects them. */
  lemma OwnVariables(s: State, step: Step)
    requires Enabled(s, step) && ByRequest(step)
    requires step.req in s.requests ==> RequestOk(s.requests[step.req])
    ensures RequestOk(EffectOf(s, step).request)
  {
  }

  /** Only selection picks a backend; from then on the request keeps it. */
  lemma OwnBackend(s: State, step: Step)
    requires Enabled(s, step) && ByRequest(step)
    ensures var q := EffectOf(s, step).request;
            q.backend.Some? ==>
              if step.Select? && q.pc == Guarding then
                q.epoch == |s.tables| - 1 && q.backend.value in s.tables[|s.tables| - 1]
              else
                step.req in s.requests && q.backend == s.requests[step.req].backend && q.epoch == s.requests[step.req].epoch
  {
    if step.Select? {
      ChoiceIsInTable(s, step.now);
    }
  }

  lemma RequestsOkStep(s: State, step: Step)
    requires RequestsOk(s) && Enabled(s, step)
    ensures RequestsOk(Apply(s, step))
  {
    var t := Apply(s, step);
    if ByRequest(step) {
      OwnVariables(s, step);
      OwnBackend(s, step);
      CommitKeepsRequests(s, step.req, EffectOf(s, step));
    } else {
      assert t.requests == s.requests && s.tables <= t.tables && s.nodes.Keys <= t.nodes.Keys;
    }
  }

  lemma CommitKeepsRequests(s: State, r: RequestId, e: Effect)
    requires RequestsOk(s) && RequestOk(e.request)
    requires e.request.backend.Some? ==> e.request.epoch < |s.tables| && e.request.backend.value in s.tables[e.request.epoch]
    ensures RequestsOk(Commit(s, r, e))
  {
    if e.request.backend.Some? {
      assert Known(s, s.tables[e.request.epoch]);
    }
  }

  // ----- active-request counters

  ghost function Holders(s: State, h: Handle): (rs: set<RequestId>) {
    set r | r in s.requests && s.requests[r].guarded && s.requests[r].backend == Some(h)
  }

  ghost predicate CountersOk(s: State) {
    forall h :: h in s.nodes ==> s.nodes[h].active == |Holders(s, h)|
  }

  /** What the effect adds to the backend's counter is what it adds to the request's guard. */
  ghost predicate CountsRight(s: State, r: RequestId, e: Effect) {
    var held := r in s.requests && s.requests[r].guarded;
    && (e.node.Some? ==>
          && HasBackend(s, r) && e.request.backend == s.requests[r].backend
          && e.node.value.active ==
             if held == e.request.guarded then NodeOf(s, r).active
             else if held then Decremented(NodeOf(s, r).active)
             else NodeOf(s, r).active + 1)
    && (e.node.None? ==> held == e.request.guarded)
    && (held ==> e.request.backend == s.requests[r].backend)
  }

  lemma OwnCounter(s: State, step: Step)
    requires Enabled(s, step) && ByRequest(step)
    requires step.req in s.requests ==> RequestOk(s.requests[step.req])
    ensures CountsRight(s, step.req, EffectOf(s, step))
  {
  }

  lemma HoldersAfter(s: State, r: RequestId, e: Effect, h: Handle)
    ensures Holders(Commit(s, r, e), h) ==
            if e.request.guarded && e.request.backend == Some(h) then Holders(s, h) + {r} else Holders(s, h) - {r}
  {
  }

  lemma CommitKeepsCounters(s: State, r: RequestId, e: Effect, h: Handle)
    requires CountersOk(s) && h in s.nodes && CountsRight(s, r, e)
    ensures Commit(s, r, e).nodes[h].active == |Holders(Commit(s, r, e), h)|
  {
    HoldersAfter(s, r, e, h);
    var held := r in s.requests && s.requests[r].guarded;
    assert r in Holders(s, h) <==> held && s.requests[r].backend == Some(h);
    if r in Holders(s, h) {
      assert Holders(s, h) + {r} == Holders(s, h);
    } else {
      assert Holders(s, h) - {r} == Holders(s, h);
    }
  }

  lemma CountersOkStep(s: State, step: Step)
    requires RequestsOk(s) && CountersOk(s) && Enabled(s, step)
    ensures CountersOk(Apply(s, step))
  {
    var t := Apply(s, step);
    forall h | h in t.nodes
      ensures t.nodes[h].active == |Holders(t, h)|
    {
      if ByRequest(step) {
        OwnCounter(s, step);
        CommitKeepsCounters(s, step.req, EffectOf(s, step), h);
      } else {
        assert Holders(t, h) == Holders(s, h);
        if h !in s.nodes {
          assert Holders(s, h) == {};
        }
      }
    }
  }

  // ----- recorded outcomes and samples

  /** Breaker and latency tracker are what the recorded outcomes and samples call for. */
  ghost predicate NodeOk(n: Node) {
    && n.failures == Streak(n.outcomes)
    && n.lastFailureTime == (if Tripped(n.outcomes) then n.outcomes[|n.outcomes| - 1].at else 0)
    && n.ewma == Peak(n.alpha, n.initial, n.samples)
  }

  ghost function Reporters(s: State, h: Handle): (rs: set<RequestId>) {
    set r | r in s.requests && s.requests[r].reported && s.requests[r].backend == Some(h)
  }

  /** And each outcome comes from a request of its own. */
  ghost predicate OutcomesOk(s: State) {
    forall h :: h in s.nodes ==> NodeOk(s.nodes[h]) && |s.nodes[h].outcomes| == |Reporters(s, h)|
  }

  lemma FailedIsOk(n: Node, now: nat)
    requires NodeOk(n)
    ensures NodeOk(Failed(n, now))
  {
    var m := Failed(n, now);
    assert m.outcomes[..|n.outcomes|] == n.outcomes;
    TrippedIffStreak(n.outcomes);
    TrippedIffStreak(m.outcomes);
  }

  lemma SucceededIsOk(n: Node)
    requires NodeOk(n)
    ensures NodeOk(Succeeded(n))
  {
    TrippedIffStreak(Succeeded(n).outcomes);
  }

  lemma ObservedIsOk(n: Node, rtt: real)
    requires NodeOk(n)
    ensures NodeOk(Observed(n, rtt))
  {
    assert (n.samples + [rtt])[..|n.samples|] == n.samples;
  }

  /** The effect adds one outcome to its backend exactly when the request becomes a reporter. */
  ghost predicate ReportsRight(s: State, r: RequestId, e: Effect) {
    var reported := r in s.requests && s.requests[r].reported;
    && (reported ==> e.request.reported && e.request.backend == s.requests[r].backend)
    && (e.node.Some? ==>
          && HasBackend(s, r) && e.request.backend == s.requests[r].backend
          && |e.node.value.outcomes| == |NodeOf(s, r).outcomes| + (if e.request.reported && !reported then 1 else 0)
          && (NodeOk(NodeOf(s, r)) ==> NodeOk(e.node.value)))
    && (e.node.None? ==> reported == e.request.reported)
  }

  lemma OwnReport(s: State, step: Step)
    requires Enabled(s, step) && ByRequest(step)
    requires step.req in s.requests ==> RequestOk(s.requests[step.req])
    ensures ReportsRight(s, step.req, EffectOf(s, step))
  {
    if HasBackend(s, step.req) && NodeOk(NodeOf(s, step.req)) {
      var n := NodeOf(s, step.req);
      if step.ConnectFails? || step.SendFails? {
        FailedIsOk(n, step.now);
      } else if step.SendSucceeds? {
        SucceededIsOk(n);
      } else if step.Observe? {
        ObservedIsOk(n, step.rtt);
      }
    }
  }

  lemma ReportersAfter(s: State, r: RequestId, e: Effect, h: Handle)
    ensures Reporters(Commit(s, r, e), h) ==
            if e.request.reported && e.request.backend == Some(h) then Reporters(s, h) + {r} else Reporters(s, h) - {r}
  {
  }

  lemma CommitKeepsOutcomes(s: State, r: RequestId, e: Effect, h: Handle)
    requires OutcomesOk(s) && h in s.nodes && ReportsRight(s, r, e)
    ensures var t := Commit(s, r, e); NodeOk(t.nodes[h]) && |t.nodes[h].outcomes| == |Reporters(t, h)|
  {
    ReportersAfter(s, r, e, h);
    if r in Reporters(s, h) {
      assert Reporters(s, h) + {r} == Reporters(s, h);
    } else {
      assert Reporters(s, h) - {r} == Reporters(s, h);
    }
  }

  lemma OutcomesOkStep(s: State, step: Step)
    requires RequestsOk(s) && OutcomesOk(s) && Enabled(s, step)
    ensures OutcomesOk(Apply(s, step))
  {
    if ByRequest(step) {
      OwnReport(s, step);
      var e := EffectOf(s, step);
      forall h | h in Commit(s, step.req, e).nodes
        ensures var t := Commit(s, step.req, e); NodeOk(t.nodes[h]) && |t.nodes[h].outcomes| == |Reporters(t, h)|
      {
        CommitKeepsOutcomes(s, step.req, e, h);
      }
    } else {
      EnvironmentKeepsOutcomes(s, step);
    }
  }

  lemma EnvironmentKeepsOutcomes(s: State, step: Step)
    requires RequestsOk(s) && OutcomesOk(s) && Enabled(s, step) && !ByRequest(step)
    ensures OutcomesOk(Apply(s, step))
  {
    var t := Apply(s, step);
    forall h | h in t.nodes
      ensures NodeOk(t.nodes[h]) && |t.nodes[h].outcomes| == |Reporters(t, h)|
    {
      assert Reporters(t, h) == Reporters(s, h);
      if h !in s.nodes {
        assert Reporters(s, h) == {};
      }
    }
  }

  // ----- connection senders

  ghost predicate Idle(s: State, x: Sender) {
    x in s.pool.home && x in QueueOf(s.pool.idle, s.pool.home[x])
  }

  ghost predicate LeasedTo(s: State, x: Sender, r: RequestId) {
    r in s.requests && s.requests[r].sender == Some(x)
  }

  /** Each idle sender stands once, in the queue of the address it is connected to. */
  ghost predicate QueuesOk(p: Pool) {
    && (forall a, i :: 0 <= i < |QueueOf(p.idle, a)| ==>
          QueueOf(p.idle, a)[i] in p.home && p.home[QueueOf(p.idle, a)[i]] == a && QueueOf(p.idle, a)[i] !in p.discarded)
    && (forall a, i, j :: 0 <= i < j < |QueueOf(p.idle, a)| ==> QueueOf(p.idle, a)[i] != QueueOf(p.idle, a)[j])
    && p.discarded <= p.home.Keys
  }

  /** A leased sender belongs to one request and leads to that request's backend. */
  ghost predicate LeasesOk(s: State) {
    && (forall r :: r in s.requests && s.requests[r].sender.Some? ==>
          && var x := s.requests[r].sender.value;
          && x in s.pool.home && x !in s.pool.discarded && !Idle(s, x)
          && HasBackend(s, r) && s.pool.home[x] == NodeOf(s, r).addr)
    && (forall r, r' :: r in s.requests && r' in s.requests && r != r' && s.requests[r].sender.Some? ==>
          s.requests[r].sender != s.requests[r'].sender)
  }

  ghost predicate NoneLost(s: State) {
    forall x :: x in s.pool.home ==> x in s.pool.discarded || Idle(s, x) || exists r :: LeasedTo(s, x, r)
  }

  ghost predicate SendersOk(s: State) {
    QueuesOk(s.pool) && LeasesOk(s) && NoneLost(s)
  }

  /** The sender in the request's hand before a step. */
  ghost function SenderOf(s: State, r: RequestId): (x: Option<Sender>) {
    if r in s.requests then s.requests[r].sender else None
  }

  /** The move carries the sender between the request's hand and the place it says. */
  ghost predicate MovesRight(s: State, r: RequestId, e: Effect) {
    match e.move
    case Stay => e.request.sender == SenderOf(s, r)
    case Provide(_) => e.request.sender == SenderOf(s, r)
    case Make(x, a) =>
      SenderOf(s, r).None? && e.request.sender == Some(x) && x !in s.pool.home && HasBackend(s, r) && a == NodeOf(s, r).addr
    case TakeOldest(a) =>
      && SenderOf(s, r).None? && QueueOf(s.pool.idle, a) != [] && e.request.sender == Some(QueueOf(s.pool.idle, a)[0])
      && HasBackend(s, r) && a == NodeOf(s, r).addr
    case DropOldest(a) => QueueOf(s.pool.idle, a) != [] && e.request.sender == SenderOf(s, r)
    case Drop(x) => SenderOf(s, r) == Some(x) && e.request.sender.None?
    case Return(x, a) =>
      SenderOf(s, r) == Some(x) && e.request.sender.None? && HasBackend(s, r) && a == NodeOf(s, r).addr
  }

  lemma OwnMove(s: State, step: Step)
    requires Enabled(s, step) && ByRequest(step)
    requires step.req in s.requests ==> RequestOk(s.requests[step.req])
    ensures MovesRight(s, step.req, EffectOf(s, step))
    ensures EffectOf(s, step).request.sender.Some? ==>
              step.req in s.requests && EffectOf(s, step).request.backend == s.requests[step.req].backend
    ensures EffectOf(s, step).node.Some? ==>
              && HasBackend(s, step.req)
              && EffectOf(s, step).request.backend == s.requests[step.req].backend
              && EffectOf(s, step).node.value.addr == NodeOf(s, step.req).addr
  {
  }

  lemma MoveKeepsQueues(s: State, r: RequestId, e: Effect)
    requires SendersOk(s) && MovesRight(s, r, e)
    ensures QueuesOk(Moved(s.pool, e.move))
  {
    match e.move {
      case TakeOldest(a) => ShortenedQueue(s.pool, a, Moved(s.pool, e.move));
      case DropOldest(a) => ShortenedQueue(s.pool, a, Moved(s.pool, e.move));
      case Return(x, a) => LengthenedQueue(s.pool, x, a);
      case Provide(a) => SameQueues(s.pool, Moved(s.pool, e.move));
      case _ =>
    }
  }

  lemma ShortenedQueue(p: Pool, a: Addr, q: Pool)
    requires QueuesOk(p) && QueueOf(p.idle, a) != []
    requires q.idle == p.idle[a := QueueOf(p.idle, a)[1..]] && q.home == p.home
    requires q.discarded == p.discarded || q.discarded == p.discarded + {QueueOf(p.idle, a)[0]}
    ensures QueuesOk(q)
  {
    var queue := QueueOf(p.idle, a);
    forall b, i, j | 0 <= i < j < |QueueOf(q.idle, b)|
      ensures QueueOf(q.idle, b)[i] != QueueOf(q.idle, b)[j]
    {
      if b == a {
        assert queue[i + 1] != queue[j + 1];
      } else {
        assert QueueOf(q.idle, b) == QueueOf(p.idle, b);
      }
    }
    forall b, i | 0 <= i < |QueueOf(q.idle, b)|
      ensures QueueOf(q.idle, b)[i] in q.home && q.home[QueueOf(q.idle, b)[i]] == b && QueueOf(q.idle, b)[i] !in q.discarded
    {
      if b == a {
        assert QueueOf(q.idle, b)[i] == queue[i + 1];
      } else {
        assert QueueOf(q.idle, b)[i] == QueueOf(p.idle, b)[i] != queue[0];
      }
    }
  }

  lemma SameQueues(p: Pool, q: Pool)
    requires QueuesOk(p) && q.home == p.home && q.discarded == p.discarded
    requires forall a :: QueueOf(q.idle, a) == QueueOf(p.idle, a)
    ensures QueuesOk(q)
  {
  }

  lemma LengthenedQueue(p: Pool, x: Sender, a: Addr)
    requires QueuesOk(p) && x in p.home && p.home[x] == a && x !in p.discarded && x !in QueueOf(p.idle, a)
    ensures QueuesOk(p.(idle := p.idle[a := QueueOf(p.idle, a) + [x]]))
  {
    var q := p.(idle := p.idle[a := QueueOf(p.idle, a) + [x]]);
    forall b, i, j | 0 <= i < j < |QueueOf(q.idle, b)|
      ensures QueueOf(q.idle, b)[i] != QueueOf(q.idle, b)[j]
    {
      assert b != a ==> QueueOf(q.idle, b) == QueueOf(p.idle, b);
    }
    forall b, i | 0 <= i < |QueueOf(q.idle, b)|
      ensures QueueOf(q.idle, b)[i] in q.home && q.home[QueueOf(q.idle, b)[i]] == b && QueueOf(q.idle, b)[i] !in q.discarded
    {
      if b == a && i == |QueueOf(p.idle, a)| {
        assert QueueOf(q.idle, b)[i] == x;
      } else {
        assert QueueOf(q.idle, b)[i] == QueueOf(p.idle, b)[i];
      }
    }
  }

  /** How a move changes the idle senders. */
  lemma IdleAfter(s: State, r: RequestId, e: Effect, x: Sender)
    requires SendersOk(s) && MovesRight(s, r, e)
    ensures Idle(Commit(s, r, e), x) <==>
            match e.move
            case TakeOldest(a) => Idle(s, x) && x != QueueOf(s.pool.idle, a)[0]
            case DropOldest(a) => Idle(s, x) && x != QueueOf(s.pool.idle, a)[0]
            case Return(y, _) => Idle(s, x) || x == y
            case _ => Idle(s, x)
  {
    var t := Commit(s, r, e);
    if e.move.TakeOldest? || e.move.DropOldest? {
      var queue := QueueOf(s.pool.idle, e.move.addr);
      assert queue == [queue[0]] + queue[1..];
      assert queue[0] in s.pool.home && s.pool.home[queue[0]] == e.move.addr;
    } else if e.move.Return? {
      assert s.pool.home[e.move.sender] == e.move.addr;
    } else if e.move.Make? && x == e.move.sender {
      assert x !in s.pool.home;
      assert x !in QueueOf(s.pool.idle, e.move.addr);
    }
  }

  lemma CommitKeepsLeases(s: State, r: RequestId, e: Effect)
    requires SendersOk(s) && MovesRight(s, r, e)
    requires e.request.sender.Some? ==> HasBackend(s, r) && e.request.backend == s.requests[r].backend
    requires e.node.Some? ==>
               HasBackend(s, r) && e.request.backend == s.requests[r].backend && e.node.value.addr == NodeOf(s, r).addr
    ensures LeasesOk(Commit(s, r, e))
  {
    var t := Commit(s, r, e);
    forall u | u in t.requests && t.requests[u].sender.Some?
      ensures var x := t.requests[u].sender.value;
              && x in t.pool.home && x !in t.pool.discarded && !Idle(t, x)
              && HasBackend(t, u) && t.pool.home[x] == NodeOf(t, u).addr
    {
      LeaseAfter(s, r, e, u);
    }
    forall u, v | u in t.requests && v in t.requests && u != v && t.requests[u].sender.Some?
      ensures t.requests[u].sender != t.requests[v].sender
    {
      NewLeaseIsFresh(s, r, e, u);
      NewLeaseIsFresh(s, r, e, v);
    }
  }

  /** No other request holds the sender that the step puts into this one's hand. */
  lemma NewLeaseIsFresh(s: State, r: RequestId, e: Effect, u: RequestId)
    requires SendersOk(s) && MovesRight(s, r, e)
    ensures u != r && u in s.requests && e.request.sender.Some? ==> s.requests[u].sender != e.request.sender
  {
    if u != r && u in s.requests && s.requests[u].sender.Some? && e.move.TakeOldest? {
      assert Idle(s, QueueOf(s.pool.idle, e.move.addr)[0]);
    }
  }

  lemma LeaseAfter(s: State, r: RequestId, e: Effect, u: RequestId)
    requires SendersOk(s) && MovesRight(s, r, e)
    requires e.request.sender.Some? ==> HasBackend(s, r) && e.request.backend == s.requests[r].backend
    requires e.node.Some? ==>
               HasBackend(s, r) && e.request.backend == s.requests[r].backend && e.node.value.addr == NodeOf(s, r).addr
    requires u in Commit(s, r, e).requests && Commit(s, r, e).requests[u].sender.Some?
    ensures var t := Commit(s, r, e);
            var x := t.requests[u].sender.value;
            && x in t.pool.home && x !in t.pool.discarded && !Idle(t, x)
            && HasBackend(t, u) && t.pool.home[x] == NodeOf(t, u).addr
  {
    var t := Commit(s, r, e);
    var x := t.requests[u].sender.value;
    IdleAfter(s, r, e, x);
    if e.move.TakeOldest? || e.move.DropOldest? {
      assert Idle(s, QueueOf(s.pool.idle, e.move.addr)[0]);
    }
  }

  lemma CommitLosesNone(s: State, r: RequestId, e: Effect)
    requires SendersOk(s) && MovesRight(s, r, e)
    ensures NoneLost(Commit(s, r, e))
  {
    var t := Commit(s, r, e);
    forall x | x in t.pool.home
      ensures x in t.pool.discarded || Idle(t, x) || exists u :: LeasedTo(t, x, u)
    {
      IdleAfter(s, r, e, x);
      if x in s.pool.home && exists u :: LeasedTo(s, x, u) {
        var u :| LeasedTo(s, x, u);
        if u != r || e.request.sender == Some(x) {
          assert LeasedTo(t, x, u);
        }
      } else if e.request.sender == Some(x) {
        assert LeasedTo(t, x, r);
      }
    }
  }

  lemma SendersOkStep(s: State, step: Step)
    requires RequestsOk(s) && SendersOk(s) && Enabled(s, step)
    ensures SendersOk(Apply(s, step))
  {
    if ByRequest(step) {
      OwnMove(s, step);
      MoveKeepsQueues(s, step.req, EffectOf(s, step));
      CommitKeepsLeases(s, step.req, EffectOf(s, step));
      CommitLosesNone(s, step.req, EffectOf(s, step));
    } else {
      SameSenders(s, Apply(s, step));
    }
  }

  lemma SameSenders(s: State, t: State)
    requires SendersOk(s) && t.requests == s.requests && s.nodes.Keys <= t.nodes.Keys
    requires t.pool == s.pool.(closed := t.pool.closed)
    requires forall h :: h in s.nodes ==> t.nodes[h].addr == s.nodes[h].addr
    ensures SendersOk(t)
  {
    forall x | x in t.pool.home
      ensures x in t.pool.discarded || Idle(t, x) || exists r :: LeasedTo(t, x, r)
    {
      if exists r :: LeasedTo(s, x, r) {
        var r :| LeasedTo(s, x, r);
        assert LeasedTo(t, x, r);
      } else {
        assert Idle(s, x) ==> Idle(t, x);
      }
    }
  }

  // ----- what holds in every run

  lemma {:induction false} ReachableInvariant(steps: seq<Step>, s: State)
    requires Runs(INITIAL, steps, s)
    ensures RequestsOk(s) && CountersOk(s) && OutcomesOk(s) && SendersOk(s)
    decreases |steps|
  {
    if steps != [] {
      var last := |steps| - 1;
      var mid :| Runs(INITIAL, steps[..last], mid) && Enabled(mid, steps[last]) && s == Apply(mid, steps[last]);
      ReachableInvariant(steps[..last], mid);
      RequestsOkStep(mid, steps[last]);
      CountersOkStep(mid, steps[last]);
      OutcomesOkStep(mid, steps[last]);
      SendersOkStep(mid, steps[last]);
    }
  }

  /**
   * Over every run, each backend ever installed counts exactly the requests that hold
   * it, so dropping a guard never takes its counter below zero.
   */
  lemma ActiveCountsInFlight(steps: seq<Step>, s: State, h: Handle)
    requires Runs(INITIAL, steps, s) && h in s.nodes
    ensures s.nodes[h].active == |Holders(s, h)|
    ensures forall r :: r in Holders(s, h) ==> s.nodes[h].active > 0 && s.requests[r].pc != Finished
  {
    ReachableInvariant(steps, s);
    HoldersAreInFlight(s, h);
  }

  lemma HoldersAreInFlight(s: State, h: Handle)
    requires RequestsOk(s) && CountersOk(s) && h in s.nodes
    ensures forall r :: r in Holders(s, h) ==> s.nodes[h].active > 0 && s.requests[r].pc != Finished
  {
    forall r | r in Holders(s, h)
      ensures s.nodes[h].active > 0 && s.requests[r].pc != Finished
    {
      assert RequestOk(s.requests[r]);
      assert |Holders(s, h)| != 0;
    }
  }

  /**
   * Over every run, a backend's breaker and latency are what its recorded outcomes and
   * samples call for, and it has one outcome for each request that reported on it.
   */
  lemma BackendFollowsItsRecord(steps: seq<Step>, s: State, h: Handle, now: nat)
    requires Runs(INITIAL, steps, s) && h in s.nodes
    ensures StateOf(s.nodes[h].failures, s.nodes[h].lastFailureTime, now) == StateFor(s.nodes[h].outcomes, now)
    ensures s.nodes[h].ewma == Peak(s.nodes[h].alpha, s.nodes[h].initial, s.nodes[h].samples)
    ensures |s.nodes[h].outcomes| == |Reporters(s, h)|
  {
    ReachableInvariant(steps, s);
    NodeShowsRecord(s.nodes[h], now);
  }

  lemma NodeShowsRecord(n: Node, now: nat)
    requires NodeOk(n)
    ensures StateOf(n.failures, n.lastFailureTime, now) == StateFor(n.outcomes, now)
  {
    TrippedIffStreak(n.outcomes);
  }

  /**
   * Over every run, selection ends the request exactly when no backend of the current
   * table is fit; otherwise it picks a fit one, and no fit one of the table scores lower.
   */
  lemma SelectionIsSound(steps: seq<Step>, s: State, r: RequestId, now: nat)
    requires Runs(INITIAL, steps, s) && Enabled(s, Select(r, now))
    ensures var q := Apply(s, Select(r, now)).requests[r];
            && (q.pc == Finished <==> forall i :: 0 <= i < |Current(s)| ==> !Fit(s.nodes[Current(s)[i]], now))
            && (q.pc != Finished ==> q.pc == Guarding && q.backend.Some? && BestFit(s, q.backend.value, now))
  {
    ReachableInvariant(steps, s);
    ChoiceIsBest(s, now);
  }

  function Current(s: State): (table: seq<Handle>)
    requires s.tables != []
  {
    s.tables[|s.tables| - 1]
  }

  /** A fit backend of the current table that no fit one of the table outscores. */
  ghost predicate BestFit(s: State, h: Handle, now: nat)
    requires s.tables != [] && Known(s, Current(s))
  {
    && h in Current(s) && Fit(s.nodes[h], now)
    && forall i :: 0 <= i < |Current(s)| && Fit(s.nodes[Current(s)[i]], now) ==>
         ScoreOf(s.nodes[h].ewma, s.nodes[h].active) <=
         ScoreOf(s.nodes[Current(s)[i]].ewma, s.nodes[Current(s)[i]].active)
  }

  /** What makes a backend fit to be chosen, told from its record. */
  ghost predicate Fit(n: Node, now: nat) {
    n.healthy && StateFor(n.outcomes, now) != Open
  }

  lemma ViewIsFit(h: Handle, n: Node, now: nat)
    requires NodeOk(n)
    ensures Eligible(View(h, n, now)) <==> Fit(n, now)
  {
    NodeShowsRecord(n, now);
  }

  lemma ChoiceIsBest(s: State, now: nat)
    requires RequestsOk(s) && OutcomesOk(s) && Known(s, Current(s))
    ensures var choice := SelectBest(Snapshot(s, now));
            && (choice.None? <==> forall i :: 0 <= i < |Current(s)| ==> !Fit(s.nodes[Current(s)[i]], now))
            && (choice.Some? ==> BestFit(s, choice.value.id, now))
  {
    var views := Snapshot(s, now);
    forall i | 0 <= i < |views|
      ensures Eligible(views[i]) <==> Fit(s.nodes[Current(s)[i]], now)
    {
      ViewIsFit(Current(s)[i], s.nodes[Current(s)[i]], now);
    }
    var k := MinByFindsBest(Eligible, Score, views);
    if SelectBest(views).Some? {
      forall i | 0 <= i < |Current(s)| && Fit(s.nodes[Current(s)[i]], now)
        ensures Score(views[k]) <= Score(views[i])
      {
        assert Eligible(views[i]);
      }
    }
  }

  /** Over every run, each connection ever made is idle, leased or discarded, and only one of them, and only once. */
  lemma SenderIsInOnePlace(steps: seq<Step>, s: State, x: Sender)
    requires Runs(INITIAL, steps, s) && x in s.pool.home
    ensures x in s.pool.discarded || Idle(s, x) || exists r :: LeasedTo(s, x, r)
    ensures !(x in s.pool.discarded && Idle(s, x))
    ensures forall r :: LeasedTo(s, x, r) ==> x !in s.pool.discarded && !Idle(s, x)
    ensures forall r, r' :: LeasedTo(s, x, r) && LeasedTo(s, x, r') ==> r == r'
    ensures forall a :: x in QueueOf(s.pool.idle, a) ==> a == s.pool.home[x]
    ensures var queue := QueueOf(s.pool.idle, s.pool.home[x]);
            forall i, j :: 0 <= i < |queue| && 0 <= j < |queue| && queue[i] == x == queue[j] ==> i == j
  {
    ReachableInvariant(steps, s);
  }

  ghost predicate SinceThen(from: State, s: State) {
    && from.tables <= s.tables
    && forall r :: r in from.requests ==>
         && r in s.requests
         && (from.requests[r].backend.Some? ==>
               s.requests[r].backend == from.requests[r].backend && s.requests[r].epoch == from.requests[r].epoch)
  }

  ghost predicate ChosenSince(from: State, s: State) {
    forall r :: r in s.requests && s.requests[r].backend.Some? && (r !in from.requests || from.requests[r].backend.None?) ==>
      s.requests[r].epoch >= |from.tables| - 1
  }

  lemma SwapStep(from: State, s: State, step: Step)
    requires RequestsOk(s) && SinceThen(from, s) && ChosenSince(from, s) && Enabled(s, step)
    ensures SinceThen(from, Apply(s, step)) && ChosenSince(from, Apply(s, step))
  {
    if ByRequest(step) {
      OwnBackend(s, step);
      if step.req in s.requests && s.requests[step.req].backend.Some? {
        BackendStays(s, step);
      }
      CommitSince(from, s, step.req, EffectOf(s, step));
    }
  }

  lemma CommitSince(from: State, s: State, r: RequestId, e: Effect)
    requires SinceThen(from, s) && ChosenSince(from, s)
    requires r in s.requests && s.requests[r].backend.Some? ==>
               e.request.backend == s.requests[r].backend && e.request.epoch == s.requests[r].epoch
    requires r !in s.requests || s.requests[r].backend.None? ==> e.request.backend.Some? ==> e.request.epoch == |s.tables| - 1
    ensures SinceThen(from, Commit(s, r, e)) && ChosenSince(from, Commit(s, r, e))
  {
  }

  lemma BackendStays(s: State, step: Step)
    requires Enabled(s, step) && ByRequest(step) && step.req in s.requests
    requires RequestOk(s.requests[step.req]) && s.requests[step.req].backend.Some?
    ensures EffectOf(s, step).request.backend == s.requests[step.req].backend
    ensures EffectOf(s, step).request.epoch == s.requests[step.req].epoch
  {
  }

  lemma {:induction false} SwapRun(from: State, steps: seq<Step>, s: State)
    requires RequestsOk(from) && Runs(from, steps, s)
    ensures RequestsOk(s) && SinceThen(from, s) && ChosenSince(from, s)
    decreases |steps|
  {
    if steps != [] {
      var last := |steps| - 1;
      var mid :| Runs(from, steps[..last], mid) && Enabled(mid, steps[last]) && s == Apply(mid, steps[last]);
      SwapRun(from, steps[..last], mid);
      RequestsOkStep(mid, steps[last]);
      SwapStep(from, mid, steps[last]);
    }
  }

  /**
   * Tables may be swapped at any time: a request that has its backend keeps it, and a
   * request that chooses later chooses from the table now current or from a later one.
   */
  lemma SwapDrains(before: seq<Step>, from: State, steps: seq<Step>, s: State, r: RequestId)
    requires Runs(INITIAL, before, from) && Runs(from, steps, s)
    requires r in s.requests && s.requests[r].backend.Some?
    ensures r in from.requests && from.requests[r].backend.Some? ==> s.requests[r].backend == from.requests[r].backend
    ensures r !in from.requests || from.requests[r].backend.None? ==>
              exists e :: 0 <= e < |s.tables| && |from.tables| - 1 <= e && s.requests[r].backend.value in s.tables[e]
  {
    ReachableInvariant(before, from);
    SwapRun(from, steps, s);
  }

  /**
   * No request is ever stuck: whatever point it is at, it can take a step of its own, or
   * its push waits for a request in the loop over the same address, which can take one.
   */
  lemma NoRequestIsStuck(steps: seq<Step>, s: State, r: RequestId)
    requires Runs(INITIAL, steps, s) && r in s.requests && s.requests[r].pc != Finished
    ensures exists step :: ByRequest(step) && !step.Cancel? && Enabled(s, step) &&
                           (step.req == r || (At(s, r, Pushing) && HasBackend(s, r) && LoopsAt(s, step.req, NodeOf(s, r).addr)))
  {
    ReachableInvariant(steps, s);
    var step := NextStep(s, r);
  }

  lemma NextStep(s: State, r: RequestId) returns (step: Step)
    requires RequestsOk(s) && r in s.requests && s.requests[r].pc != Finished
    ensures ByRequest(step) && !step.Cancel? && Enabled(s, step)
    ensures step.req != r ==>
              At(s, r, Pushing) && HasBackend(s, r) && step.Pop? && LoopsAt(s, step.req, NodeOf(s, r).addr)
  {
    assert Known(s, s.tables[|s.tables| - 1]) && RequestOk(s.requests[r]);
    assert s.requests[r].backend.Some? ==> HasBackend(s, r);
    match s.requests[r].pc {
      case Checking => step := Pass(r);
      case Selecting => step := Select(r, 0);
      case Guarding => step := TakeGuard(r);
      case Popping => step := Look(r);
      case Looping => step := Pop(r);
      case Probing => step := Probed(r, true);
      case Connecting => step := ConnectFails(r, 0);
      case Preparing => step := Prepared(r, true);
      case Sending => step := SendSucceeds(r);
      case Pushing =>
        if Occupied(s, NodeOf(s, r).addr) {
          var u :| u in s.requests && LoopsAt(s, u, NodeOf(s, r).addr);
          step := Pop(u);
        } else {
          step := Push(r);
        }
      case Returning => step := Enqueue(r);
      case Observing => step := Observe(r, 0.0);
      case _ => step := DropGuard(r);
    }
  }

  // ----- every request finishes

  /** How many points of the program lie before a request at this one. */
  function PointsAfter(pc: Pc): (n: nat) {
    match pc
    case Checking => 13
    case Selecting => 12
    case Guarding => 11
    case Popping => 10
    case Looping => 9
    case Probing => 8
    case Connecting => 7
    case Preparing => 6
    case Sending => 5
    case Pushing => 4
    case Returning => 3
    case Observing => 2
    case Leaving => 1
    case Finished => 0
  }

  function PointsLeft(s: State, r: RequestId): (n: nat) {
    if r !in s.requests then 14 else PointsAfter(s.requests[r].pc)
  }

  /** The request has found the queue of the address and is about to push to it. */
  predicate Returns(s: State, r: RequestId, a: Addr) {
    At(s, r, Returning) && HasBackend(s, r) && NodeOf(s, r).addr == a
  }

  ghost function Returners(s: State, a: Addr): (rs: set<RequestId>) {
    set r | r in s.requests && Returns(s, r, a)
  }

  /** The connections that a request in the loop over the address may still meet. */
  ghost function Supply(s: State, a: Addr): (n: nat) {
    |QueueOf(s.pool.idle, a)| + |Returners(s, a)|
  }

  /** The points before the request and, in the loop, the connections it may still meet. */
  ghost function Left(s: State, r: RequestId): (n: nat) {
    PointsLeft(s, r) + if At(s, r, Looping) && HasBackend(s, r) then Supply(s, NodeOf(s, r).addr) else 0
  }

  predicate IsOwn(step: Step, r: RequestId) {
    ByRequest(step) && step.req == r
  }

  ghost function OwnSteps(steps: seq<Step>, r: RequestId): (n: nat) {
    if steps == [] then 0
    else
      var last := |steps| - 1;
      OwnSteps(steps[..last], r) + (if IsOwn(steps[last], r) then 1 else 0)
  }

  /** A request's own step passes a point, or stays in the loop and shortens the queue. */
  lemma OwnPoint(s: State, step: Step)
    requires Enabled(s, step) && ByRequest(step)
    ensures PointsAfter(EffectOf(s, step).request.pc) < PointsLeft(s, step.req) || EffectOf(s, step).move.DropOldest?
    ensures EffectOf(s, step).move.DropOldest? ==>
              && At(s, step.req, Looping) && EffectOf(s, step).request.pc == Looping
              && HasBackend(s, step.req) && EffectOf(s, step).move.addr == NodeOf(s, step.req).addr
              && QueueOf(s.pool.idle, EffectOf(s, step).move.addr) != []
  {
  }

  /** No step moves a backend to another address or takes a request's backend away. */
  lemma AddressStays(s: State, step: Step, r: RequestId)
    requires RequestsOk(s) && HasBackend(s, r) && Enabled(s, step)
    ensures HasBackend(Apply(s, step), r) && NodeOf(Apply(s, step), r).addr == NodeOf(s, r).addr
  {
    if ByRequest(step) {
      OwnMove(s, step);
      if step.req == r {
        BackendStays(s, step);
      }
    }
  }

  lemma OthersReturn(s: State, step: Step, r: RequestId, a: Addr)
    requires RequestsOk(s) && Enabled(s, step) && !IsOwn(step, r)
    ensures Returns(Apply(s, step), r, a) <==> Returns(s, r, a)
  {
    if At(s, r, Returning) {
      assert RequestOk(s.requests[r]) && HasBackend(s, r);
      AddressStays(s, step, r);
    }
  }

  lemma ReturnersAfter(s: State, step: Step, a: Addr)
    requires RequestsOk(s) && Enabled(s, step)
    ensures var t := Apply(s, step);
            if ByRequest(step) && Returns(t, step.req, a) then Returners(t, a) == Returners(s, a) + {step.req}
            else if ByRequest(step) then Returners(t, a) == Returners(s, a) - {step.req}
            else Returners(t, a) == Returners(s, a)
  {
    var t := Apply(s, step);
    forall r | !IsOwn(step, r)
      ensures r in Returners(t, a) <==> r in Returners(s, a)
    {
      OthersReturn(s, step, r, a);
    }
    assert forall r :: IsOwn(step, r) ==> r == step.req;
  }

  lemma QueueAfter(s: State, step: Step, a: Addr)
    requires Enabled(s, step)
    ensures |QueueOf(Apply(s, step).pool.idle, a)| <=
            |QueueOf(s.pool.idle, a)| + if step.Enqueue? && Returns(s, step.req, a) then 1 else 0
    ensures step.Pop? && LoopsAt(s, step.req, a) && QueueOf(s.pool.idle, a) != [] ==>
              |QueueOf(Apply(s, step).pool.idle, a)| < |QueueOf(s.pool.idle, a)|
  {
  }

  /** While a request is in the loop over an address, the connections it may meet become no more. */
  lemma SupplyStep(s: State, step: Step, a: Addr)
    requires RequestsOk(s) && Enabled(s, step) && Occupied(s, a)
    ensures Supply(Apply(s, step), a) <= Supply(s, a)
    ensures step.Pop? && LoopsAt(s, step.req, a) && QueueOf(s.pool.idle, a) != [] ==> Supply(Apply(s, step), a) < Supply(s, a)
  {
    QueueAfter(s, step, a);
    ReturnersAfter(s, step, a);
    if ByRequest(step) {
      NoNewReturner(s, step, a);
      assert step.Enqueue? && Returns(s, step.req, a) ==> step.req in Returners(s, a);
    }
  }

  /** A request that finds the queue finds it outside every loop over it. */
  lemma NoNewReturner(s: State, step: Step, a: Addr)
    requires RequestsOk(s) && Enabled(s, step) && Occupied(s, a) && ByRequest(step)
    ensures !Returns(Apply(s, step), step.req, a)
  {
    if step.Push? {
      AddressStays(s, step, step.req);
    }
  }

  /** The request is in the loop or beyond it. */
  predicate Entered(s: State, r: RequestId) {
    r in s.requests && PointsLeft(s, r) <= PointsAfter(Looping)
  }

  lemma OwnStepLowers(s: State, step: Step, r: RequestId)
    requires RequestsOk(s) && Enabled(s, step) && IsOwn(step, r) && Entered(s, r)
    ensures Entered(Apply(s, step), r) && Left(Apply(s, step), r) < Left(s, r)
  {
    OwnPoint(s, step);
    if EffectOf(s, step).move.DropOldest? {
      AddressStays(s, step, r);
      assert LoopsAt(s, r, NodeOf(s, r).addr);
      SupplyStep(s, step, NodeOf(s, r).addr);
    }
  }

  lemma OtherStepKeeps(s: State, step: Step, r: RequestId)
    requires RequestsOk(s) && Enabled(s, step) && !IsOwn(step, r) && r in s.requests
    ensures r in Apply(s, step).requests && Apply(s, step).requests[r] == s.requests[r]
    ensures Left(Apply(s, step), r) <= Left(s, r)
  {
    if At(s, r, Looping) {
      assert RequestOk(s.requests[r]) && HasBackend(s, r);
      AddressStays(s, step, r);
      assert LoopsAt(s, r, NodeOf(s, r).addr);
      SupplyStep(s, step, NodeOf(s, r).addr);
    }
  }

  lemma StepLowers(s: State, step: Step, r: RequestId)
    requires RequestsOk(s) && Enabled(s, step) && Entered(s, r)
    ensures Entered(Apply(s, step), r) && Left(Apply(s, step), r) + (if IsOwn(step, r) then 1 else 0) <= Left(s, r)
  {
    if IsOwn(step, r) {
      OwnStepLowers(s, step, r);
    } else {
      OtherStepKeeps(s, step, r);
    }
  }

  /** Before the loop every own step passes a point. */
  lemma StepPassesPoint(s: State, step: Step, r: RequestId)
    requires Enabled(s, step) && !Entered(Apply(s, step), r)
    ensures !Entered(s, r) && PointsLeft(Apply(s, step), r) + (if IsOwn(step, r) then 1 else 0) <= PointsLeft(s, r)
  {
    if IsOwn(step, r) {
      OwnPoint(s, step);
    }
  }

  /** A request that has not come to the loop has taken no more steps than it has passed points. */
  lemma {:induction false} FewStepsBeforeLoop(steps: seq<Step>, s: State, r: RequestId)
    requires Runs(INITIAL, steps, s) && !Entered(s, r)
    ensures OwnSteps(steps, r) + PointsLeft(s, r) <= 14
    decreases |steps|
  {
    if steps != [] {
      var last := |steps| - 1;
      var mid :| Runs(INITIAL, steps[..last], mid) && Enabled(mid, steps[last]) && s == Apply(mid, steps[last]);
      StepPassesPoint(mid, steps[last], r);
      FewStepsBeforeLoop(steps[..last], mid, r);
    }
  }

  lemma {:induction false} BoundedRun(from: State, steps: seq<Step>, to: State, r: RequestId)
    requires RequestsOk(from) && Entered(from, r) && Runs(from, steps, to)
    ensures RequestsOk(to) && Entered(to, r) && OwnSteps(steps, r) + Left(to, r) <= Left(from, r)
    decreases |steps|
  {
    if steps != [] {
      var last := |steps| - 1;
      var mid :| Runs(from, steps[..last], mid) && Enabled(mid, steps[last]) && to == Apply(mid, steps[last]);
      BoundedRun(from, steps[..last], mid, r);
      RequestsOkStep(mid, steps[last]);
      StepLowers(mid, steps[last], r);
    }
  }

  /**
   * From the loop on, whatever the other requests do, a request finishes within as many
   * steps of its own as there are points before it and, in the loop, connections that
   * are idle or about to be.
   */
  lemma OwnStepsAreBounded(before: seq<Step>, from: State, steps: seq<Step>, to: State, r: RequestId)
    requires Runs(INITIAL, before, from) && Entered(from, r) && Runs(from, steps, to)
    ensures Entered(to, r) && OwnSteps(steps, r) + Left(to, r) <= Left(from, r)
    ensures OwnSteps(steps, r) >= Left(from, r) ==> At(to, r, Finished)
  {
    ReachableInvariant(before, from);
    BoundedRun(from, steps, to, r);
  }

  // ----- runs without end

  /** The n-th step leads from the n-th state to the next. */
  ghost predicate Follows(states: nat -> State, steps: nat -> Step, n: nat) {
    Enabled(states(n), steps(n)) && states(n + 1) == Apply(states(n), steps(n))
  }

  ghost predicate Endless(states: nat -> State, steps: nat -> Step) {
    states(0) == INITIAL && forall n: nat :: Follows(states, steps, n)
  }

  /** The number of own steps among the first n. */
  ghost function OwnAmong(steps: nat -> Step, n: nat, r: RequestId): (k: nat) {
    if n == 0 then 0 else OwnAmong(steps, n - 1, r) + if IsOwn(steps(n - 1), r) then 1 else 0
  }

  lemma {:induction false} EndlessOk(states: nat -> State, steps: nat -> Step, n: nat)
    requires Endless(states, steps)
    ensures RequestsOk(states(n))
  {
    if n > 0 {
      EndlessOk(states, steps, n - 1);
      assert Follows(states, steps, n - 1);
      RequestsOkStep(states(n - 1), steps(n - 1));
    }
  }

  lemma EndlessLowers(states: nat -> State, steps: nat -> Step, n: nat, r: RequestId)
    requires Endless(states, steps) && Entered(states(n), r)
    ensures Entered(states(n + 1), r) && Left(states(n + 1), r) + (if IsOwn(steps(n), r) then 1 else 0) <= Left(states(n), r)
  {
    EndlessOk(states, steps, n);
    assert Follows(states, steps, n);
    StepLowers(states(n), steps(n), r);
  }

  lemma {:induction false} BoundedSince(states: nat -> State, steps: nat -> Step, k: nat, n: nat, r: RequestId)
    requires Endless(states, steps) && Entered(states(k), r) && k <= n
    ensures Entered(states(n), r) && OwnAmong(steps, n, r) + Left(states(n), r) <= OwnAmong(steps, k, r) + Left(states(k), r)
    decreases n
  {
    if k < n {
      BoundedSince(states, steps, k, n - 1, r);
      EndlessLowers(states, steps, n - 1, r);
    }
  }

  lemma {:induction false} OwnAmongGrows(steps: nat -> Step, m: nat, n: nat, r: RequestId)
    requires m <= n
    ensures OwnAmong(steps, m, r) <= OwnAmong(steps, n, r)
    decreases n
  {
    if m < n {
      OwnAmongGrows(steps, m, n - 1, r);
    }
  }

  lemma {:induction false} BoundedBefore(states: nat -> State, steps: nat -> Step, n: nat, r: RequestId)
    requires Endless(states, steps) && !Entered(states(n), r)
    ensures OwnAmong(steps, n, r) + PointsLeft(states(n), r) <= 14
    decreases n
  {
    if n > 0 {
      assert Follows(states, steps, n - 1);
      StepPassesPoint(states(n - 1), steps(n - 1), r);
      BoundedBefore(states, steps, n - 1, r);
    }
  }

  /** In no run without end does a request take steps without end. */
  lemma NoRequestGoesOnForever(states: nat -> State, steps: nat -> Step, r: RequestId) returns (bound: nat)
    requires Endless(states, steps)
    ensures forall n: nat :: OwnAmong(steps, n, r) <= bound
  {
    if k: nat :| Entered(states(k), r) {
      bound := OwnAmong(steps, k, r) + Left(states(k), r);
      forall n: nat ensures OwnAmong(steps, n, r) <= bound {
        if n <= k {
          OwnAmongGrows(steps, n, k, r);
        } else {
          BoundedSince(states, steps, k, n, r);
        }
      }
    } else {
      bound := 14;
      forall n: nat ensures OwnAmong(steps, n, r) <= bound {
        BoundedBefore(states, steps, n, r);
      }
    }
  }

  // ----- and none can be kept from finishing

  ghost function Loopers(s: State, a: Addr): (rs: set<RequestId>) {
    set r | r in s.requests && LoopsAt(s, r, a)
  }

  ghost function Waiting(s: State, a: Addr): (n: nat) {
    |Loopers(s, a)| + |QueueOf(s.pool.idle, a)|
  }

  /** Each turn of a loop shortens the queue or ends the loop. */
  lemma TurnShortens(s: State, r: RequestId, a: Addr)
    requires RequestsOk(s) && LoopsAt(s, r, a)
    ensures Enabled(s, Pop(r)) && Waiting(Apply(s, Pop(r)), a) < Waiting(s, a)
  {
    var t := Apply(s, Pop(r));
    QueueAfter(s, Pop(r), a);
    LoopersAfter(s, r, EffectOf(s, Pop(r)), a);
    assert r in Loopers(s, a);
  }

  lemma LoopersAfter(s: State, r: RequestId, e: Effect, a: Addr)
    requires LoopsAt(s, r, a) && e.node.None? && e.request.backend == s.requests[r].backend
    ensures Loopers(Commit(s, r, e), a) == if e.request.pc == Looping then Loopers(s, a) else Loopers(s, a) - {r}
  {
  }

  lemma StepAdvances(s: State, r: RequestId, step: Step)
    requires RequestsOk(s) && r in s.requests && ByRequest(step) && Enabled(s, step)
    requires step.req != r ==>
               At(s, r, Pushing) && HasBackend(s, r) && step.Pop? && LoopsAt(s, step.req, NodeOf(s, r).addr)
    ensures r in Apply(s, step).requests
    ensures || PointsLeft(Apply(s, step), r) < PointsLeft(s, r)
            || (&& HasBackend(s, r) && HasBackend(Apply(s, step), r) && NodeOf(Apply(s, step), r).addr == NodeOf(s, r).addr
                && PointsLeft(Apply(s, step), r) == PointsLeft(s, r)
                && Waiting(Apply(s, step), NodeOf(s, r).addr) < Waiting(s, NodeOf(s, r).addr))
  {
    OwnPoint(s, step);
    if HasBackend(s, r) {
      AddressStays(s, step, r);
      if step.req != r || EffectOf(s, step).move.DropOldest? {
        assert step == Pop(step.req);
        TurnShortens(s, step.req, NodeOf(s, r).addr);
      }
    }
  }

  /** Own steps other than giving up, and turns of other requests' loops. */
  ghost predicate Undisturbed(steps: seq<Step>, r: RequestId) {
    forall i :: 0 <= i < |steps| ==> !steps[i].Cancel? && (IsOwn(steps[i], r) || steps[i].Pop?)
  }

  lemma {:induction false} CanFinish(from: State, done: seq<Step>, s: State, r: RequestId) returns (steps: seq<Step>, to: State)
    requires RequestsOk(s) && r in s.requests && Runs(from, done, s) && Undisturbed(done, r)
    ensures Runs(from, steps, to) && Undisturbed(steps, r) && At(to, r, Finished)
    decreases PointsLeft(s, r), if HasBackend(s, r) then Waiting(s, NodeOf(s, r).addr) else 0
  {
    if At(s, r, Finished) {
      steps, to := done, s;
    } else {
      var step := NextStep(s, r);
      StepAdvances(s, r, step);
      RequestsOkStep(s, step);
      OneMore(from, done, s, step);
      steps, to := CanFinish(from, done + [step], Apply(s, step), r);
    }
  }

  /**
   * From every state of every run, each request that has arrived can finish without
   * being cancelled, by its own steps and turns of the loop that others are in.
   */
  lemma EveryRequestCanFinish(before: seq<Step>, from: State, r: RequestId) returns (steps: seq<Step>, to: State)
    requires Runs(INITIAL, before, from) && r in from.requests
    ensures Runs(from, steps, to) && Undisturbed(steps, r) && At(to, r, Finished)
  {
    ReachableInvariant(before, from);
    steps, to := CanFinish(from, [], from, r);
  }
}
