/**
 * Runs of the ban manager together with the states they pass through, so that what a
 * step finds can be told from what earlier steps did.
 */
module BanTraces {
  import opened BanManager
  import opened BanManagerConcurrent

  ghost predicate StepAt(shardOf: Ip -> nat, steps: seq<Step>, states: seq<State>, i: int) {
    && 0 <= i < |steps| && i + 1 < |states|
    && Enabled(shardOf, states[i], steps[i]) && states[i + 1] == Apply(shardOf, states[i], steps[i])
  }

  /** States[i] is the state before step i. */
  ghost predicate Trace(shardOf: Ip -> nat, steps: seq<Step>, states: seq<State>) {
    && |states| == |steps| + 1 && states[0] == INITIAL
    && forall i :: 0 <= i < |steps| ==> StepAt(shardOf, steps, states, i)
  }

  lemma {:induction false} TraceRuns(shardOf: Ip -> nat, steps: seq<Step>, states: seq<State>, n: nat)
    requires Trace(shardOf, steps, states) && n <= |steps|
    ensures Runs(shardOf, INITIAL, steps[..n], states[n])
  {
    if n > 0 {
      TraceRuns(shardOf, steps, states, n - 1);
      assert StepAt(shardOf, steps, states, n - 1);
      var more := Play(shardOf, steps[..n - 1], states[n - 1], steps[n - 1], states[n]);
      assert more == steps[..n];
    }
  }

  /** Every run has its states. */
  lemma {:induction false} RunHasTrace(shardOf: Ip -> nat, steps: seq<Step>, s: State) returns (states: seq<State>)
    requires Runs(shardOf, INITIAL, steps, s)
    ensures Trace(shardOf, steps, states) && states[|steps|] == s
    decreases |steps|
  {
    if steps == [] {
      states := [INITIAL];
    } else {
      var last := |steps| - 1;
      var mid :| Runs(shardOf, INITIAL, steps[..last], mid) && Enabled(shardOf, mid, steps[last]) &&
                 s == Apply(shardOf, mid, steps[last]);
      var before := RunHasTrace(shardOf, steps[..last], mid);
      states := before + [s];
      forall i | 0 <= i < |steps|
        ensures StepAt(shardOf, steps, states, i)
      {
        assert i < last ==> StepAt(shardOf, steps[..last], before, i);
      }
    }
  }

  // ----- what a ban stores

  /** No ban with this task number begins at steps i, ..., n - 1. */
  ghost predicate NotBegun(steps: seq<Step>, t: TaskId, i: int, n: int) {
    forall m :: 0 <= i <= m < n <= |steps| ==> !(steps[m].StartBan? && steps[m].task == t)
  }

  lemma {:induction false} StillToRead(
    shardOf: Ip -> nat, steps: seq<Step>, states: seq<State>, t: TaskId, ip: Ip, d: nat, i: nat, n: nat)
    requires Trace(shardOf, steps, states) && i < n <= |steps|
    requires steps[i] == StartBan(t, ip, d) && NotBegun(steps, t, i + 1, n)
    ensures t in states[n].bans ==>
              states[n].bans[t].ip == ip && (!states[n].bans[t].Inserting? ==> states[n].bans[t].duration == d)
    decreases n
  {
    assert StepAt(shardOf, steps, states, n - 1);
    if n > i + 1 {
      StillToRead(shardOf, steps, states, t, ip, d, i, n - 1);
    }
  }

  lemma {:induction false} StillToInsert(
    shardOf: Ip -> nat, steps: seq<Step>, states: seq<State>, t: TaskId, ban: Ban, j: nat, n: nat)
    requires Trace(shardOf, steps, states) && j <= n <= |steps| && NotBegun(steps, t, j, n)
    requires t in states[j].bans && states[j].bans[t] == ban && ban.Inserting?
    ensures t in states[n].bans ==> states[n].bans[t] == ban
    decreases n
  {
    if n > j {
      assert StepAt(shardOf, steps, states, n - 1);
      StillToInsert(shardOf, steps, states, t, ban, j, n - 1);
    }
  }

  /** The ban begun at step i by task t reads the clock at step j and is inserted at step k. */
  ghost predicate BanAt(steps: seq<Step>, t: TaskId, ip: Ip, d: nat, i: int, j: int, k: int) {
    && 0 <= i < j < k < |steps| && NotBegun(steps, t, i + 1, k)
    && steps[i] == StartBan(t, ip, d) && steps[j] == ReadClock(t) && steps[k] == Insert(t)
  }

  /** In every run, a ban's insert leaves the entry that ends its length after its own clock reading. */
  lemma BanStoresItsEnd(
    shardOf: Ip -> nat, steps: seq<Step>, states: seq<State>, t: TaskId, ip: Ip, d: nat, i: nat, j: nat, k: nat)
    requires Trace(shardOf, steps, states) && BanAt(steps, t, ip, d, i, j, k)
    ensures states[k + 1].banned == states[k].banned[ip := states[j].clock + d]
  {
    StillToRead(shardOf, steps, states, t, ip, d, i, j);
    assert StepAt(shardOf, steps, states, j);
    StillToInsert(shardOf, steps, states, t, Inserting(ip, states[j].clock + d), j + 1, k);
    assert StepAt(shardOf, steps, states, k);
  }

  // ----- how long it lasts

  ghost predicate NotOverwritten(steps: seq<Step>, states: seq<State>, ip: Ip, i: int, n: int) {
    |states| == |steps| + 1 && forall m :: 0 <= i <= m < n <= |steps| ==> !Overwrites(states[m], steps[m], ip)
  }

  lemma {:induction false} SuffixRuns(shardOf: Ip -> nat, steps: seq<Step>, states: seq<State>, ip: Ip, i: nat, n: nat)
    requires Trace(shardOf, steps, states) && i <= n <= |steps| && NotOverwritten(steps, states, ip, i, n)
    ensures RunsWithoutInsert(shardOf, states[i], steps[i..n], states[n], ip)
    decreases n
  {
    if n > i {
      SuffixRuns(shardOf, steps, states, ip, i, n - 1);
      assert StepAt(shardOf, steps, states, n - 1) && !Overwrites(states[n - 1], steps[n - 1], ip);
      assert steps[i..n][..n - 1 - i] == steps[i..n - 1] && steps[i..n][n - 1 - i] == steps[n - 1];
    }
  }

  lemma {:induction false} ChecksGrow(shardOf: Ip -> nat, steps: seq<Step>, states: seq<State>, i: nat, n: nat)
    requires Trace(shardOf, steps, states) && i <= n <= |steps|
    ensures states[i].checks.Keys <= states[n].checks.Keys
    decreases n
  {
    if n > i {
      ChecksGrow(shardOf, steps, states, i, n - 1);
      assert StepAt(shardOf, steps, states, n - 1);
    }
  }

  /**
   * In every run, from a ban's insert until the ban ends, its entry stands and every
   * check begun in that time and answered answers that the address is banned, unless
   * another ban of the address inserts its own entry.
   */
  lemma BanLasts(
    shardOf: Ip -> nat, steps: seq<Step>, states: seq<State>, t: TaskId, ip: Ip, d: nat, i: nat, j: nat, k: nat, n: nat)
    requires Trace(shardOf, steps, states) && BanAt(steps, t, ip, d, i, j, k) && k < n <= |steps|
    requires NotOverwritten(steps, states, ip, k + 1, n) && states[n].clock < states[j].clock + d
    ensures ip in states[n].banned && states[n].banned[ip] == states[j].clock + d
    ensures forall m, u :: k < m < n && steps[m] == StartCheck(u, ip) && u in states[n].checks && states[n].checks[u].Answered? ==>
              states[n].checks[u].answer
  {
    BanStoresItsEnd(shardOf, steps, states, t, ip, d, i, j, k);
    TraceRuns(shardOf, steps, states, k + 1);
    SuffixRuns(shardOf, steps, states, ip, k + 1, n);
    InsertedBanLasts(shardOf, steps[..k + 1], states[k + 1], steps[k + 1..n], states[n], ip, 0);
    forall m, u | k < m < n && steps[m] == StartCheck(u, ip) && u in states[n].checks && states[n].checks[u].Answered?
      ensures states[n].checks[u].answer
    {
      CheckIsNew(shardOf, steps, states, u, ip, k + 1, m, n);
      InsertedBanLasts(shardOf, steps[..k + 1], states[k + 1], steps[k + 1..n], states[n], ip, u);
    }
  }

  lemma CheckIsNew(shardOf: Ip -> nat, steps: seq<Step>, states: seq<State>, u: TaskId, ip: Ip, k: nat, m: nat, n: nat)
    requires Trace(shardOf, steps, states) && k <= m < n <= |steps| && steps[m] == StartCheck(u, ip)
    ensures u !in states[k].checks && u in states[n].checks && states[n].checks[u].ip == ip
  {
    assert StepAt(shardOf, steps, states, m);
    ChecksGrow(shardOf, steps, states, k, m);
    CheckKeepsAddress(shardOf, steps, states, u, ip, m, n);
  }

  lemma {:induction false} CheckKeepsAddress(
    shardOf: Ip -> nat, steps: seq<Step>, states: seq<State>, u: TaskId, ip: Ip, m: nat, n: nat)
    requires Trace(shardOf, steps, states) && m < n <= |steps| && steps[m] == StartCheck(u, ip)
    ensures u in states[n].checks && states[n].checks[u].ip == ip
    decreases n
  {
    assert StepAt(shardOf, steps, states, n - 1);
    if n > m + 1 {
      CheckKeepsAddress(shardOf, steps, states, u, ip, m, n - 1);
    }
  }

  // ----- why a check answers as it does

  /** Step a, before n, asked the kernel for check u, and it did or did not block the address. */
  ghost predicate AskedAt(steps: seq<Step>, states: seq<State>, u: TaskId, ip: Ip, a: int, n: int, blocked: bool) {
    0 <= a < n <= |steps| < |states| && steps[a] == AskKernel(u) && blocked == (ip in states[a].kernel)
  }

  /** Step m, before n, read the map for check u, after the kernel had not blocked the address. */
  ghost predicate ReadAt(steps: seq<Step>, states: seq<State>, u: TaskId, ip: Ip, m: int, n: int) {
    0 <= m < n <= |steps| < |states| && steps[m] == ReadMap(u) && exists a :: AskedAt(steps, states, u, ip, a, m, false)
  }

  /** Step c, before n, compared the entry found at step m with the clock. */
  ghost predicate ComparedAt(steps: seq<Step>, states: seq<State>, u: TaskId, ip: Ip, m: int, c: int, n: int, answer: bool) {
    && 0 <= c < n <= |steps| < |states| && steps[c] == Compare(u)
    && ReadAt(steps, states, u, ip, m, c) && ip in states[m].banned
    && answer == (states[m].banned[ip] > states[c].clock)
  }

  ghost predicate Explained(steps: seq<Step>, states: seq<State>, n: int, u: TaskId, check: Check) {
    var ip := check.ip;
    match check
    case AskingKernel(_) => true
    case ReadingMap(_) => exists a :: AskedAt(steps, states, u, ip, a, n, false)
    case Comparing(_, e) => exists m :: ReadAt(steps, states, u, ip, m, n) && ip in states[m].banned && states[m].banned[ip] == e
    case Answered(_, answer) =>
      || (answer && exists a :: AskedAt(steps, states, u, ip, a, n, true))
      || (!answer && exists m :: ReadAt(steps, states, u, ip, m, n) && ip !in states[m].banned)
      || (exists m, c :: ComparedAt(steps, states, u, ip, m, c, n, answer))
  }

  lemma ExplainedLater(steps: seq<Step>, states: seq<State>, n: nat, u: TaskId, check: Check)
    requires n < |steps| < |states| && Explained(steps, states, n, u, check)
    ensures Explained(steps, states, n + 1, u, check)
  {
    var ip := check.ip;
    forall a, blocked | AskedAt(steps, states, u, ip, a, n, blocked)
      ensures AskedAt(steps, states, u, ip, a, n + 1, blocked)
    {
    }
    forall m | ReadAt(steps, states, u, ip, m, n)
      ensures ReadAt(steps, states, u, ip, m, n + 1)
    {
    }
    forall m, c, answer | ComparedAt(steps, states, u, ip, m, c, n, answer)
      ensures ComparedAt(steps, states, u, ip, m, c, n + 1, answer)
    {
    }
  }

  lemma OwnCheckExplained(shardOf: Ip -> nat, steps: seq<Step>, states: seq<State>, n: nat, u: TaskId)
    requires StepAt(shardOf, steps, states, n) && |steps| < |states| && u in states[n].checks
    requires Explained(steps, states, n, u, states[n].checks[u])
    requires steps[n] == AskKernel(u) || steps[n] == ReadMap(u) || steps[n] == Compare(u)
    ensures u in states[n + 1].checks && Explained(steps, states, n + 1, u, states[n + 1].checks[u])
  {
    var ip := states[n].checks[u].ip;
    match steps[n] {
      case AskKernel(_) =>
        assert AskedAt(steps, states, u, ip, n, n + 1, ip in states[n].kernel);
      case ReadMap(_) =>
        assert ReadAt(steps, states, u, ip, n, n + 1);
      case Compare(_) =>
        var m :| ReadAt(steps, states, u, ip, m, n) && ip in states[m].banned &&
                 states[m].banned[ip] == states[n].checks[u].expiry;
        assert ComparedAt(steps, states, u, ip, m, n, n + 1, states[m].banned[ip] > states[n].clock);
    }
  }

  /**
   * In every run, a check answers true if the kernel blocked the address when asked;
   * otherwise it answers whether the entry it then read, if any, ended after the moment
   * at which it looked at the clock.
   */
  lemma {:induction false} CheckIsExplained(shardOf: Ip -> nat, steps: seq<Step>, states: seq<State>, n: nat, u: TaskId)
    requires Trace(shardOf, steps, states) && n <= |steps| && u in states[n].checks
    ensures Explained(steps, states, n, u, states[n].checks[u])
  {
    if n > 0 {
      assert StepAt(shardOf, steps, states, n - 1);
      if u in states[n - 1].checks {
        CheckIsExplained(shardOf, steps, states, n - 1, u);
        if steps[n - 1] == AskKernel(u) || steps[n - 1] == ReadMap(u) || steps[n - 1] == Compare(u) {
          OwnCheckExplained(shardOf, steps, states, n - 1, u);
        } else {
          ExplainedLater(steps, states, n - 1, u, states[n - 1].checks[u]);
        }
      }
    }
  }

  // ----- alone, the calls act as in the sequential manager

  lemma Play(shardOf: Ip -> nat, steps: seq<Step>, s: State, step: Step, t: State) returns (more: seq<Step>)
    requires Runs(shardOf, INITIAL, steps, s) && Enabled(shardOf, s, step) && Apply(shardOf, s, step) == t
    ensures more == steps + [step] && Runs(shardOf, INITIAL, more, t)
  {
    more := steps + [step];
    assert more[..|steps|] == steps;
  }

  lemma BlocksAlone(shardOf: Ip -> nat, steps: seq<Step>, s: State, t: TaskId, ip: Ip, d: nat) returns (more: seq<Step>)
    requires Runs(shardOf, INITIAL, steps, s) && t !in s.bans
    ensures more == steps + [StartBan(t, ip, d)] + [Block(t, true)]
    ensures Runs(shardOf, INITIAL, more, s.(kernel := s.kernel + {ip}, bans := s.bans[t := ReadingClock(ip, d)]))
  {
    var mid := s.(bans := s.bans[t := Blocking(ip, d)]);
    more := Play(shardOf, steps, s, StartBan(t, ip, d), mid);
    assert mid.bans[t := ReadingClock(ip, d)] == s.bans[t := ReadingClock(ip, d)];
    more := Play(shardOf, more, mid, Block(t, true),
                 s.(kernel := s.kernel + {ip}, bans := s.bans[t := ReadingClock(ip, d)]));
  }

  lemma InsertsAlone(shardOf: Ip -> nat, steps: seq<Step>, s: State, t: TaskId, ip: Ip, d: nat) returns (more: seq<Step>)
    requires Runs(shardOf, INITIAL, steps, s) && t in s.bans && s.bans[t] == ReadingClock(ip, d) && !Locked(s, shardOf(ip))
    ensures more == steps + [ReadClock(t)] + [Insert(t)]
    ensures Runs(shardOf, INITIAL, more, s.(bans := s.bans - {t}, banned := s.banned[ip := s.clock + d]))
  {
    var mid := s.(bans := s.bans[t := Inserting(ip, s.clock + d)]);
    more := Play(shardOf, steps, s, ReadClock(t), mid);
    assert mid.bans - {t} == s.bans - {t};
    more := Play(shardOf, more, mid, Insert(t), s.(bans := s.bans - {t}, banned := s.banned[ip := s.clock + d]));
  }

  /** From every state that does not lock the address, a ban alone can block it and leave its entry. */
  lemma BanAlone(shardOf: Ip -> nat, steps: seq<Step>, s: State, t: TaskId, ip: Ip, d: nat) returns (more: seq<Step>)
    requires Runs(shardOf, INITIAL, steps, s) && t !in s.bans && !Locked(s, shardOf(ip))
    ensures more == steps + [StartBan(t, ip, d)] + [Block(t, true)] + [ReadClock(t)] + [Insert(t)]
    ensures Runs(shardOf, INITIAL, more, s.(kernel := s.kernel + {ip}, banned := s.banned[ip := s.clock + d]))
  {
    more := BlocksAlone(shardOf, steps, s, t, ip, d);
    var mid := s.(kernel := s.kernel + {ip}, bans := s.bans[t := ReadingClock(ip, d)]);
    more := InsertsAlone(shardOf, more, mid, t, ip, d);
    assert mid.bans - {t} == s.bans;
  }

  /** The sweeper's own steps. */
  predicate Sweeps(step: Step) {
    step.Tick? || step.Lock? || step.Unblock? || step.Remove? || step.Unlock? || step.Sleep?
  }

  ghost predicate OnlySweeps(steps: seq<Step>) {
    forall i :: 0 <= i < |steps| ==> Sweeps(steps[i])
  }

  lemma UnlocksAndSleeps(shardOf: Ip -> nat, steps: seq<Step>, s: State) returns (more: seq<Step>)
    requires Runs(shardOf, INITIAL, steps, s) && s.sweeper.Holding?
    ensures more == [Unlock, Sleep] && Runs(shardOf, INITIAL, steps + more, s.(sweeper := Asleep))
  {
    var all := Play(shardOf, steps, s, Unlock, s.(sweeper := Ticked(s.sweeper.now)));
    all := Play(shardOf, all, s.(sweeper := Ticked(s.sweeper.now)), Sleep, s.(sweeper := Asleep));
    more := [Unlock, Sleep];
    assert steps + more == all;
  }

  lemma RemovesAndSleeps(shardOf: Ip -> nat, steps: seq<Step>, s: State) returns (more: seq<Step>)
    requires Runs(shardOf, INITIAL, steps, s) && s.sweeper.Removing?
    ensures more == [Remove] + [Unlock, Sleep]
    ensures Runs(shardOf, INITIAL, steps + more, s.(sweeper := Asleep, banned := s.banned - {s.sweeper.ip}))
  {
    var mid := s.(banned := s.banned - {s.sweeper.ip}, sweeper := Holding(s.sweeper.now, s.sweeper.shard));
    var all := Play(shardOf, steps, s, Remove, mid);
    more := UnlocksAndSleeps(shardOf, all, mid);
    assert all + more == steps + ([Remove] + more);
    more := [Remove] + more;
  }

  /** What is left of the map when the sweeper has ended its sweep. */
  ghost function Rested(s: State): (t: State) {
    s.(sweeper := Asleep, banned := if s.sweeper.Removing? then s.banned - {s.sweeper.ip} else s.banned)
  }

  lemma SweepKeepsLiveBans(shardOf: Ip -> nat, steps: seq<Step>, s: State, ip: Ip)
    requires Runs(shardOf, INITIAL, steps, s) && ip in s.banned
    ensures ip in Rested(s).banned ==> Rested(s).banned[ip] == s.banned[ip]
    ensures ip !in Rested(s).banned ==> Pending(s, ip) || ip !in s.kernel
    ensures forall other :: other in s.banned && s.banned[other] > s.clock ==> other in Rested(s).banned
  {
    ReachableInvariant(shardOf, steps, s);
  }

  /** From every state the sweeper can end its sweep by its own steps. */
  lemma SweeperCanSleep(shardOf: Ip -> nat, steps: seq<Step>, s: State) returns (more: seq<Step>)
    requires Runs(shardOf, INITIAL, steps, s)
    ensures Runs(shardOf, INITIAL, steps + more, Rested(s)) && OnlySweeps(more)
  {
    match s.sweeper {
      case Asleep =>
        more := [];
        assert steps + more == steps;
      case Ticked(_) =>
        var all := Play(shardOf, steps, s, Sleep, s.(sweeper := Asleep));
        more := [Sleep];
      case Holding(_, _) => more := UnlocksAndSleeps(shardOf, steps, s);
      case Removing(_, _, _) => more := RemovesAndSleeps(shardOf, steps, s);
    }
  }

  lemma LiftsEnded(shardOf: Ip -> nat, steps: seq<Step>, s: State, ip: Ip) returns (more: seq<Step>)
    requires Runs(shardOf, INITIAL, steps, s) && s.sweeper.Asleep? && ip in s.banned && s.banned[ip] <= s.clock
    ensures more == [Tick, Lock(shardOf(ip)), Unblock(ip, true)]
    ensures Runs(shardOf, INITIAL, steps + more, s.(kernel := s.kernel - {ip}, sweeper := Removing(s.clock, shardOf(ip), ip)))
  {
    var all := Play(shardOf, steps, s, Tick, s.(sweeper := Ticked(s.clock)));
    all := Play(shardOf, all, s.(sweeper := Ticked(s.clock)), Lock(shardOf(ip)), s.(sweeper := Holding(s.clock, shardOf(ip))));
    all := Play(shardOf, all, s.(sweeper := Holding(s.clock, shardOf(ip))), Unblock(ip, true),
                s.(kernel := s.kernel - {ip}, sweeper := Removing(s.clock, shardOf(ip), ip)));
    more := [Tick, Lock(shardOf(ip)), Unblock(ip, true)];
    assert all == steps + more;
  }

  lemma SweepsEnded(shardOf: Ip -> nat, steps: seq<Step>, s: State, ip: Ip) returns (more: seq<Step>)
    requires Runs(shardOf, INITIAL, steps, s) && s.sweeper.Asleep? && ip in s.banned && s.banned[ip] <= s.clock
    ensures OnlySweeps(more)
    ensures Runs(shardOf, INITIAL, steps + more, s.(kernel := s.kernel - {ip}, banned := s.banned - {ip}))
  {
    var first := LiftsEnded(shardOf, steps, s, ip);
    var lifted := s.(kernel := s.kernel - {ip}, sweeper := Removing(s.clock, shardOf(ip), ip));
    var second := RemovesAndSleeps(shardOf, steps + first, lifted);
    more := first + second;
    assert steps + more == steps + first + second;
  }

  /** From every state of every run, the sweeper alone can remove any ended ban, from the map and the kernel. */
  lemma EndedBanCanBeSwept(shardOf: Ip -> nat, steps: seq<Step>, s: State, ip: Ip) returns (more: seq<Step>, t: State)
    requires Runs(shardOf, INITIAL, steps, s) && ip in s.banned && s.banned[ip] <= s.clock
    ensures Runs(shardOf, INITIAL, steps + more, t) && OnlySweeps(more)
    ensures ip !in t.banned && (Pending(s, ip) || ip !in t.kernel)
    ensures forall other :: other in s.banned && s.banned[other] > s.clock ==> other in t.banned
  {
    SweepKeepsLiveBans(shardOf, steps, s, ip);
    more := SweeperCanSleep(shardOf, steps, s);
    t := Rested(s);
    if ip in t.banned {
      var rest := SweepsEnded(shardOf, steps + more, t, ip);
      assert steps + (more + rest) == steps + more + rest;
      more, t := more + rest, t.(kernel := t.kernel - {ip}, banned := t.banned - {ip});
    }
  }
}
