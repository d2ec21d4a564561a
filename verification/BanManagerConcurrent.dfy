/**
 * The ban manager with any number of overlapping bans and checks, and its sweeper.
 *
 * A ban blocks the address in the kernel and only then inserts its entry; the two are
 * separate steps.  The sweeper lifts an ended ban and removes the entry while it holds
 * the lock of the entry's shard, so no entry of that shard can be inserted or read in
 * between, but the kernel can still be told to block.  The clock never goes back.
 */
module BanManagerConcurrent {
  import opened BanManager

  type TaskId = nat

  datatype Ban =
    | Blocking(ip: Ip, duration: nat)
    | ReadingClock(ip: Ip, duration: nat)
    | Inserting(ip: Ip, expiry: nat)

  datatype Check =
    | AskingKernel(ip: Ip)
    | ReadingMap(ip: Ip)
    | Comparing(ip: Ip, expiry: nat)
    | Answered(ip: Ip, answer: bool)

  datatype Sweeper =
    | Asleep
    | Ticked(now: nat)
    | Holding(now: nat, shard: nat)
    | Removing(now: nat, shard: nat, ip: Ip)

  datatype State = State(
    kernel: set<Ip>,
    banned: map<Ip, nat>,
    clock: nat,
    bans: map<TaskId, Ban>,
    checks: map<TaskId, Check>,
    sweeper: Sweeper)

  datatype Step =
    | Pass(to: nat)
    | StartBan(task: TaskId, ip: Ip, duration: nat)
    | Block(task: TaskId, succeeds: bool)
    | ReadClock(task: TaskId)
    | Insert(task: TaskId)
    | StartCheck(task: TaskId, ip: Ip)
    | AskKernel(task: TaskId)
    | ReadMap(task: TaskId)
    | Compare(task: TaskId)
    | Tick
    | Lock(shard: nat)
    | Unblock(ip: Ip, succeeds: bool)
    | Remove
    | Unlock
    | Sleep

  const INITIAL := State({}, map[], 0, map[], map[], Asleep)

  /** The sweeper holds the lock of this shard. */
  predicate Locked(s: State, shard: nat) {
    (s.sweeper.Holding? || s.sweeper.Removing?) && s.sweeper.shard == shard
  }

  predicate Enabled(shardOf: Ip -> nat, s: State, step: Step) {
    match step
    case Pass(to) => to >= s.clock
    case StartBan(t, _, _) => t !in s.bans
    case Block(t, _) => t in s.bans && s.bans[t].Blocking?
    case ReadClock(t) => t in s.bans && s.bans[t].ReadingClock?
    case Insert(t) => t in s.bans && s.bans[t].Inserting? && !Locked(s, shardOf(s.bans[t].ip))
    case StartCheck(t, _) => t !in s.checks
    case AskKernel(t) => t in s.checks && s.checks[t].AskingKernel?
    case ReadMap(t) => t in s.checks && s.checks[t].ReadingMap? && !Locked(s, shardOf(s.checks[t].ip))
    case Compare(t) => t in s.checks && s.checks[t].Comparing?
    case Tick => s.sweeper.Asleep?
    case Lock(_) => s.sweeper.Ticked?
    case Unblock(ip, _) =>
      && s.sweeper.Holding? && ip in s.banned
      && shardOf(ip) == s.sweeper.shard && s.banned[ip] <= s.sweeper.now
    case Remove => s.sweeper.Removing?
    case Unlock => s.sweeper.Holding?
    case Sleep => s.sweeper.Ticked?
  }

  function Apply(shardOf: Ip -> nat, s: State, step: Step): (r: State)
    requires Enabled(shardOf, s, step)
  {
    match step
    case Pass(to) => s.(clock := to)
    case StartBan(t, ip, d) => s.(bans := s.bans[t := Blocking(ip, d)])
    case Block(t, succeeds) =>
      if succeeds
      then s.(kernel := s.kernel + {s.bans[t].ip}, bans := s.bans[t := ReadingClock(s.bans[t].ip, s.bans[t].duration)])
      else s.(bans := s.bans - {t})
    case ReadClock(t) => s.(bans := s.bans[t := Inserting(s.bans[t].ip, s.clock + s.bans[t].duration)])
    case Insert(t) => s.(banned := s.banned[s.bans[t].ip := s.bans[t].expiry], bans := s.bans - {t})
    case StartCheck(t, ip) => s.(checks := s.checks[t := AskingKernel(ip)])
    case AskKernel(t) =>
      var ip := s.checks[t].ip;
      s.(checks := s.checks[t := if ip in s.kernel then Answered(ip, true) else ReadingMap(ip)])
    case ReadMap(t) =>
      var ip := s.checks[t].ip;
      s.(checks := s.checks[t := if ip in s.banned then Comparing(ip, s.banned[ip]) else Answered(ip, false)])
    case Compare(t) =>
      s.(checks := s.checks[t := Answered(s.checks[t].ip, s.checks[t].expiry > s.clock)])
    case Tick => s.(sweeper := Ticked(s.clock))
    case Lock(shard) => s.(sweeper := Holding(s.sweeper.now, shard))
    case Unblock(ip, succeeds) =>
      if succeeds
      then s.(kernel := s.kernel - {ip}, sweeper := Removing(s.sweeper.now, s.sweeper.shard, ip))
      else s
    case Remove => s.(banned := s.banned - {s.sweeper.ip}, sweeper := Holding(s.sweeper.now, s.sweeper.shard))
    case Unlock => s.(sweeper := Ticked(s.sweeper.now))
    case Sleep => s.(sweeper := Asleep)
  }

  /** `to` is reached from `from` by the given steps. */
  ghost predicate Runs(shardOf: Ip -> nat, from: State, steps: seq<Step>, to: State)
    decreases |steps|
  {
    if steps == [] then to == from
    else
      var last := |steps| - 1;
      exists mid: State :: Runs(shardOf, from, steps[..last], mid) && Enabled(shardOf, mid, steps[last]) &&
                           to == Apply(shardOf, mid, steps[last])
  }

  // ----- no kernel ban is orphaned

  /** Some ban has blocked the address and has yet to insert its entry. */
  ghost predicate Pending(s: State, ip: Ip) {
    exists t :: t in s.bans && s.bans[t].ip == ip && !s.bans[t].Blocking?
  }

  ghost predicate NoOrphans(s: State) {
    forall ip :: ip in s.kernel ==>
      || Pending(s, ip)
      || (ip in s.banned && !(s.sweeper.Removing? && s.sweeper.ip == ip))
  }

  /** The sweeper works on ended bans of the shard it holds. */
  ghost predicate SweeperOk(shardOf: Ip -> nat, s: State) {
    && (!s.sweeper.Asleep? ==> s.sweeper.now <= s.clock)
    && (s.sweeper.Removing? ==>
          && s.sweeper.ip in s.banned
          && shardOf(s.sweeper.ip) == s.sweeper.shard
          && s.banned[s.sweeper.ip] <= s.sweeper.now)
  }

  lemma SweeperStep(shardOf: Ip -> nat, s: State, step: Step)
    requires SweeperOk(shardOf, s) && Enabled(shardOf, s, step)
    ensures SweeperOk(shardOf, Apply(shardOf, s, step))
  {
  }

  lemma PendingStays(shardOf: Ip -> nat, s: State, step: Step, ip: Ip)
    requires Enabled(shardOf, s, step) && Pending(s, ip)
    ensures Pending(Apply(shardOf, s, step), ip) || (step.Insert? && s.bans[step.task].ip == ip)
  {
    var r := Apply(shardOf, s, step);
    var t :| t in s.bans && s.bans[t].ip == ip && !s.bans[t].Blocking?;
    if !(step.Insert? && step.task == t) {
      assert t in r.bans && r.bans[t].ip == ip && !r.bans[t].Blocking?;
    }
  }

  lemma NoOrphansStep(shardOf: Ip -> nat, s: State, step: Step)
    requires NoOrphans(s) && SweeperOk(shardOf, s) && Enabled(shardOf, s, step)
    ensures NoOrphans(Apply(shardOf, s, step))
  {
    var r := Apply(shardOf, s, step);
    forall ip | ip in r.kernel
      ensures Pending(r, ip) || (ip in r.banned && !(r.sweeper.Removing? && r.sweeper.ip == ip))
    {
      if step.Block? && step.succeeds && ip == s.bans[step.task].ip {
        assert !r.bans[step.task].Blocking?;
      } else if Pending(s, ip) {
        PendingStays(shardOf, s, step, ip);
      }
    }
  }

  lemma {:induction false} ReachableInvariant(shardOf: Ip -> nat, steps: seq<Step>, s: State)
    requires Runs(shardOf, INITIAL, steps, s)
    ensures NoOrphans(s) && SweeperOk(shardOf, s)
    decreases |steps|
  {
    if steps != [] {
      var last := |steps| - 1;
      var mid :| Runs(shardOf, INITIAL, steps[..last], mid) && Enabled(shardOf, mid, steps[last]) &&
        s == Apply(shardOf, mid, steps[last]);
      ReachableInvariant(shardOf, steps[..last], mid);
      NoOrphansStep(shardOf, mid, steps[last]);
      SweeperStep(shardOf, mid, steps[last]);
    }
  }

  /** In every interleaving, each address blocked in the kernel has an entry or one about to be inserted. */
  lemma NoKernelBanIsOrphaned(shardOf: Ip -> nat, steps: seq<Step>, s: State, ip: Ip)
    requires Runs(shardOf, INITIAL, steps, s) && ip in s.kernel
    ensures ip in s.banned || Pending(s, ip)
  {
    ReachableInvariant(shardOf, steps, s);
  }

  // ----- an inserted ban lasts

  ghost predicate Overwrites(s: State, step: Step, ip: Ip) {
    step.Insert? && step.task in s.bans && s.bans[step.task].ip == ip
  }

  /** As Runs, but without a step that inserts another entry for the address. */
  ghost predicate RunsWithoutInsert(shardOf: Ip -> nat, from: State, steps: seq<Step>, to: State, ip: Ip)
    decreases |steps|
  {
    if steps == [] then to == from
    else
      var last := |steps| - 1;
      exists mid: State :: RunsWithoutInsert(shardOf, from, steps[..last], mid, ip) && Enabled(shardOf, mid, steps[last]) &&
                           !Overwrites(mid, steps[last], ip) && to == Apply(shardOf, mid, steps[last])
  }

  /** The entry is unchanged, and no check begun since `from` has seen anything else. */
  ghost predicate Lasting(from: State, s: State, ip: Ip, expiry: nat) {
    && ip in s.banned && s.banned[ip] == expiry
    && from.checks.Keys <= s.checks.Keys
    && forall t :: t in s.checks && t !in from.checks && s.checks[t].ip == ip ==>
         match s.checks[t]
         case Comparing(_, e) => e == expiry
         case Answered(_, answer) => answer
         case _ => true
  }

  lemma LastingStep(shardOf: Ip -> nat, from: State, s: State, step: Step, ip: Ip, expiry: nat)
    requires Lasting(from, s, ip, expiry) && SweeperOk(shardOf, s) && s.clock < expiry
    requires Enabled(shardOf, s, step) && !Overwrites(s, step, ip)
    ensures Lasting(from, Apply(shardOf, s, step), ip, expiry)
  {
  }

  lemma ClockNeverBack(shardOf: Ip -> nat, s: State, step: Step)
    requires Enabled(shardOf, s, step)
    ensures s.clock <= Apply(shardOf, s, step).clock
  {
  }

  lemma {:induction false} LastingRun(shardOf: Ip -> nat, from: State, steps: seq<Step>, s: State, ip: Ip)
    requires SweeperOk(shardOf, from) && ip in from.banned
    requires RunsWithoutInsert(shardOf, from, steps, s, ip) && s.clock < from.banned[ip]
    ensures Lasting(from, s, ip, from.banned[ip]) && SweeperOk(shardOf, s)
    decreases |steps|
  {
    if steps != [] {
      var last := |steps| - 1;
      var mid :| RunsWithoutInsert(shardOf, from, steps[..last], mid, ip) && Enabled(shardOf, mid, steps[last]) &&
        !Overwrites(mid, steps[last], ip) && s == Apply(shardOf, mid, steps[last]);
      ClockNeverBack(shardOf, mid, steps[last]);
      LastingRun(shardOf, from, steps[..last], mid, ip);
      LastingStep(shardOf, from, mid, steps[last], ip, from.banned[ip]);
      SweeperStep(shardOf, mid, steps[last]);
    }
  }

  /**
   * Once inserted, a ban stays until it ends: as long as no other ban of the address
   * inserts its own expiry, every check begun since answers that it is banned.
   */
  lemma InsertedBanLasts(
    shardOf: Ip -> nat, before: seq<Step>, from: State, steps: seq<Step>, s: State, ip: Ip, t: TaskId)
    requires Runs(shardOf, INITIAL, before, from) && ip in from.banned
    requires RunsWithoutInsert(shardOf, from, steps, s, ip) && s.clock < from.banned[ip]
    ensures ip in s.banned && s.banned[ip] == from.banned[ip]
    ensures t in s.checks && t !in from.checks && s.checks[t].ip == ip && s.checks[t].Answered? ==> s.checks[t].answer
  {
    ReachableInvariant(shardOf, before, from);
    LastingRun(shardOf, from, steps, s, ip);
  }

  // ----- but it may be missing from the kernel

  /** If the address has a pending ban, or an entry that is not being removed, the kernel blocks it. */
  ghost predicate Covered(s: State, ip: Ip) {
    Pending(s, ip) || (ip in s.banned && !(s.sweeper.Removing? && s.sweeper.ip == ip)) ==> ip in s.kernel
  }

  predicate Blocks(s: State, step: Step, ip: Ip) {
    step.Block? && step.succeeds && step.task in s.bans && s.bans[step.task].ip == ip
  }

  predicate Lifts(step: Step, ip: Ip) {
    step.Unblock? && step.succeeds && step.ip == ip
  }

  /**
   * The run ends in s, and of its successful kernel changes to the address the latest
   * one lifted it while a ban of it was pending.
   */
  ghost predicate LiftedUnderBan(shardOf: Ip -> nat, steps: seq<Step>, s: State, ip: Ip)
    decreases |steps|
  {
    if steps == [] then false
    else
      var last := |steps| - 1;
      exists mid: State ::
        && Runs(shardOf, INITIAL, steps[..last], mid) && Enabled(shardOf, mid, steps[last]) && s == Apply(shardOf, mid, steps[last])
        && if Lifts(steps[last], ip) then Pending(mid, ip)
           else !Blocks(mid, steps[last], ip) && LiftedUnderBan(shardOf, steps[..last], mid, ip)
  }

  /** A kernel change to the address decides whether it is covered; no other step matters. */
  lemma CoveredStep(shardOf: Ip -> nat, s: State, step: Step, ip: Ip)
    requires SweeperOk(shardOf, s) && Enabled(shardOf, s, step)
    ensures Covered(Apply(shardOf, s, step), ip) <==>
            if Lifts(step, ip) then !Pending(s, ip) else Blocks(s, step, ip) || Covered(s, ip)
  {
    PendingAfter(shardOf, s, step, ip);
  }

  lemma PendingAfter(shardOf: Ip -> nat, s: State, step: Step, ip: Ip)
    requires Enabled(shardOf, s, step)
    ensures Blocks(s, step, ip) ==> Pending(Apply(shardOf, s, step), ip)
    ensures !Blocks(s, step, ip) && Pending(Apply(shardOf, s, step), ip) ==> Pending(s, ip)
    ensures Pending(s, ip) ==> Pending(Apply(shardOf, s, step), ip) || Overwrites(s, step, ip)
  {
    var r := Apply(shardOf, s, step);
    if Blocks(s, step, ip) {
      assert !r.bans[step.task].Blocking?;
    } else if Pending(r, ip) {
      var t :| t in r.bans && r.bans[t].ip == ip && !r.bans[t].Blocking?;
      assert t in s.bans && s.bans[t].ip == ip && !s.bans[t].Blocking?;
    }
    if Pending(s, ip) {
      PendingStays(shardOf, s, step, ip);
    }
  }

  /**
   * In every run, a ban that is pending or inserted is missing from the kernel exactly
   * when the latest kernel change to its address lifted an earlier ban while this or
   * another new ban of the address was pending.
   */
  lemma {:induction false} KernelMissesBanIff(shardOf: Ip -> nat, steps: seq<Step>, s: State, ip: Ip)
    requires Runs(shardOf, INITIAL, steps, s)
    ensures !Covered(s, ip) <==> LiftedUnderBan(shardOf, steps, s, ip)
    decreases |steps|
  {
    if steps != [] {
      var last := |steps| - 1;
      forall mid | Runs(shardOf, INITIAL, steps[..last], mid) && Enabled(shardOf, mid, steps[last]) &&
                   s == Apply(shardOf, mid, steps[last])
        ensures !Covered(s, ip) <==>
                if Lifts(steps[last], ip) then Pending(mid, ip)
                else !Blocks(mid, steps[last], ip) && LiftedUnderBan(shardOf, steps[..last], mid, ip)
      {
        KernelMissesBanIff(shardOf, steps[..last], mid, ip);
        ReachableInvariant(shardOf, steps[..last], mid);
        CoveredStep(shardOf, mid, steps[last], ip);
      }
    }
  }

  // ----- one ban of an address at a time

  /** A run from INITIAL in which the address is blocked only while it has no entry and no pending ban. */
  ghost predicate OneBanAtATime(shardOf: Ip -> nat, steps: seq<Step>, s: State, ip: Ip)
    decreases |steps|
  {
    if steps == [] then s == INITIAL
    else
      var last := |steps| - 1;
      exists mid: State ::
        && OneBanAtATime(shardOf, steps[..last], mid, ip)
        && Enabled(shardOf, mid, steps[last]) && s == Apply(shardOf, mid, steps[last])
        && (Blocks(mid, steps[last], ip) ==> !Pending(mid, ip) && ip !in mid.banned)
  }

  /** At most one ban of the address is pending, and then the address has no entry. */
  ghost predicate Single(s: State, ip: Ip) {
    && (forall t, u :: t in s.bans && u in s.bans && s.bans[t].ip == s.bans[u].ip == ip ==>
          s.bans[t].Blocking? || s.bans[u].Blocking? || t == u)
    && (Pending(s, ip) ==> ip !in s.banned)
  }

  lemma SingleStep(shardOf: Ip -> nat, s: State, step: Step, ip: Ip)
    requires Single(s, ip) && Enabled(shardOf, s, step)
    requires Blocks(s, step, ip) ==> !Pending(s, ip) && ip !in s.banned
    ensures Single(Apply(shardOf, s, step), ip)
  {
    PendingAfter(shardOf, s, step, ip);
  }

  /** The condition that callers control: with one ban of an address at a time, the kernel misses none. */
  lemma {:induction false} KernelMissesNoSingleBan(shardOf: Ip -> nat, steps: seq<Step>, s: State, ip: Ip)
    requires OneBanAtATime(shardOf, steps, s, ip)
    ensures Runs(shardOf, INITIAL, steps, s) && Single(s, ip) && Covered(s, ip)
    decreases |steps|
  {
    if steps != [] {
      var last := |steps| - 1;
      var mid :| OneBanAtATime(shardOf, steps[..last], mid, ip) && Enabled(shardOf, mid, steps[last]) &&
                 s == Apply(shardOf, mid, steps[last]) &&
                 (Blocks(mid, steps[last], ip) ==> !Pending(mid, ip) && ip !in mid.banned);
      KernelMissesNoSingleBan(shardOf, steps[..last], mid, ip);
      ReachableInvariant(shardOf, steps[..last], mid);
      SingleStep(shardOf, mid, steps[last], ip);
      CoveredStep(shardOf, mid, steps[last], ip);
    }
  }

  lemma Extend(shardOf: Ip -> nat, steps: seq<Step>, s: State, step: Step) returns (steps': seq<Step>, s': State)
    requires Runs(shardOf, INITIAL, steps, s) && Enabled(shardOf, s, step)
    ensures s' == Apply(shardOf, s, step) && Runs(shardOf, INITIAL, steps', s')
  {
    steps', s' := steps + [step], Apply(shardOf, s, step);
    assert steps'[..|steps|] == steps;
  }

  /** A ban of the given length, inserted and left to end. */
  lemma EndedBan(shardOf: Ip -> nat, ip: Ip, first: nat) returns (steps: seq<Step>, s: State)
    ensures Runs(shardOf, INITIAL, steps, s)
    ensures s == State({ip}, map[ip := first], first, map[], map[], Asleep)
  {
    steps, s := Extend(shardOf, [], INITIAL, StartBan(0, ip, first));
    steps, s := Extend(shardOf, steps, s, Block(0, true));
    steps, s := Extend(shardOf, steps, s, ReadClock(0));
    steps, s := Extend(shardOf, steps, s, Insert(0));
    assert s.bans == map[];
    steps, s := Extend(shardOf, steps, s, Pass(first));
  }

  lemma SecondBanPending(shardOf: Ip -> nat, ip: Ip, first: nat, second: nat) returns (steps: seq<Step>, s: State)
    ensures Runs(shardOf, INITIAL, steps, s)
    ensures s == State({ip}, map[ip := first], first, map[1 := ReadingClock(ip, second)], map[], Asleep)
  {
    steps, s := EndedBan(shardOf, ip, first);
    steps, s := Extend(shardOf, steps, s, StartBan(1, ip, second));
    steps, s := Extend(shardOf, steps, s, Block(1, true));
  }

  /** A second ban has blocked the address when the sweeper lifts the first one. */
  lemma LiftedWhilePending(shardOf: Ip -> nat, ip: Ip, first: nat, second: nat) returns (steps: seq<Step>, s: State)
    ensures Runs(shardOf, INITIAL, steps, s)
    ensures s == State({}, map[ip := first], first, map[1 := ReadingClock(ip, second)], map[], Removing(first, shardOf(ip), ip))
  {
    steps, s := SecondBanPending(shardOf, ip, first, second);
    steps, s := Extend(shardOf, steps, s, Tick);
    steps, s := Extend(shardOf, steps, s, Lock(shardOf(ip)));
    steps, s := Extend(shardOf, steps, s, Unblock(ip, true));
  }

  /**
   * After a ban of any length, a second ban of any length can end up inserted and not yet
   * ended, with no call under way and the sweeper asleep, and yet not be blocked in the
   * kernel.
   */
  lemma InsertedBanCanMissKernel(shardOf: Ip -> nat, ip: Ip, first: nat, second: nat) returns (steps: seq<Step>, s: State)
    requires first > 0 && second > 0
    ensures Runs(shardOf, INITIAL, steps, s)
    ensures s.bans == map[] && s.checks == map[] && s.sweeper == Asleep
    ensures s.clock == first && s.banned == map[ip := first + second] && ip !in s.kernel
  {
    steps, s := LiftedWhilePending(shardOf, ip, first, second);
    steps, s := Extend(shardOf, steps, s, Remove);
    steps, s := Extend(shardOf, steps, s, Unlock);
    steps, s := Extend(shardOf, steps, s, Sleep);
    assert s == State({}, map[], first, map[1 := ReadingClock(ip, second)], map[], Asleep);
    steps, s := InsertLater(shardOf, steps, s, ip, second);
  }

  lemma InsertLater(shardOf: Ip -> nat, steps: seq<Step>, s: State, ip: Ip, second: nat) returns (steps': seq<Step>, s': State)
    requires Runs(shardOf, INITIAL, steps, s)
    requires s == State({}, map[], s.clock, map[1 := ReadingClock(ip, second)], map[], Asleep)
    ensures Runs(shardOf, INITIAL, steps', s')
    ensures s' == State({}, map[ip := s.clock + second], s.clock, map[], map[], Asleep)
  {
    steps', s' := Extend(shardOf, steps, s, ReadClock(1));
    steps', s' := Extend(shardOf, steps', s', Insert(1));
    assert s'.bans == map[];
  }
}
