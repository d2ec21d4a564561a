/**
 * Whole runs of the GCRA script on one key.
 *
 * `At(k)` is the key after the first k calls.  Unless a lemma asks for `Ordered`,
 * the clock readings are arbitrary: different proxies supply them, and they may go
 * backwards.
 */
module GcraRuns {
  import opened Options
  import opened Gcra

  datatype Run = Run(cfg: Config, start: Key, calls: seq<Call>) {
    ghost predicate Valid() {
      cfg.Valid()
    }

    ghost predicate Ordered() {
      forall i, j :: 0 <= i <= j < |calls| ==> calls[i].now <= calls[j].now
    }

    function At(k: nat): (key: Key)
      requires Valid() && k <= |calls|
    {
      if k == 0 then start else NextKey(cfg, At(k - 1), calls[k - 1])
    }

    function ReplyTo(k: nat): (r: Reply)
      requires Valid() && k < |calls|
    {
      Answer(cfg, At(k), calls[k])
    }

    predicate Admitted(k: nat)
      requires Valid() && k < |calls|
    {
      Admits(cfg, At(k), calls[k])
    }

    predicate Denied(k: nat)
      requires Valid() && k < |calls|
    {
      Denies(cfg, At(k), calls[k])
    }

    /** The total cost admitted by calls i, ..., j - 1. */
    function Spent(i: nat, j: nat): (c: nat)
      requires Valid() && i <= j <= |calls|
      decreases j
    {
      if i == j then 0
      else Spent(i, j - 1) + (if Admitted(j - 1) then calls[j - 1].cost else 0)
    }
  }

  // ----- the stored TAT over a run

  /** The cost that one more call adds to what was spent. */
  function CostIfAdmitted(cfg: Config, key: Key, call: Call): (c: nat)
    requires cfg.Valid()
  {
    if Admits(cfg, key, call) then call.cost else 0
  }

  lemma StepLiftsTat(cfg: Config, key: Key, call: Call, floor: real, spent: nat)
    requires cfg.Valid() && key.Some? && key.value.tat >= floor + cfg.Charge(spent)
    ensures NextKey(cfg, key, call).Some?
    ensures NextKey(cfg, key, call).value.tat >= floor + cfg.Charge(spent + CostIfAdmitted(cfg, key, call))
  {
    ChargeAdd(cfg, spent, CostIfAdmitted(cfg, key, call));
  }

  /** The stored TAT never goes back, whatever the clocks do. */
  lemma {:induction false} TatNeverDecreases(run: Run, i: nat, j: nat)
    requires run.Valid() && i <= j <= |run.calls|
    requires run.At(i).Some?
    ensures run.At(j).Some?
    ensures run.At(j).value.tat >= run.At(i).value.tat + run.cfg.Charge(run.Spent(i, j))
    decreases j
  {
    if i < j {
      TatNeverDecreases(run, i, j - 1);
      StepLiftsTat(run.cfg, run.At(j - 1), run.calls[j - 1], run.At(i).value.tat, run.Spent(i, j - 1));
    }
  }

  lemma {:induction false} SpentSplits(run: Run, i: nat, m: nat, j: nat)
    requires run.Valid() && i <= m <= j <= |run.calls|
    ensures run.Spent(i, j) == run.Spent(i, m) + run.Spent(m, j)
    decreases j
  {
    if m < j {
      SpentSplits(run, i, m, j - 1);
    }
  }

  lemma AdmitLiftsTat(cfg: Config, key: Key, call: Call)
    requires cfg.Valid() && Admits(cfg, key, call)
    ensures NextKey(cfg, key, call).value.tat >= call.now as real + cfg.Charge(call.cost)
    ensures NextKey(cfg, key, call).value.tat <= call.now as real + cfg.periodMs as real
  {
  }

  lemma SpentOne(run: Run, f: nat)
    requires run.Valid() && f < |run.calls| && run.Admitted(f)
    ensures run.Spent(f, f + 1) == run.calls[f].cost
  {
    assert run.Spent(f, f) == 0;
  }

  /** From an admitted call f on, the TAT is at least f's clock plus everything admitted since. */
  lemma {:induction false} AdmittedLiftsTat(run: Run, f: nat, j: nat)
    requires run.Valid() && f < j <= |run.calls| && run.Admitted(f)
    ensures run.At(j).Some?
    ensures run.At(j).value.tat >= run.calls[f].now as real + run.cfg.Charge(run.Spent(f, j))
  {
    if j == f + 1 {
      SpentOne(run, f);
      AdmitLiftsTat(run.cfg, run.At(f), run.calls[f]);
    } else {
      AdmittedLiftsTat(run, f, j - 1);
      StepLiftsTat(run.cfg, run.At(j - 1), run.calls[j - 1], run.calls[f].now as real, run.Spent(f, j - 1));
    }
  }

  /**
   * Between any two admitted calls the admitted cost is worth at most one period plus
   * the difference of their own clock readings.  The clocks may be arbitrary.
   */
  lemma AnyClockBound(run: Run, f: nat, l: nat)
    requires run.Valid() && f <= l < |run.calls| && run.Admitted(f) && run.Admitted(l)
    ensures run.cfg.Charge(run.Spent(f, l + 1)) <=
            run.cfg.periodMs as real + run.calls[l].now as real - run.calls[f].now as real
  {
    AdmittedLiftsTat(run, f, l + 1);
    AdmitLiftsTat(run.cfg, run.At(l), run.calls[l]);
  }

  // ----- the window bound

  lemma {:induction false} NothingSpent(run: Run, i: nat, j: nat)
    requires run.Valid() && i <= j <= |run.calls|
    requires forall k :: i <= k < j ==> !run.Admitted(k)
    ensures run.Spent(i, j) == 0
    decreases j
  {
    if i < j {
      NothingSpent(run, i, j - 1);
    }
  }

  lemma {:induction false} FirstAdmitted(run: Run, i: nat, j: nat) returns (f: nat)
    requires run.Valid() && i <= j <= |run.calls|
    ensures i <= f <= j
    ensures f < j ==> run.Admitted(f)
    ensures run.Spent(i, j) == run.Spent(f, j)
    decreases j - i
  {
    if i == j || run.Admitted(i) {
      f := i;
    } else {
      f := FirstAdmitted(run, i + 1, j);
      SpentSplits(run, i, i + 1, j);
      NothingSpent(run, i, i + 1);
    }
  }

  lemma {:induction false} LastAdmitted(run: Run, f: nat, j: nat) returns (l: nat)
    requires run.Valid() && f < j <= |run.calls| && run.Admitted(f)
    ensures f <= l < j && run.Admitted(l)
    ensures run.Spent(f, j) == run.Spent(f, l + 1)
    decreases j
  {
    if run.Admitted(j - 1) {
      l := j - 1;
    } else {
      l := LastAdmitted(run, f, j - 1);
    }
  }

  lemma ScaleBound(cfg: Config, spent: nat, span: int)
    requires cfg.Valid() && cfg.Charge(spent) <= span as real
    ensures spent * cfg.periodMs <= cfg.limit * span
  {
    ChargeIsProduct(cfg, spent);
    IntervalTimesLimit(cfg);
    var i, limit, s := cfg.EmissionInterval(), cfg.limit as real, spent as real;
    assert limit * (i * s) == (i * limit) * s;
    MulMono(limit, i * s, span as real);
    ProductAsReal(spent, cfg.periodMs);
    ProductAsReal(cfg.limit, span);
  }

  lemma ProductAsReal(a: int, b: int)
    ensures (a * b) as real == (a as real) * (b as real)
  {
  }

  /**
   * In every window of calls i, ..., j - 1 of every run with a clock that does not go
   * back: admitted cost * period <= limit * (length of the window + period).
   */
  lemma WindowBound(run: Run, i: nat, j: nat)
    requires run.Valid() && run.Ordered() && i < j <= |run.calls|
    ensures run.Spent(i, j) * run.cfg.periodMs <=
            run.cfg.limit * (run.calls[j - 1].now - run.calls[i].now + run.cfg.periodMs)
  {
    var f := FirstAdmitted(run, i, j);
    var span := run.calls[j - 1].now - run.calls[i].now + run.cfg.periodMs;
    if f == j {
      assert run.Spent(i, j) == 0;
    } else {
      var l := LastAdmitted(run, f, j);
      AnyClockBound(run, f, l);
      assert run.calls[i].now <= run.calls[f].now && run.calls[l].now <= run.calls[j - 1].now;
    }
    ScaleBound(run.cfg, run.Spent(i, j), span);
  }

  ghost function Times(n: nat, x: nat): nat {
    if n == 0 then 0 else Times(n - 1, x) + x
  }

  lemma {:induction false} TimesSwap(n: nat, x: nat, y: nat)
    ensures Times(n, x) * y == x * Times(n, y)
  {
    if n > 0 {
      TimesSwap(n - 1, x, y);
    }
  }

  lemma {:induction false} TimesGrows(i: nat, j: nat, x: nat)
    requires i <= j
    ensures Times(i, x) <= Times(j, x)
  {
    if i < j {
      TimesGrows(i, j - 1, x);
    }
  }

  /** One full burst at the start of each period. */
  ghost function Bursts(cfg: Config, n: nat): (run: Run)
    ensures run.cfg == cfg && run.start.None? && |run.calls| == n
    ensures forall i :: 0 <= i < n ==> run.calls[i] == Call(Times(i, cfg.periodMs), cfg.limit)
  {
    Run(cfg, None, seq(n, i requires 0 <= i < n => Call(Times(i, cfg.periodMs), cfg.limit)))
  }

  lemma FullBurst(cfg: Config, key: Key, now: nat)
    requires cfg.Valid() && Base(key, now) == now as real
    ensures Admits(cfg, key, Call(now, cfg.limit))
    ensures Script(cfg, key, Call(now, cfg.limit)).key.value.tat == now as real + cfg.periodMs as real
  {
    ChargeIsProduct(cfg, cfg.limit);
    IntervalTimesLimit(cfg);
    AdmitsIff(cfg, key, Call(now, cfg.limit));
  }

  lemma {:induction false} BurstsAdmitted(run: Run, n: nat, k: nat)
    requires run.Valid() && run == Bursts(run.cfg, n) && k <= n
    ensures Base(run.At(k), Times(k, run.cfg.periodMs)) == Times(k, run.cfg.periodMs) as real
    ensures run.Spent(0, k) == Times(k, run.cfg.limit)
  {
    if k > 0 {
      BurstsAdmitted(run, n, k - 1);
      FullBurst(run.cfg, run.At(k - 1), Times(k - 1, run.cfg.periodMs));
      assert run.Admitted(k - 1);
    }
  }

  /** The window bound cannot be improved: for every limit, period and n, some run attains it. */
  lemma WindowBoundIsTight(run: Run, n: nat)
    requires run.Valid() && run == Bursts(run.cfg, n) && n > 0
    ensures run.Ordered()
    ensures run.Spent(0, n) * run.cfg.periodMs ==
            run.cfg.limit * (run.calls[n - 1].now - run.calls[0].now + run.cfg.periodMs)
  {
    BurstsAdmitted(run, n, n);
    BurstsOrdered(run, n);
    assert run.calls[n - 1].now - run.calls[0].now + run.cfg.periodMs == Times(n, run.cfg.periodMs);
    TimesSwap(n, run.cfg.limit, run.cfg.periodMs);
  }

  lemma BurstsOrdered(run: Run, n: nat)
    requires run == Bursts(run.cfg, n)
    ensures run.Ordered()
  {
    forall i, j | 0 <= i <= j < n
      ensures run.calls[i].now <= run.calls[j].now
    {
      TimesGrows(i, j, run.cfg.periodMs);
    }
  }

  // ----- the limiter refuses nothing that it could admit

  /** The window that starts at call f and ends with the given call stays within the bound. */
  ghost predicate WindowFits(run: Run, f: nat, call: Call)
    requires run.Valid() && f < |run.calls|
  {
    run.cfg.Charge(run.Spent(f, |run.calls|) + call.cost) <=
    run.cfg.periodMs as real + call.now as real - run.calls[f].now as real
  }

  /** Some admitted call attains the TAT, unless the key was stored before the run began. */
  lemma {:induction false} TatIsAttained(run: Run, j: nat) returns (f: nat)
    requires run.Valid() && run.start.None? && j <= |run.calls| && run.At(j).Some?
    ensures f < j && run.Admitted(f)
    ensures run.At(j).value.tat == run.calls[f].now as real + run.cfg.Charge(run.Spent(f, j))
    decreases j
  {
    var key, call := run.At(j - 1), run.calls[j - 1];
    if key.Some? && (key.value.tat > call.now as real || !run.Admitted(j - 1)) {
      f := TatIsAttained(run, j - 1);
      StepShiftsTat(run.cfg, key, call, run.calls[f].now as real, run.Spent(f, j - 1));
    } else {
      f := j - 1;
      SpentOne(run, f);
    }
  }

  lemma StepShiftsTat(cfg: Config, key: Key, call: Call, floor: real, spent: nat)
    requires cfg.Valid() && key.Some? && key.value.tat == floor + cfg.Charge(spent)
    requires key.value.tat > call.now as real || !Admits(cfg, key, call)
    ensures NextKey(cfg, key, call).Some?
    ensures NextKey(cfg, key, call).value.tat == floor + cfg.Charge(spent + CostIfAdmitted(cfg, key, call))
  {
    ChargeAdd(cfg, spent, CostIfAdmitted(cfg, key, call));
  }

  /**
   * The TAT is the greatest of the numbers clock(f) + charge(admitted since f) over the
   * admitted calls f, so the next call is refused exactly when some window ending with
   * it, or the call on its own, would break the bound.
   */
  lemma DeniedOnlyWhenNecessary(run: Run, call: Call)
    requires run.Valid() && run.start.None?
    ensures Denies(run.cfg, run.At(|run.calls|), call) <==>
            || run.cfg.Charge(call.cost) > run.cfg.periodMs as real
            || exists f :: 0 <= f < |run.calls| && run.Admitted(f) && !WindowFits(run, f, call)
  {
    var n := |run.calls|;
    var key := run.At(n);
    DeniesIff(run.cfg, key, call);
    forall f | 0 <= f < n && run.Admitted(f) && !WindowFits(run, f, call)
      ensures Denies(run.cfg, key, call)
    {
      AdmittedLiftsTat(run, f, n);
      ChargeAdd(run.cfg, run.Spent(f, n), call.cost);
    }
    if Denies(run.cfg, key, call) && key.Some? && key.value.tat > call.now as real {
      var f := WitnessOfDenial(run, call);
    }
  }

  lemma WitnessOfDenial(run: Run, call: Call) returns (f: nat)
    requires run.Valid() && run.start.None? && Denies(run.cfg, run.At(|run.calls|), call)
    requires run.At(|run.calls|).Some? && run.At(|run.calls|).value.tat > call.now as real
    ensures f < |run.calls| && run.Admitted(f) && !WindowFits(run, f, call)
  {
    f := TatIsAttained(run, |run.calls|);
    DeniesIff(run.cfg, run.At(|run.calls|), call);
    ChargeAdd(run.cfg, run.Spent(f, |run.calls|), call.cost);
  }

  // ----- key expiry

  /** The run in which Redis may drop the key just before call k whenever drop[k] holds. */
  function DroppingAt(run: Run, drop: seq<bool>, k: nat): (key: Key)
    requires run.Valid() && |drop| == |run.calls| && k <= |run.calls|
    decreases k, 0
  {
    if k == 0 then run.start
    else NextKey(run.cfg, BeforeCall(run, drop, k - 1), run.calls[k - 1])
  }

  function BeforeCall(run: Run, drop: seq<bool>, k: nat): (key: Key)
    requires run.Valid() && |drop| == |run.calls| && k < |run.calls|
    decreases k, 1
  {
    var key := DroppingAt(run, drop, k);
    if drop[k] then Expired(key, run.calls[k].now) else key
  }

  /** Equal keys, or a missing one beside one that is no longer ahead of the clock. */
  ghost predicate Same(dropped: Key, kept: Key, now: nat) {
    || dropped == kept
    || (dropped.None? && kept.Some? && kept.value.tat <= now as real)
  }

  ghost predicate Outlived(key: Key) {
    key.Some? ==> key.value.tat <= key.value.deadline as real
  }

  lemma SameStep(cfg: Config, dropped: Key, kept: Key, call: Call)
    requires cfg.Valid() && Same(dropped, kept, call.now) && Outlived(dropped)
    ensures Script(cfg, dropped, call).reply == Script(cfg, kept, call).reply
    ensures Same(Script(cfg, dropped, call).key, Script(cfg, kept, call).key, call.now)
    ensures Outlived(Script(cfg, dropped, call).key)
  {
    assert Base(dropped, call.now) == Base(kept, call.now);
  }

  lemma {:induction false} DropKeepsSame(run: Run, drop: seq<bool>, k: nat)
    requires run.Valid() && run.Ordered() && Outlived(run.start)
    requires |drop| == |run.calls| && k < |run.calls|
    ensures Same(BeforeCall(run, drop, k), run.At(k), run.calls[k].now)
    ensures Outlived(BeforeCall(run, drop, k))
  {
    if k > 0 {
      DropKeepsSame(run, drop, k - 1);
      SameStep(run.cfg, BeforeCall(run, drop, k - 1), run.At(k - 1), run.calls[k - 1]);
      assert run.calls[k - 1].now <= run.calls[k].now;
    }
  }

  /**
   * Expiry is invisible: whichever expired keys Redis drops, and whenever it does, each
   * call gets the same answer as if nothing were ever dropped.
   */
  lemma ExpiryIsInvisible(run: Run, drop: seq<bool>, k: nat)
    requires run.Valid() && run.Ordered() && run.start.None?
    requires |drop| == |run.calls| && k < |run.calls|
    ensures Script(run.cfg, BeforeCall(run, drop, k), run.calls[k]).reply == run.ReplyTo(k)
  {
    DropKeepsSame(run, drop, k);
    SameStep(run.cfg, BeforeCall(run, drop, k), run.At(k), run.calls[k]);
  }

  // ----- refused calls leave no trace

  /** The calls among the first n that were not refused. */
  function Kept(run: Run, n: nat): (calls: seq<Call>)
    requires run.Valid() && n <= |run.calls|
  {
    if n == 0 then []
    else if run.Denied(n - 1) then Kept(run, n - 1)
    else Kept(run, n - 1) + [run.calls[n - 1]]
  }

  function KeptReplies(run: Run, n: nat): (replies: seq<Reply>)
    requires run.Valid() && n <= |run.calls|
    ensures |replies| == |Kept(run, n)|
  {
    if n == 0 then []
    else if run.Denied(n - 1) then KeptReplies(run, n - 1)
    else KeptReplies(run, n - 1) + [run.ReplyTo(n - 1)]
  }

  lemma {:induction false} PrefixRuns(cfg: Config, start: Key, calls: seq<Call>, more: seq<Call>, k: nat)
    requires cfg.Valid() && k <= |calls|
    ensures Run(cfg, start, calls).At(k) == Run(cfg, start, calls + more).At(k)
    ensures k < |calls| ==> Run(cfg, start, calls).ReplyTo(k) == Run(cfg, start, calls + more).ReplyTo(k)
  {
    if k > 0 {
      PrefixRuns(cfg, start, calls, more, k - 1);
    }
  }

  /** Running only the calls that were not refused gives each of them its old answer and the same key. */
  lemma {:induction false} ErasingDenials(run: Run, n: nat)
    requires run.Valid() && n <= |run.calls|
    ensures var erased := Run(run.cfg, run.start, Kept(run, n));
            && erased.At(|erased.calls|) == run.At(n)
            && forall i :: 0 <= i < |erased.calls| ==> erased.ReplyTo(i) == KeptReplies(run, n)[i]
  {
    if n > 0 {
      ErasingDenials(run, n - 1);
      if !run.Denied(n - 1) {
        var before := Kept(run, n - 1);
        var last := [run.calls[n - 1]];
        forall i | 0 <= i <= |before|
          ensures Run(run.cfg, run.start, before).At(i) == Run(run.cfg, run.start, before + last).At(i)
          ensures i < |before| ==> Run(run.cfg, run.start, before).ReplyTo(i) == Run(run.cfg, run.start, before + last).ReplyTo(i)
        {
          PrefixRuns(run.cfg, run.start, before, last, i);
        }
        assert (before + last)[|before|] == run.calls[n - 1];
      }
    }
  }

  // ----- a batch of calls at one instant

  ghost function Instant(now: nat, costs: seq<nat>): (calls: seq<Call>)
    ensures |calls| == |costs|
    ensures forall i :: 0 <= i < |costs| ==> calls[i] == Call(now, costs[i])
  {
    seq(|costs|, i requires 0 <= i < |costs| => Call(now, costs[i]))
  }

  ghost function Total(costs: seq<nat>): nat {
    if costs == [] then 0 else Total(costs[..|costs| - 1]) + costs[|costs| - 1]
  }

  ghost predicate AllAdmitted(run: Run, n: nat)
    requires run.Valid() && n <= |run.calls|
  {
    forall i :: 0 <= i < n ==> run.Admitted(i)
  }

  /**
   * Spending several positive costs one after the other at one instant succeeds exactly
   * when a single call for their sum does, and then both leave the same TAT.
   */
  lemma {:induction false} BatchEqualsSum(cfg: Config, start: Key, now: nat, costs: seq<nat>)
    requires cfg.Valid() && costs != [] && forall i :: 0 <= i < |costs| ==> costs[i] >= 1
    ensures var run := Run(cfg, start, Instant(now, costs));
            var one := Call(now, Total(costs));
            && (AllAdmitted(run, |costs|) <==> Admits(cfg, start, one))
            && (Admits(cfg, start, one) ==>
                  run.At(|costs|).Some? && run.At(|costs|).value.tat == Script(cfg, start, one).key.value.tat)
  {
    var n := |costs| - 1;
    var run := Run(cfg, start, Instant(now, costs));
    if n == 0 {
      assert Total(costs[..0]) == 0;
      assert run.At(0) == start && run.At(1) == Script(cfg, start, run.calls[0]).key;
      assert run.Admitted(0) == Admits(cfg, start, Call(now, costs[0]));
      AdmitsIff(cfg, start, Call(now, costs[0]));
    } else {
      var init := costs[..n];
      BatchEqualsSum(cfg, start, now, init);
      var before := Run(cfg, start, Instant(now, init));
      assert run.calls == before.calls + [Call(now, costs[n])];
      BatchPrefix(cfg, start, before.calls, [Call(now, costs[n])]);
      assert AllAdmitted(run, n + 1) <==> AllAdmitted(run, n) && run.Admitted(n);
      SumOfTwo(cfg, start, run.At(n), now, Total(init), costs[n]);
    }
  }

  /** One more cost after a sum is the greater sum. */
  lemma SumOfTwo(cfg: Config, start: Key, mid: Key, now: nat, total: nat, cost: nat)
    requires cfg.Valid() && total >= 1 && cost >= 1
    requires Admits(cfg, start, Call(now, total)) ==>
               mid.Some? && Script(cfg, start, Call(now, total)).key.Some? &&
               mid.value.tat == Script(cfg, start, Call(now, total)).key.value.tat
    ensures var both := Call(now, total + cost);
            && (Admits(cfg, start, both) <==> Admits(cfg, start, Call(now, total)) && Admits(cfg, mid, Call(now, cost)))
            && (Admits(cfg, start, both) ==>
                  && Script(cfg, mid, Call(now, cost)).key.Some? && Script(cfg, start, both).key.Some?
                  && Script(cfg, mid, Call(now, cost)).key.value.tat == Script(cfg, start, both).key.value.tat)
  {
    ChargeAdd(cfg, total, cost);
    AdmitsIff(cfg, start, Call(now, total));
    AdmitsIff(cfg, start, Call(now, total + cost));
    AdmitsIff(cfg, mid, Call(now, cost));
    if Admits(cfg, start, Call(now, total)) {
      assert Base(mid, now) == Base(start, now) + cfg.Charge(total);
    }
  }

  lemma BatchPrefix(cfg: Config, start: Key, calls: seq<Call>, more: seq<Call>)
    requires cfg.Valid()
    ensures AllAdmitted(Run(cfg, start, calls), |calls|) <==> AllAdmitted(Run(cfg, start, calls + more), |calls|)
    ensures Run(cfg, start, calls).At(|calls|) == Run(cfg, start, calls + more).At(|calls|)
  {
    forall k | 0 <= k <= |calls|
      ensures Run(cfg, start, calls).At(k) == Run(cfg, start, calls + more).At(k)
      ensures k < |calls| ==> Run(cfg, start, calls).Admitted(k) == Run(cfg, start, calls + more).Admitted(k)
    {
      PrefixRuns(cfg, start, calls, more, k);
    }
  }
}
