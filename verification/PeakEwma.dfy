/**
 * The Peak EWMA latency tracker: a peak is taken over at once, a lower sample is
 * approached by exponential decay.  Latencies are reals.
 */
module PeakEwma {

  const U64_MAX := 0xFFFF_FFFF_FFFF_FFFF

  /** Plain exponential smoothing: `alpha` is the weight of the old value. */
  function Smooth(alpha: real, current: real, rtt: real): (next: real) {
    rtt * (1.0 - alpha) + current * alpha
  }

  function PeakStep(alpha: real, current: real, rtt: real): (next: real) {
    if rtt > current then rtt else Smooth(alpha, current, rtt)
  }

  /** The tracker's value after the given samples, oldest first. */
  function Peak(alpha: real, initial: real, samples: seq<real>): (e: real) {
    if samples == [] then initial
    else
      var last := |samples| - 1;
      PeakStep(alpha, Peak(alpha, initial, samples[..last]), samples[last])
  }

  /**
   * One backend's tracker.  Only this thread touches the object here; the module
   * PeakEwmaConcurrent interleaves threads.
   */
  class Tracker {
    const alpha: real
    var ewma: real
    var active: nat

    constructor (initialLatencyMs: real, decayAlpha: real)
      ensures alpha == decayAlpha && ewma == initialLatencyMs && active == 0
    {
      alpha := decayAlpha;
      ewma := initialLatencyMs;
      active := 0;
    }

    /** The CAS may fail spuriously; `spurious` says how many times it does. */
    method ObserveLatency(rtt: real, spurious: nat)
      modifies this`ewma
      ensures ewma == PeakStep(alpha, old(ewma), rtt)
    {
      var current := ewma;
      var failures := 0;
      while true
        invariant failures <= spurious
        invariant current == ewma == old(ewma)
        decreases spurious - failures
      {
        var next := if rtt > current then rtt else rtt * (1.0 - alpha) + current * alpha;
        if ewma == current && failures == spurious {
          ewma := next;
          break;
        }
        current := ewma;
        failures := failures + 1;
      }
    }

    method IncrementActive()
      modifies this`active
      ensures active == old(active) + 1
    {
      active := active + 1;
    }

    /** Dropping the guard: an atomic subtraction on an unsigned 64-bit number. */
    method DropGuard()
      modifies this`active
      ensures active == Decremented(old(active))
    {
      active := Decremented(active);
    }

    function Score(): (s: real)
      reads this
    {
      ScoreOf(ewma, active)
    }
  }

  function Decremented(active: nat): (n: nat)
    ensures active > 0 <==> n == active - 1
    ensures active == 0 ==> n + 1 == 0x1_0000_0000_0000_0000
  {
    if active == 0 then U64_MAX else active - 1
  }

  /** The cost of routing to a backend; lower is better. */
  function ScoreOf(ewma: real, active: nat): (s: real)
    ensures ewma >= 0.0 ==> s >= 1.0
  {
    assert ewma >= 0.0 ==> (ewma + 1.0) * (active as real + 1.0) >= 1.0 by {
      if ewma >= 0.0 {
        assert ewma * (active as real + 1.0) >= 0.0;
      }
    }
    (ewma + 1.0) * (active as real + 1.0)
  }

  // ----- one step

  predicate Decay(alpha: real) {
    0.0 <= alpha <= 1.0
  }

  /** With alpha in [0, 1] a step gives the greater of the sample and the smoothed value. */
  lemma StepIsMax(alpha: real, e: real, x: real)
    requires Decay(alpha)
    ensures PeakStep(alpha, e, x) >= x && PeakStep(alpha, e, x) >= Smooth(alpha, e, x)
    ensures PeakStep(alpha, e, x) == x || PeakStep(alpha, e, x) == Smooth(alpha, e, x)
  {
    SmoothBetween(alpha, e, x);
  }

  lemma NonNegativeProduct(a: real, b: real)
    requires a >= 0.0 && b >= 0.0
    ensures a * b >= 0.0
  {
  }

  lemma SmoothBetween(alpha: real, e: real, x: real)
    requires Decay(alpha)
    ensures e <= x ==> e <= Smooth(alpha, e, x) <= x
    ensures x <= e ==> x <= Smooth(alpha, e, x) <= e
  {
    assert Smooth(alpha, e, x) == x + alpha * (e - x);
    assert Smooth(alpha, e, x) == e + (1.0 - alpha) * (x - e);
    if e <= x {
      NonNegativeProduct(alpha, x - e);
      NonNegativeProduct(1.0 - alpha, x - e);
    } else {
      NonNegativeProduct(alpha, e - x);
      NonNegativeProduct(1.0 - alpha, e - x);
    }
  }

  /** A step never leaves the range of its two arguments exactly when alpha is in [0, 1]. */
  lemma StepStaysBetweenIff(alpha: real)
    ensures (forall e, x :: (if e < x then e else x) <= PeakStep(alpha, e, x) <= (if e < x then x else e)) <==> Decay(alpha)
  {
    if Decay(alpha) {
      forall e, x
        ensures (if e < x then e else x) <= PeakStep(alpha, e, x) <= (if e < x then x else e)
      {
        SmoothBetween(alpha, e, x);
      }
    } else {
      assert PeakStep(alpha, 1.0, 0.0) == alpha;
    }
  }

  // ----- whole sample sequences

  /**
   * The plain EWMA that starts afresh at position k: from the initial value when k is 0,
   * otherwise from sample k - 1, and is then fed the samples from k on.
   */
  function Restarted(alpha: real, initial: real, samples: seq<real>, k: nat): (e: real)
    requires k <= |samples|
  {
    if k == |samples| then
      (if k == 0 then initial else samples[k - 1])
    else
      var last := |samples| - 1;
      Smooth(alpha, Restarted(alpha, initial, samples[..last], k), samples[last])
  }

  lemma SmoothMonotone(alpha: real, e: real, f: real, x: real)
    requires Decay(alpha) && e <= f
    ensures Smooth(alpha, e, x) <= Smooth(alpha, f, x)
  {
    NonNegativeProduct(alpha, f - e);
  }

  /** Peak EWMA is at least every restarted plain EWMA ... */
  lemma {:induction false} PeakDominates(alpha: real, initial: real, samples: seq<real>, k: nat)
    requires Decay(alpha) && k <= |samples|
    ensures Peak(alpha, initial, samples) >= Restarted(alpha, initial, samples, k)
  {
    if samples != [] {
      var last := |samples| - 1;
      var before := samples[..last];
      StepIsMax(alpha, Peak(alpha, initial, before), samples[last]);
      if k <= last {
        PeakDominates(alpha, initial, before, k);
        SmoothMonotone(alpha, Restarted(alpha, initial, before, k), Peak(alpha, initial, before), samples[last]);
      }
    }
  }

  /** ... and equals one of them, so it is their maximum. */
  lemma {:induction false} PeakIsARestart(alpha: real, initial: real, samples: seq<real>) returns (k: nat)
    requires Decay(alpha)
    ensures k <= |samples|
    ensures Peak(alpha, initial, samples) == Restarted(alpha, initial, samples, k)
  {
    if samples == [] {
      k := 0;
    } else {
      var last := |samples| - 1;
      var before := samples[..last];
      StepIsMax(alpha, Peak(alpha, initial, before), samples[last]);
      if Peak(alpha, initial, samples) == samples[last] {
        k := |samples|;
      } else {
        k := PeakIsARestart(alpha, initial, before);
      }
    }
  }

  /** Peak EWMA is the greatest plain EWMA over all restarts. */
  lemma PeakIsMaxOverRestarts(alpha: real, initial: real, samples: seq<real>)
    requires Decay(alpha)
    ensures forall k :: 0 <= k <= |samples| ==> Restarted(alpha, initial, samples, k) <= Peak(alpha, initial, samples)
    ensures exists k :: 0 <= k <= |samples| && Restarted(alpha, initial, samples, k) == Peak(alpha, initial, samples)
  {
    forall k | 0 <= k <= |samples|
      ensures Restarted(alpha, initial, samples, k) <= Peak(alpha, initial, samples)
    {
      PeakDominates(alpha, initial, samples, k);
    }
    var k := PeakIsARestart(alpha, initial, samples);
  }

  /** It stays within everything seen so far, and never below the latest sample. */
  lemma {:induction false} PeakStaysInRange(alpha: real, initial: real, samples: seq<real>, lo: real, hi: real)
    requires Decay(alpha) && lo <= initial <= hi
    requires forall i :: 0 <= i < |samples| ==> lo <= samples[i] <= hi
    ensures lo <= Peak(alpha, initial, samples) <= hi
    ensures samples != [] ==> Peak(alpha, initial, samples) >= samples[|samples| - 1]
  {
    if samples != [] {
      var last := |samples| - 1;
      PeakStaysInRange(alpha, initial, samples[..last], lo, hi);
      SmoothBetween(alpha, Peak(alpha, initial, samples[..last]), samples[last]);
    }
  }

  function Pow(a: real, n: nat): (p: real) {
    if n == 0 then 1.0 else a * Pow(a, n - 1)
  }

  /** A distance that shrinks by alpha n times. */
  function Decayed(alpha: real, n: nat, d: real): (r: real) {
    if n == 0 then d else alpha * Decayed(alpha, n - 1, d)
  }

  lemma {:induction false} DecayedIsPower(alpha: real, n: nat, d: real)
    ensures Decayed(alpha, n, d) == Pow(alpha, n) * d
  {
    if n > 0 {
      DecayedIsPower(alpha, n - 1, d);
      Associate(alpha, Pow(alpha, n - 1), d);
    }
  }

  lemma Associate(a: real, b: real, c: real)
    ensures a * (b * c) == (a * b) * c
  {
  }

  lemma {:induction false} DecayedNonNegative(alpha: real, n: nat, d: real)
    requires alpha >= 0.0 && d >= 0.0
    ensures Decayed(alpha, n, d) >= 0.0
  {
    if n > 0 {
      DecayedNonNegative(alpha, n - 1, d);
      NonNegativeProduct(alpha, Decayed(alpha, n - 1, d));
    }
  }

  lemma {:induction false} RestartIgnoresStart(alpha: real, e: real, f: real, samples: seq<real>, k: nat)
    requires 0 < k <= |samples|
    ensures Restarted(alpha, e, samples, k) == Restarted(alpha, f, samples, k)
  {
    if k < |samples| {
      RestartIgnoresStart(alpha, e, f, samples[..|samples| - 1], k);
    }
  }

  lemma SmoothGap(alpha: real, e: real, f: real, x: real)
    ensures Smooth(alpha, f, x) - Smooth(alpha, e, x) == alpha * (f - e)
  {
  }

  lemma {:induction false} PlainGap(alpha: real, e: real, d: real, samples: seq<real>)
    ensures Restarted(alpha, e + d, samples, 0) == Restarted(alpha, e, samples, 0) + Decayed(alpha, |samples|, d)
  {
    if samples != [] {
      var last := |samples| - 1;
      var before := samples[..last];
      PlainGap(alpha, e, d, before);
      SmoothGap(alpha, Restarted(alpha, e, before, 0), Restarted(alpha, e + d, before, 0), samples[last]);
    }
  }

  /**
   * The start is forgotten: after n samples at most alpha^n of a difference in it is
   * left (see DecayedIsPower).
   */
  lemma StartIsForgotten(alpha: real, e: real, d: real, samples: seq<real>)
    requires Decay(alpha) && d >= 0.0
    ensures 0.0 <= Peak(alpha, e + d, samples) - Peak(alpha, e, samples) <= Decayed(alpha, |samples|, d)
  {
    var low := PeakIsARestart(alpha, e, samples);
    var high := PeakIsARestart(alpha, e + d, samples);
    PeakDominates(alpha, e + d, samples, low);
    PeakDominates(alpha, e, samples, high);
    PlainGap(alpha, e, d, samples);
    if low > 0 {
      RestartIgnoresStart(alpha, e, e + d, samples, low);
    }
    if high > 0 {
      RestartIgnoresStart(alpha, e, e + d, samples, high);
    }
    DecayedNonNegative(alpha, |samples|, d);
  }

  lemma DecayStep(alpha: real, r: real, lead: real)
    requires lead >= 0.0
    ensures PeakStep(alpha, r + lead, r) == r + alpha * lead
  {
  }

  lemma {:induction false} LeadDecays(alpha: real, initial: real, r: real, samples: seq<real>)
    requires Decay(alpha) && r <= initial
    requires forall i :: 0 <= i < |samples| ==> samples[i] == r
    ensures Peak(alpha, initial, samples) == r + Decayed(alpha, |samples|, initial - r)
  {
    if samples != [] {
      var last := |samples| - 1;
      LeadDecays(alpha, initial, r, samples[..last]);
      DecayedNonNegative(alpha, last, initial - r);
      DecayStep(alpha, r, Decayed(alpha, last, initial - r));
    }
  }

  /** Under a constant latency r not above the start, the decay is exactly geometric. */
  lemma ConstantDecay(alpha: real, initial: real, r: real, samples: seq<real>)
    requires Decay(alpha) && r <= initial
    requires forall i :: 0 <= i < |samples| ==> samples[i] == r
    ensures Peak(alpha, initial, samples) == r + Pow(alpha, |samples|) * (initial - r)
  {
    LeadDecays(alpha, initial, r, samples);
    DecayedIsPower(alpha, |samples|, initial - r);
  }
}
