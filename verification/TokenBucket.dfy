/**
 * A continuous token bucket, and the proof that the GCRA script is one.
 *
 * The bucket starts full, refills linearly at `limit` tokens per period up to `limit`,
 * and lets a call through exactly when it holds the tokens the call costs.
 */
module TokenBucket {
  import opened Gcra
  import opened GcraRuns

  datatype Bucket = Bucket(tokens: real, at: nat)

  datatype Draw = Draw(bucket: Bucket, reply: Reply)

  function Refill(cfg: Config, b: Bucket, now: nat): (tokens: real)
    requires cfg.Valid()
    ensures tokens <= cfg.limit as real
  {
    var grown := b.tokens + (now as real - b.at as real) / cfg.EmissionInterval();
    if grown > cfg.limit as real then cfg.limit as real else grown
  }

  /** The time in which a bucket with this many tokens refills completely. */
  function TimeToFull(cfg: Config, tokens: real): (ms: real)
    requires cfg.Valid()
  {
    cfg.EmissionInterval() * (cfg.limit as real - tokens)
  }

  function Take(cfg: Config, b: Bucket, call: Call): (d: Draw)
    requires cfg.Valid()
  {
    var tokens := Refill(cfg, b, call.now);
    var cost := call.cost as real;
    if tokens < cost then
      Draw(Bucket(tokens, call.now), Reply(false, tokens.Floor, TimeToFull(cfg, tokens)))
    else if call.cost == 0 && tokens == cfg.limit as real then
      Draw(Bucket(tokens, call.now), ScriptError)
    else
      Draw(Bucket(tokens - cost, call.now), Reply(true, (tokens - cost).Floor, TimeToFull(cfg, tokens - cost)))
  }

  /** The bucket after the first k calls of a run. */
  function BucketAt(run: Run, k: nat): (b: Bucket)
    requires run.Valid() && k <= |run.calls|
  {
    if k == 0 then Bucket(run.cfg.limit as real, 0)
    else Take(run.cfg, BucketAt(run, k - 1), run.calls[k - 1]).bucket
  }

  /** The simulation relation: the missing tokens are worth the time the TAT is ahead. */
  ghost predicate Simulates(cfg: Config, b: Bucket, key: Key)
    requires cfg.Valid()
  {
    && 0.0 <= b.tokens <= cfg.limit as real
    && TimeToFull(cfg, b.tokens) == Base(key, b.at) - b.at as real
  }

  // ----- arithmetic between tokens and time

  lemma TimeToFullOrder(cfg: Config, a: real, b: real)
    requires cfg.Valid()
    ensures a <= b <==> TimeToFull(cfg, a) >= TimeToFull(cfg, b)
  {
    var i, l := cfg.EmissionInterval(), cfg.limit as real;
    if a <= b {
      MulMono(i, l - b, l - a);
    } else {
      MulMonoStrict(i, l - a, l - b);
    }
  }

  lemma TimeToFullMinus(cfg: Config, tokens: real, cost: nat)
    requires cfg.Valid()
    ensures TimeToFull(cfg, tokens - cost as real) == TimeToFull(cfg, tokens) + cfg.Charge(cost)
  {
    var i, l := cfg.EmissionInterval(), cfg.limit as real;
    ChargeIsProduct(cfg, cost);
    assert i * (l - (tokens - cost as real)) == i * (l - tokens) + i * cost as real;
  }

  lemma TimeToFullEnds(cfg: Config)
    requires cfg.Valid()
    ensures TimeToFull(cfg, cfg.limit as real) == 0.0
    ensures TimeToFull(cfg, 0.0) == cfg.periodMs as real
  {
    IntervalTimesLimit(cfg);
  }

  /** Whole tokens in the bucket are the tokens the script reports as remaining. */
  lemma FloorIsRemaining(cfg: Config, tokens: real)
    requires cfg.Valid() && tokens >= 0.0
    ensures tokens.Floor == Remaining(cfg, TimeToFull(cfg, tokens))
  {
    var i, l := cfg.EmissionInterval(), cfg.limit as real;
    IntervalTimesLimit(cfg);
    assert i * (l - tokens) == i * l - i * tokens;
    DivideOut(i, tokens, cfg.periodMs as real - TimeToFull(cfg, tokens));
  }

  lemma DivideOut(i: real, x: real, y: real)
    requires i > 0.0 && y == i * x
    ensures y / i == x
  {
  }

  /** Refilling lets exactly the elapsed time off the TAT's lead, down to zero. */
  lemma RefillTime(cfg: Config, b: Bucket, now: nat)
    requires cfg.Valid()
    ensures TimeToFull(cfg, Refill(cfg, b, now)) ==
            var left := TimeToFull(cfg, b.tokens) - (now as real - b.at as real);
            if left < 0.0 then 0.0 else left
  {
    var i, l := cfg.EmissionInterval(), cfg.limit as real;
    var gain := (now as real - b.at as real) / i;
    assert i * gain == now as real - b.at as real;
    assert i * (l - (b.tokens + gain)) == i * (l - b.tokens) - i * gain;
    TimeToFullOrder(cfg, b.tokens + gain, l);
    TimeToFullOrder(cfg, l, b.tokens + gain);
    TimeToFullEnds(cfg);
  }

  // ----- the refinement

  /** The refilled bucket tells how far the TAT is ahead of the new clock reading. */
  lemma RefillSimulates(cfg: Config, b: Bucket, key: Key, now: nat)
    requires cfg.Valid() && Simulates(cfg, b, key) && b.at <= now
    ensures Simulates(cfg, Bucket(Refill(cfg, b, now), now), key)
  {
    RefillTime(cfg, b, now);
    TimeToFullEnds(cfg);
    TimeToFullOrder(cfg, 0.0, b.tokens);
    TimeToFullOrder(cfg, 0.0, Refill(cfg, b, now));
  }

  lemma TakeSimulates(cfg: Config, b: Bucket, key: Key, call: Call)
    requires cfg.Valid() && Simulates(cfg, b, key) && b.at <= call.now
    ensures Take(cfg, b, call).reply == Script(cfg, key, call).reply
    ensures Simulates(cfg, Take(cfg, b, call).bucket, Script(cfg, key, call).key)
  {
    RefillSimulates(cfg, b, key, call.now);
    TakeAfterRefill(cfg, Refill(cfg, b, call.now), b, key, call);
  }

  lemma TakeAfterRefill(cfg: Config, tokens: real, b: Bucket, key: Key, call: Call)
    requires cfg.Valid() && tokens == Refill(cfg, b, call.now)
    requires Simulates(cfg, Bucket(tokens, call.now), key)
    ensures Take(cfg, b, call).reply == Script(cfg, key, call).reply
    ensures Simulates(cfg, Take(cfg, b, call).bucket, Script(cfg, key, call).key)
  {
    var left := tokens - call.cost as real;
    TimeToFullEnds(cfg);
    TimeToFullMinus(cfg, tokens, call.cost);
    TimeToFullOrder(cfg, 0.0, left);
    TimeToFullOrder(cfg, cfg.limit as real, tokens);
    DeniesIff(cfg, key, call);
    ScriptErrorIff(cfg, key, call);
    FloorIsRemaining(cfg, tokens);
    if tokens >= call.cost as real {
      FloorIsRemaining(cfg, left);
    }
  }

  lemma {:induction false} RunSimulates(run: Run, k: nat)
    requires run.Valid() && run.Ordered() && run.start.None? && k <= |run.calls|
    ensures Simulates(run.cfg, BucketAt(run, k), run.At(k))
    ensures BucketAt(run, k).at == if k == 0 then 0 else run.calls[k - 1].now
  {
    if k == 0 {
      TimeToFullEnds(run.cfg);
    } else {
      RunSimulates(run, k - 1);
      TakeSimulates(run.cfg, BucketAt(run, k - 1), run.At(k - 1), run.calls[k - 1]);
    }
  }

  /**
   * Over every run whose clock does not go back, the script answers each call as the
   * token bucket does, lets it through exactly when the bucket holds its cost, and the
   * bucket never holds less than nothing or more than the limit.
   */
  lemma ScriptIsATokenBucket(run: Run, k: nat)
    requires run.Valid() && run.Ordered() && run.start.None? && k < |run.calls|
    ensures run.ReplyTo(k) == Take(run.cfg, BucketAt(run, k), run.calls[k]).reply
    ensures run.Denied(k) <==> Refill(run.cfg, BucketAt(run, k), run.calls[k].now) < run.calls[k].cost as real
    ensures 0.0 <= BucketAt(run, k).tokens <= run.cfg.limit as real
  {
    RunSimulates(run, k);
    TakeSimulates(run.cfg, BucketAt(run, k), run.At(k), run.calls[k]);
  }
}
