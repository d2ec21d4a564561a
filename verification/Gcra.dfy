/**
 * The GCRA script that the rate limiter runs inside Redis.
 *
 * A key stores one number, the theoretical arrival time (TAT), and the moment at
 * which Redis may drop it.  Clock readings are whole milliseconds; TATs are reals.
 */
module Gcra {
  import opened Options

  /** The limit and period of a key; they are the same on every call for that key. */
  datatype Config = Config(limit: nat, periodMs: nat) {
    ghost predicate Valid() {
      limit > 0 && periodMs > 0
    }

    function EmissionInterval(): (i: real)
      requires Valid()
      ensures i > 0.0
    {
      periodMs as real / limit as real
    }

    /** The time that `cost` tokens are worth, one emission interval for each (see ChargeIsProduct). */
    function Charge(cost: nat): (c: real)
      requires Valid()
      ensures c >= 0.0
      ensures cost > 0 ==> c > 0.0
    {
      if cost == 0 then 0.0 else Charge(cost - 1) + EmissionInterval()
    }
  }

  /** A stored key: its TAT, and the Redis time from which the key may be gone. */
  datatype Entry = Entry(tat: real, deadline: int)

  type Key = Option<Entry>

  datatype Reply =
    | Reply(allowed: bool, remaining: int, resetAfter: real)
    | ScriptError

  datatype Outcome = Outcome(key: Key, reply: Reply)

  datatype Call = Call(now: nat, cost: nat)

  function Ceil(x: real): (c: int)
    ensures c as real - 1.0 < x <= c as real
  {
    -((-x).Floor)
  }

  /** The TAT a call works from: a missing or stale TAT counts as `now`. */
  function Base(key: Key, now: nat): (b: real)
    ensures b >= now as real
  {
    if key.Some? && key.value.tat > now as real then key.value.tat else now as real
  }

  /** Whole tokens left when the TAT lies `ahead` milliseconds past the clock. */
  function Remaining(cfg: Config, ahead: real): (n: int)
    requires cfg.Valid()
    ensures n >= 0
  {
    var n := ((cfg.periodMs as real - ahead) / cfg.EmissionInterval()).Floor;
    if n < 0 then 0 else n
  }

  /** What the script decides: to refuse, to fail, or to store a new TAT with an expiry. */
  datatype Decision = Refuse | Fail | Store(newTat: real, px: int)

  /** `SET` with an expiry of 0 ms is an error in Redis. */
  function Decide(cfg: Config, key: Key, call: Call): (d: Decision)
    requires cfg.Valid()
  {
    var newTat := Base(key, call.now) + cfg.Charge(call.cost);
    var ahead := newTat - call.now as real;
    if ahead > cfg.periodMs as real then Refuse
    else if Ceil(ahead) <= 0 then Fail
    else Store(newTat, Ceil(ahead))
  }

  function NextKey(cfg: Config, key: Key, call: Call): (k: Key)
    requires cfg.Valid()
  {
    var d := Decide(cfg, key, call);
    if d.Store? then Some(Entry(d.newTat, call.now + d.px)) else key
  }

  function Answer(cfg: Config, key: Key, call: Call): (r: Reply)
    requires cfg.Valid()
  {
    var d := Decide(cfg, key, call);
    var ahead := (if d.Store? then d.newTat else Base(key, call.now)) - call.now as real;
    if d.Fail? then ScriptError else Reply(d.Store?, Remaining(cfg, ahead), ahead)
  }

  /** One run of the script. */
  function Script(cfg: Config, key: Key, call: Call): (o: Outcome)
    requires cfg.Valid()
  {
    Outcome(NextKey(cfg, key, call), Answer(cfg, key, call))
  }

  predicate Admits(cfg: Config, key: Key, call: Call)
    requires cfg.Valid()
  {
    Decide(cfg, key, call).Store?
  }

  predicate Denies(cfg: Config, key: Key, call: Call)
    requires cfg.Valid()
  {
    Decide(cfg, key, call).Refuse?
  }

  /** The decision is what the reply shows. */
  lemma ReplyShowsDecision(cfg: Config, key: Key, call: Call)
    requires cfg.Valid()
    ensures var r := Script(cfg, key, call).reply;
            && (Admits(cfg, key, call) <==> r.Reply? && r.allowed)
            && (Denies(cfg, key, call) <==> r.Reply? && !r.allowed)
  {
  }

  /**
   * The Redis side of the limiter: one entry per key, rewritten by each call.
   */
  class RateStore {
    var keys: map<string, Entry>

    constructor ()
      ensures keys == map[]
    {
      keys := map[];
    }

    function Lookup(name: string): (k: Key)
      reads this
    {
      if name in keys then Some(keys[name]) else None
    }

    method CheckRateLimit(name: string, cfg: Config, now: nat, cost: nat) returns (reply: Reply)
      requires cfg.Valid()
      modifies this
      ensures Outcome(Lookup(name), reply) == Script(cfg, old(Lookup(name)), Call(now, cost))
      ensures forall other :: other != name ==> Lookup(other) == old(Lookup(other))
    {
      var burstOffset := cfg.periodMs as real;
      var tat := now as real;
      if name in keys {
        tat := keys[name].tat;
      }
      if tat < now as real {
        tat := now as real;
      }
      var newTat := tat + cfg.Charge(cost);
      var allowAt := newTat - burstOffset;
      if allowAt > now as real {
        return Reply(false, Remaining(cfg, tat - now as real), tat - now as real);
      }
      var px := Ceil(newTat - now as real);
      if px <= 0 {
        return ScriptError;
      }
      keys := keys[name := Entry(newTat, now + px)];
      return Reply(true, Remaining(cfg, newTat - now as real), newTat - now as real);
    }

    /** Redis drops a key whose deadline has come. */
    method Expire(name: string, at: int)
      modifies this
      ensures Lookup(name) == Expired(old(Lookup(name)), at)
      ensures forall other :: other != name ==> Lookup(other) == old(Lookup(other))
    {
      if name in keys && keys[name].deadline <= at {
        keys := keys - {name};
      }
    }
  }

  /** The key after Redis has had the chance to drop it at time `at`. */
  function Expired(key: Key, at: int): (k: Key)
    ensures key.None? ==> k.None?
    ensures key.Some? ==> if at < key.value.deadline then k == key else k.None?
  {
    if key.Some? && key.value.deadline <= at then None else key
  }

  // ----- arithmetic of charges

  lemma IntervalTimesLimit(cfg: Config)
    requires cfg.Valid()
    ensures cfg.EmissionInterval() * cfg.limit as real == cfg.periodMs as real
  {
  }

  /** The charge is the product that the script computes. */
  lemma {:induction false} ChargeIsProduct(cfg: Config, cost: nat)
    requires cfg.Valid()
    ensures cfg.Charge(cost) == cfg.EmissionInterval() * cost as real
  {
    if cost > 0 {
      ChargeIsProduct(cfg, cost - 1);
      NextMultiple(cfg.EmissionInterval(), cost);
    }
  }

  lemma NextMultiple(i: real, n: nat)
    requires n > 0
    ensures i * n as real == i * (n - 1) as real + i
  {
  }

  lemma {:induction false} ChargeAdd(cfg: Config, a: nat, b: nat)
    requires cfg.Valid()
    ensures cfg.Charge(a + b) == cfg.Charge(a) + cfg.Charge(b)
  {
    if b > 0 {
      ChargeAdd(cfg, a, b - 1);
    }
  }

  lemma ChargeWithin(cfg: Config, n: int, span: real)
    requires cfg.Valid()
    ensures n <= (span / cfg.EmissionInterval()).Floor <==> cfg.EmissionInterval() * n as real <= span
  {
    var i := cfg.EmissionInterval();
    var q := span / i;
    assert span == i * q;
    assert n <= q.Floor <==> n as real <= q;
    if n as real <= q {
      MulMono(i, n as real, q);
    }
    if q < n as real {
      MulMonoStrict(i, q, n as real);
    }
  }

  lemma MulMono(i: real, a: real, b: real)
    requires i > 0.0 && a <= b
    ensures i * a <= i * b
  {
    assert i * (b - a) >= 0.0;
  }

  lemma MulMonoStrict(i: real, a: real, b: real)
    requires i > 0.0 && a < b
    ensures i * a < i * b
  {
    assert i * (b - a) > 0.0;
  }

  // ----- what one call means

  /** A call is refused exactly when its tokens would push the TAT more than a period ahead. */
  lemma DeniesIff(cfg: Config, key: Key, call: Call)
    requires cfg.Valid()
    ensures Denies(cfg, key, call) <==> Base(key, call.now) + cfg.Charge(call.cost) > call.now as real + cfg.periodMs as real
  {
  }

  lemma AdmitsIff(cfg: Config, key: Key, call: Call)
    requires cfg.Valid() && call.cost >= 1
    ensures Admits(cfg, key, call) <==> Base(key, call.now) + cfg.Charge(call.cost) <= call.now as real + cfg.periodMs as real
  {
  }

  lemma RemainingCovers(cfg: Config, ahead: real, n: nat)
    requires cfg.Valid() && n >= 1
    ensures n <= Remaining(cfg, ahead) <==> cfg.Charge(n) <= cfg.periodMs as real - ahead
  {
    ChargeWithin(cfg, n, cfg.periodMs as real - ahead);
    ChargeIsProduct(cfg, n);
  }

  /** The script fails only on a free call to a key that is not ahead of the clock. */
  lemma ScriptErrorIff(cfg: Config, key: Key, call: Call)
    requires cfg.Valid()
    ensures Script(cfg, key, call).reply.ScriptError? <==>
            call.cost == 0 && (key.None? || key.value.tat <= call.now as real)
    ensures Admits(cfg, key, call) ==>
              var e := Script(cfg, key, call).key.value;
              e.deadline >= call.now + 1 && e.deadline as real - 1.0 < e.tat <= e.deadline as real
  {
  }

  /**
   * `remaining` is the largest whole cost that the next call at the same instant may
   * spend, whether this call was let through or refused, and whatever the clocks did.
   */
  lemma RemainingIsExact(cfg: Config, key: Key, call: Call, n: nat)
    requires cfg.Valid() && n >= 1
    requires !Script(cfg, key, call).reply.ScriptError?
    ensures var o := Script(cfg, key, call);
            var next := Script(cfg, o.key, Call(call.now, n)).reply;
            next.Reply? && next.allowed <==> n <= o.reply.remaining
  {
    var o := Script(cfg, key, call);
    var ahead := Base(o.key, call.now) - call.now as real;
    assert o.reply.remaining == Remaining(cfg, ahead);
    RemainingCovers(cfg, ahead, n);
    AdmitsIff(cfg, o.key, Call(call.now, n));
    ReplyShowsDecision(cfg, o.key, Call(call.now, n));
  }

  /**
   * Dropping a key changes the answer to a call exactly when the key's TAT is still
   * ahead of that call's clock.
   */
  lemma DropVisibleIff(cfg: Config, entry: Entry, call: Call)
    requires cfg.Valid()
    ensures Script(cfg, None, call).reply == Script(cfg, Some(entry), call).reply <==>
            entry.tat <= call.now as real
  {
  }
}
