/**
 * Routing each request to the lowest score and counting it as active is a greedy
 * scheduler.  With latencies and eligibility fixed and no request completing, it
 * places requests optimally from any starting load.
 */
module GreedyBalance {
  import opened Ranking
  import opened Selector
  import opened PeakEwma

  function Weight(b: Backend): (w: real) {
    b.ewma + 1.0
  }

  /** The load of a backend: its latency weight times its requests in flight. */
  function Load(b: Backend): (l: real) {
    Weight(b) * b.active as real
  }

  function Admit(table: seq<Backend>, i: nat): (t: seq<Backend>)
    requires i < |table|
  {
    table[i := table[i].(active := table[i].active + 1)]
  }

  /** `table` is reached from `start` by k requests, each sent to the selector's choice. */
  ghost predicate Greedy(start: seq<Backend>, k: nat, table: seq<Backend>) {
    if k == 0 then table == start
    else exists before, i ::
           Greedy(start, k - 1, before) && IsBest(Eligible, Score, before, i) && table == Admit(before, i)
  }

  /** `table` differs from `start` only by more active requests on eligible backends. */
  ghost predicate Placement(start: seq<Backend>, table: seq<Backend>) {
    && |table| == |start|
    && forall i :: 0 <= i < |start| ==>
         && table[i] == start[i].(active := table[i].active)
         && table[i].active >= start[i].active
         && (table[i].active > start[i].active ==> Eligible(start[i]))
  }

  ghost function Added(start: seq<Backend>, table: seq<Backend>, n: nat): (k: int)
    requires n <= |start| == |table|
  {
    if n == 0 then 0 else Added(start, table, n - 1) + table[n - 1].active - start[n - 1].active
  }

  ghost predicate Latencies(start: seq<Backend>) {
    forall i :: 0 <= i < |start| ==> start[i].ewma >= 0.0
  }

  /** What the next request on an eligible backend costs is at least any load that was added. */
  ghost predicate Balanced(start: seq<Backend>, table: seq<Backend>) {
    |table| == |start| &&
    forall i, j :: 0 <= i < |start| && 0 <= j < |start| && table[i].active > start[i].active && Eligible(start[j]) ==>
      Load(table[i]) <= Score(table[j])
  }

  lemma AddedOne(start: seq<Backend>, table: seq<Backend>, i: nat, n: nat)
    requires n <= |start| == |table| && i < |table|
    ensures Added(start, Admit(table, i), n) == Added(start, table, n) + (if i < n then 1 else 0)
  {
  }

  lemma ScoreGrows(b: Backend)
    requires b.ewma >= 0.0
    ensures Score(b.(active := b.active + 1)) >= Score(b)
    ensures Load(b.(active := b.active + 1)) == Score(b)
  {
    assert Score(b.(active := b.active + 1)) == Score(b) + Weight(b);
  }

  lemma AdmitKeepsBalance(start: seq<Backend>, before: seq<Backend>, i: nat)
    requires Latencies(start) && Placement(start, before) && Balanced(start, before)
    requires IsBest(Eligible, Score, before, i)
    ensures Balanced(start, Admit(before, i))
  {
    var table := Admit(before, i);
    ScoreGrows(before[i]);
    forall a, b | 0 <= a < |start| && 0 <= b < |start| && table[a].active > start[a].active && Eligible(start[b])
      ensures Load(table[a]) <= Score(table[b])
    {
      assert Eligible(before[b]);
      assert Score(before[b]) <= Score(table[b]);
      if a == i {
        assert Score(before[i]) <= Score(before[b]);
      } else {
        assert Load(before[a]) <= Score(before[b]);
      }
    }
  }

  lemma AdmitKeepsPlacement(start: seq<Backend>, before: seq<Backend>, i: nat)
    requires Placement(start, before) && i < |before| && Eligible(before[i])
    ensures Placement(start, Admit(before, i))
  {
    assert Eligible(start[i]);
  }

  /** Greedy routing places k requests and keeps every pair of backends in balance. */
  lemma {:induction false} GreedyIsBalanced(start: seq<Backend>, k: nat, table: seq<Backend>)
    requires Latencies(start) && Greedy(start, k, table)
    ensures Placement(start, table) && Added(start, table, |start|) == k
    ensures Balanced(start, table)
  {
    if k == 0 {
      NothingAdded(start, |start|);
    } else {
      var before, i :| Greedy(start, k - 1, before) && IsBest(Eligible, Score, before, i) && table == Admit(before, i);
      GreedyIsBalanced(start, k - 1, before);
      AddedOne(start, before, i, |start|);
      AdmitKeepsPlacement(start, before, i);
      AdmitKeepsBalance(start, before, i);
    }
  }

  lemma NothingAdded(start: seq<Backend>, n: nat)
    requires n <= |start|
    ensures Added(start, start, n) == 0
  {
  }

  // ----- no other placement has a lower peak

  /** Equal totals without one backend getting more mean equal tables. */
  lemma {:induction false} LessEverywhere(start: seq<Backend>, t: seq<Backend>, u: seq<Backend>, n: nat)
    requires n <= |start| == |t| == |u|
    requires forall i :: 0 <= i < n ==> u[i].active <= t[i].active
    ensures Added(start, u, n) <= Added(start, t, n)
    ensures Added(start, u, n) == Added(start, t, n) ==> forall i :: 0 <= i < n ==> u[i].active == t[i].active
  {
    if n > 0 {
      LessEverywhere(start, t, u, n - 1);
    }
  }

  lemma LoadOrder(b: Backend, m: nat, n: nat)
    requires b.ewma >= 0.0 && m <= n
    ensures Load(b.(active := m)) <= Load(b.(active := n))
    ensures m < n ==> Score(b.(active := m)) <= Load(b.(active := n))
  {
    NonNegativeProduct(Weight(b), n as real - m as real);
    if m < n {
      NonNegativeProduct(Weight(b), n as real - m as real - 1.0);
    }
  }

  /**
   * Minimax: however else the same number of requests is placed on the eligible
   * backends, some eligible backend carries at least the greatest load that greedy
   * routing produced.
   */
  lemma GreedyMinimizesPeak(start: seq<Backend>, k: nat, table: seq<Backend>, other: seq<Backend>, i: nat)
    requires Latencies(start) && Greedy(start, k, table)
    requires Placement(start, other) && Added(start, other, |start|) == k
    requires i < |start| && Eligible(start[i]) && |table| == |start|
    ensures exists j :: 0 <= j < |start| && Eligible(start[j]) && Load(table[i]) <= Load(other[j])
  {
    GreedyIsBalanced(start, k, table);
    if other[i].active >= table[i].active {
      LoadOrder(start[i], table[i].active, other[i].active);
    } else {
      assert exists j :: 0 <= j < |start| && other[j].active > table[j].active by {
        if forall j :: 0 <= j < |start| ==> other[j].active <= table[j].active {
          LessEverywhere(start, table, other, |start|);
        }
      }
      var j :| 0 <= j < |start| && other[j].active > table[j].active;
      assert Eligible(start[j]);
      LoadOrder(start[j], table[j].active, other[j].active);
      assert Load(table[i]) <= Score(table[j]);
    }
  }

  // ----- and none has a lower total cost

  /** The scores paid for the first n requests of a backend: weight * (1 + 2 + ... + n). */
  ghost function Paid(w: real, n: nat): (c: real) {
    if n == 0 then 0.0 else Paid(w, n - 1) + w * n as real
  }

  ghost function Sum(xs: seq<real>, n: nat): (c: real)
    requires n <= |xs|
  {
    if n == 0 then 0.0 else Sum(xs, n - 1) + xs[n - 1]
  }

  ghost function Costs(table: seq<Backend>): (cs: seq<real>)
    ensures |cs| == |table|
    ensures forall i :: 0 <= i < |table| ==> cs[i] == Paid(Weight(table[i]), table[i].active)
  {
    seq(|table|, i requires 0 <= i < |table| => Paid(Weight(table[i]), table[i].active))
  }

  ghost function TotalPaid(table: seq<Backend>): (c: real) {
    Sum(Costs(table), |table|)
  }

  /** Each admission adds exactly the score that the selector compared. */
  lemma AdmissionPaysScore(table: seq<Backend>, i: nat)
    requires i < |table|
    ensures TotalPaid(Admit(table, i)) == TotalPaid(table) + Score(table[i])
  {
    var w, a := Weight(table[i]), table[i].active;
    assert Paid(w, a + 1) == Paid(w, a) + Score(table[i]);
    SumWithOneMore(Costs(table), Costs(Admit(table, i)), i, Score(table[i]), |table|);
  }

  lemma {:induction false} SumWithOneMore(xs: seq<real>, ys: seq<real>, i: nat, d: real, n: nat)
    requires n <= |xs| == |ys| && i < |xs| && ys == xs[i := xs[i] + d]
    ensures Sum(ys, n) == Sum(xs, n) + (if i < n then d else 0.0)
  {
    if n > 0 {
      SumWithOneMore(xs, ys, i, d, n - 1);
    }
  }

  /** n times the price. */
  ghost function Times(price: real, n: nat): (c: real) {
    if n == 0 then 0.0 else Times(price, n - 1) + price
  }

  lemma {:induction false} TimesAdd(price: real, m: nat, n: nat)
    ensures Times(price, m + n) == Times(price, m) + Times(price, n)
  {
    if n > 0 {
      TimesAdd(price, m, n - 1);
    }
  }

  lemma WeightOrder(w: real, m: nat, n: nat)
    requires w >= 0.0 && m <= n
    ensures w * m as real <= w * n as real
  {
    NonNegativeProduct(w, n as real - m as real);
  }

  lemma {:induction false} PaidAbove(w: real, m: nat, n: nat, price: real)
    requires w >= 0.0 && m <= n && price <= w * (m + 1) as real
    ensures Paid(w, n) - Paid(w, m) >= Times(price, n - m)
    decreases n
  {
    if m < n {
      PaidAbove(w, m, n - 1, price);
      WeightOrder(w, m + 1, n);
    }
  }

  lemma {:induction false} PaidBelow(w: real, m: nat, n: nat, price: real)
    requires w >= 0.0 && m <= n && w * n as real <= price
    ensures Paid(w, n) - Paid(w, m) <= Times(price, n - m)
    decreases n
  {
    if m < n {
      WeightOrder(w, n - 1, n);
      PaidBelow(w, m, n - 1, price);
    }
  }

  ghost predicate Price(start: seq<Backend>, table: seq<Backend>, price: real) {
    && |table| == |start|
    && (forall i :: 0 <= i < |start| && table[i].active > start[i].active ==> Load(table[i]) <= price)
    && (forall j :: 0 <= j < |start| && Eligible(start[j]) ==> price <= Score(table[j]))
  }

  /** Each backend's added requests at the given price. */
  ghost function Worths(start: seq<Backend>, table: seq<Backend>, price: real): (ws: seq<real>)
    requires Placement(start, table)
    ensures |ws| == |start|
    ensures forall i :: 0 <= i < |start| ==> ws[i] == Times(price, table[i].active - start[i].active)
  {
    seq(|start|, i requires 0 <= i < |start| => Times(price, table[i].active - start[i].active))
  }

  lemma {:induction false} WorthDependsOnTotal(start: seq<Backend>, table: seq<Backend>, price: real, n: nat)
    requires Placement(start, table) && n <= |start|
    ensures Added(start, table, n) >= 0
    ensures Sum(Worths(start, table, price), n) == Times(price, Added(start, table, n))
  {
    if n > 0 {
      WorthDependsOnTotal(start, table, price, n - 1);
      TimesAdd(price, Added(start, table, n - 1), table[n - 1].active - start[n - 1].active);
    }
  }

  lemma NoGainAt(w: real, price: real, s: nat, a: nat, b: nat)
    requires w >= 0.0 && s <= a && s <= b
    requires a < b ==> price <= w * (a + 1) as real
    requires b < a ==> w * a as real <= price
    ensures Paid(w, b) - Paid(w, a) >= Times(price, b - s) - Times(price, a - s)
  {
    if a < b {
      PaidAbove(w, a, b, price);
      TimesAdd(price, a - s, b - a);
    } else if b < a {
      PaidBelow(w, b, a, price);
      TimesAdd(price, b - s, a - b);
    }
  }

  lemma PriceAt(start: seq<Backend>, t: seq<Backend>, u: seq<Backend>, price: real, i: nat)
    requires Latencies(start) && Placement(start, t) && Placement(start, u) && i < |start|
    requires Price(start, t, price)
    ensures Weight(start[i]) >= 0.0 && Weight(t[i]) == Weight(u[i]) == Weight(start[i])
    ensures t[i].active < u[i].active ==> price <= Weight(start[i]) * (t[i].active + 1) as real
    ensures u[i].active < t[i].active ==> Weight(start[i]) * t[i].active as real <= price
  {
    assert Score(t[i]) == Weight(t[i]) * (t[i].active + 1) as real;
  }

  lemma {:induction false} SumsCompare(c: seq<real>, d: seq<real>, v: seq<real>, w: seq<real>, n: nat)
    requires n <= |c| == |d| == |v| == |w|
    requires forall i :: 0 <= i < |c| ==> d[i] - c[i] >= w[i] - v[i]
    ensures Sum(d, n) - Sum(c, n) >= Sum(w, n) - Sum(v, n)
  {
    if n > 0 {
      SumsCompare(c, d, v, w, n - 1);
    }
  }

  /** Moving requests away from a balanced table never pays, backend by backend. */
  lemma NoGain(start: seq<Backend>, t: seq<Backend>, u: seq<Backend>, price: real)
    requires Latencies(start) && Placement(start, t) && Placement(start, u) && Price(start, t, price)
    ensures TotalPaid(u) - TotalPaid(t) >=
            Sum(Worths(start, u, price), |start|) - Sum(Worths(start, t, price), |start|)
  {
    var c, d, v, w := Costs(t), Costs(u), Worths(start, t, price), Worths(start, u, price);
    forall i | 0 <= i < |start|
      ensures d[i] - c[i] >= w[i] - v[i]
    {
      NoGainFor(start, t, u, price, i);
    }
    SumsCompare(c, d, v, w, |start|);
  }

  lemma NoGainFor(start: seq<Backend>, t: seq<Backend>, u: seq<Backend>, price: real, i: nat)
    requires Latencies(start) && Placement(start, t) && Placement(start, u) && Price(start, t, price) && i < |start|
    ensures Costs(u)[i] - Costs(t)[i] >= Worths(start, u, price)[i] - Worths(start, t, price)[i]
  {
    PriceAt(start, t, u, price, i);
    NoGainAt(Weight(start[i]), price, start[i].active, t[i].active, u[i].active);
  }

  lemma {:induction false} PriceExists(start: seq<Backend>, t: seq<Backend>) returns (price: real)
    requires Balanced(start, t)
    requires exists j :: 0 <= j < |start| && Eligible(start[j])
    ensures Price(start, t, price)
  {
    var j := MinScore(start, t, |start|);
    price := Score(t[j]);
  }

  lemma {:induction false} MinScore(start: seq<Backend>, t: seq<Backend>, n: nat) returns (j: nat)
    requires n <= |start| == |t|
    requires exists i :: 0 <= i < n && Eligible(start[i])
    ensures j < n && Eligible(start[j])
    ensures forall i :: 0 <= i < n && Eligible(start[i]) ==> Score(t[j]) <= Score(t[i])
  {
    if exists i :: 0 <= i < n - 1 && Eligible(start[i]) {
      j := MinScore(start, t, n - 1);
      if Eligible(start[n - 1]) && Score(t[n - 1]) < Score(t[j]) {
        j := n - 1;
      }
    } else {
      j := n - 1;
    }
  }

  /**
   * The total of the scores at which requests are admitted is also the least possible
   * for that many requests.
   */
  lemma GreedyMinimizesTotal(start: seq<Backend>, k: nat, table: seq<Backend>, other: seq<Backend>)
    requires Latencies(start) && Greedy(start, k, table)
    requires Placement(start, other) && Added(start, other, |start|) == k
    ensures |table| == |start| && TotalPaid(table) <= TotalPaid(other)
  {
    GreedyIsBalanced(start, k, table);
    BalancedIsCheapest(start, table, other);
  }

  lemma BalancedIsCheapest(start: seq<Backend>, table: seq<Backend>, other: seq<Backend>)
    requires Latencies(start) && Placement(start, table) && Balanced(start, table)
    requires Placement(start, other) && Added(start, other, |start|) == Added(start, table, |start|)
    ensures TotalPaid(table) <= TotalPaid(other)
  {
    if exists j :: 0 <= j < |start| && Eligible(start[j]) {
      var price := PriceExists(start, table);
      NoGain(start, table, other, price);
      WorthDependsOnTotal(start, table, price, |start|);
      WorthDependsOnTotal(start, other, price, |start|);
    } else {
      assert table == start && other == start;
    }
  }
}
