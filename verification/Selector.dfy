/** Choosing a backend from one snapshot of the routing table. */
module Selector {
  import opened Options
  import opened CircuitBreaker
  import opened PeakEwma
  import opened Ranking

  /** What a selection sees of a backend. */
  datatype Backend = Backend(
    id: nat,
    addr: nat,
    healthy: bool,
    circuit: CircuitState,
    ewma: real,
    active: nat,
    models: seq<string>)

  function Score(b: Backend): (s: real) {
    ScoreOf(b.ewma, b.active)
  }

  predicate Healthy(b: Backend) {
    b.healthy
  }

  predicate Eligible(b: Backend) {
    b.healthy && b.circuit != Open
  }

  function SelectBest(table: seq<Backend>): (r: Option<Backend>)
  {
    MinBy(Score, Filter(Eligible, table))
  }

  /** The choice is the first lowest-scored eligible backend, and there is one unless none is eligible. */
  lemma SelectBestIsFirstMinimum(table: seq<Backend>)
    ensures SelectBest(table).None? <==> forall i :: 0 <= i < |table| ==> !Eligible(table[i])
    ensures forall i :: IsBest(Eligible, Score, table, i) ==> SelectBest(table) == Some(table[i])
    ensures SelectBest(table).Some? ==> exists i :: IsBest(Eligible, Score, table, i) && SelectBest(table).value == table[i]
  {
    var k := MinByFindsBest(Eligible, Score, table);
    forall i | IsBest(Eligible, Score, table, i)
      ensures SelectBest(table) == Some(table[i])
    {
      BestIsMinBy(Eligible, Score, table, i);
    }
    if SelectBest(table).Some? {
      assert IsBest(Eligible, Score, table, k);
    }
  }

  method SelectHealthyBackends(table: seq<Backend>) returns (healthy: seq<Backend>)
    ensures StableSort(Score, healthy, Filter(Eligible, table))
  {
    var collected := [];
    for i := 0 to |table|
      invariant collected == Filter(Eligible, table[..i])
    {
      assert table[..i + 1][..i] == table[..i];
      if table[i].healthy && table[i].circuit != Open {
        collected := collected + [table[i]];
      }
    }
    assert table[..|table|] == table;
    healthy := SortBy(Score, collected);
  }

  /** The sorted list holds each eligible backend once per occurrence, and begins with the selector's choice. */
  lemma SortedListAgrees(table: seq<Backend>, healthy: seq<Backend>)
    requires StableSort(Score, healthy, Filter(Eligible, table))
    ensures forall b :: multiset(healthy)[b] == if Eligible(b) then multiset(table)[b] else 0
    ensures SelectBest(table) == if healthy == [] then None else Some(healthy[0])
  {
    StableSortIsPermutation(Score, healthy, Filter(Eligible, table));
    forall b ensures multiset(healthy)[b] == if Eligible(b) then multiset(table)[b] else 0 {
      FilterCounts(Eligible, table, b);
    }
    SortedHeadIsMin(Score, healthy, Filter(Eligible, table));
  }
}
