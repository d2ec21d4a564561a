/** The routing table: atomic replacement, and the two selections it offers itself. */
module Routing {
  import opened Options
  import opened CircuitBreaker
  import opened Ranking
  import opened Selector

  /** The lowest-scored healthy backend; unlike SelectBest this ignores the circuit breaker. */
  function GetBest(table: seq<Backend>): (r: Option<Backend>) {
    MinBy(Score, Filter(Healthy, table))
  }

  /** The first lowest-scored healthy backend is found, open circuit or not, and nothing is found only if none is healthy. */
  lemma GetBestIsFirstMinimum(table: seq<Backend>)
    ensures forall i :: IsBest(Healthy, Score, table, i) ==> GetBest(table) == Some(table[i])
    ensures GetBest(table).None? <==> forall i :: 0 <= i < |table| ==> !table[i].healthy
  {
    var k := MinByFindsBest(Healthy, Score, table);
    BestOrNone(Healthy, table);
    if GetBest(table).Some? {
      assert table[k].healthy;
    }
  }

  /**
   * Both selections agree exactly when the first lowest-scored healthy backend of the
   * table, if there is one, does not have an open circuit.
   */
  lemma SelectionsAgreeIff(table: seq<Backend>)
    ensures GetBest(table) == SelectBest(table) <==>
            forall i :: IsBest(Healthy, Score, table, i) ==> table[i].circuit != Open
  {
    NarrowingKeepsWinnerIff(Healthy, Eligible, Score, table);
    BestOrNone(Healthy, table);
  }

  /** Either no backend qualifies, or exactly one position is the best and the fold returns what stands there. */
  lemma BestOrNone(p: Backend -> bool, table: seq<Backend>)
    ensures MinBy(Score, Filter(p, table)).None? ==> forall i :: !IsBest(p, Score, table, i)
    ensures MinBy(Score, Filter(p, table)).Some? ==>
              && (exists i :: IsBest(p, Score, table, i))
              && forall i :: IsBest(p, Score, table, i) ==> MinBy(Score, Filter(p, table)).value == table[i]
  {
    var k := MinByFindsBest(p, Score, table);
    forall i | IsBest(p, Score, table, i)
      ensures MinBy(Score, Filter(p, table)) == Some(table[i])
    {
      BestIsMinBy(p, Score, table, i);
    }
    if MinBy(Score, Filter(p, table)).Some? {
      assert IsBest(p, Score, table, k);
    }
  }

  /** Two backends as created, but for the open circuit of the first. */
  const OPEN_FIRST := [
    Backend(1, 8080, true, Open, 50.0, 0, ["gpt-4"]),
    Backend(2, 8081, true, Closed, 50.0, 0, ["gpt-4"])]

  /** On this table the selections differ. */
  lemma SelectionsCanDiffer()
    ensures GetBest(OPEN_FIRST) == Some(OPEN_FIRST[0]) && SelectBest(OPEN_FIRST) == Some(OPEN_FIRST[1])
  {
    assert Score(OPEN_FIRST[0]) == Score(OPEN_FIRST[1]);
    assert IsBest(Healthy, Score, OPEN_FIRST, 0);
    assert IsBest(Eligible, Score, OPEN_FIRST, 1);
    BestIsMinBy(Healthy, Score, OPEN_FIRST, 0);
    BestIsMinBy(Eligible, Score, OPEN_FIRST, 1);
  }

  // ----- model fallback

  function Serving(p: Backend -> bool, model: string): (q: Backend -> bool) {
    (b: Backend) => p(b) && model in b.models
  }

  function BestFor(p: Backend -> bool, table: seq<Backend>, model: string): (r: Option<Backend>) {
    MinBy(Score, Filter(Serving(p, model), table))
  }

  /** The best backend for the earliest model that has one. */
  function FirstServed(p: Backend -> bool, table: seq<Backend>, models: seq<string>): (r: Option<Backend>) {
    if models == [] then None
    else if BestFor(p, table, models[0]).Some? then BestFor(p, table, models[0])
    else FirstServed(p, table, models[1..])
  }

  /** Some backend in the table satisfies p and serves the model. */
  ghost predicate Served(p: Backend -> bool, table: seq<Backend>, model: string) {
    exists i :: 0 <= i < |table| && p(table[i]) && model in table[i].models
  }

  lemma BestForIffServed(p: Backend -> bool, table: seq<Backend>, model: string)
    ensures BestFor(p, table, model).Some? <==> Served(p, table, model)
    ensures BestFor(p, table, model).Some? ==>
              exists i :: IsBest(Serving(p, model), Score, table, i) && BestFor(p, table, model).value == table[i]
  {
    var i := MinByFindsBest(Serving(p, model), Score, table);
    if Served(p, table, model) {
      var j :| 0 <= j < |table| && p(table[j]) && model in table[j].models;
      assert Serving(p, model)(table[j]);
    }
  }

  /**
   * A search fails exactly when no listed model is served; otherwise it returns the
   * first minimum for a model before which no listed model is served.
   */
  lemma {:induction false} FirstServedMeaning(p: Backend -> bool, table: seq<Backend>, models: seq<string>) returns (k: int)
    ensures FirstServed(p, table, models).None? <==> forall i :: 0 <= i < |models| ==> !Served(p, table, models[i])
    ensures FirstServed(p, table, models).Some? ==>
              && 0 <= k < |models|
              && FirstServed(p, table, models) == BestFor(p, table, models[k])
              && Served(p, table, models[k])
              && forall i :: 0 <= i < k ==> !Served(p, table, models[i])
  {
    if models == [] {
      k := 0;
    } else {
      BestForIffServed(p, table, models[0]);
      if BestFor(p, table, models[0]).Some? {
        k := 0;
      } else {
        k := FirstServedMeaning(p, table, models[1..]);
        k := k + 1;
        assert forall i :: 0 < i < |models| ==> models[i] == models[1..][i - 1];
      }
    }
  }

  /** Model k is the earliest listed one that some backend satisfying p serves. */
  ghost predicate EarliestServed(p: Backend -> bool, table: seq<Backend>, models: seq<string>, k: int) {
    0 <= k < |models| && Served(p, table, models[k]) && forall i :: 0 <= i < k ==> !Served(p, table, models[i])
  }

  lemma {:induction false} NeverOpen(table: seq<Backend>, models: seq<string>)
    ensures FirstServed(Eligible, table, models).Some? ==> FirstServed(Eligible, table, models).value.circuit != Open
  {
    if models != [] {
      var i := MinByFindsBest(Serving(Eligible, models[0]), Score, table);
      NeverOpen(table, models[1..]);
    }
  }

  lemma {:induction false} SearchKeepsWinnerIff(table: seq<Backend>, models: seq<string>)
    ensures FirstServed(Healthy, table, models) == FirstServed(Eligible, table, models) <==>
            (FirstServed(Healthy, table, models).Some? ==> FirstServed(Healthy, table, models).value.circuit != Open)
  {
    if models != [] {
      var model := models[0];
      NarrowingKeepsWinnerIff(Serving(Healthy, model), Serving(Eligible, model), Score, table);
      var i := MinByFindsBest(Serving(Healthy, model), Score, table);
      var j := MinByFindsBest(Serving(Eligible, model), Score, table);
      if BestFor(Healthy, table, model).None? {
        SearchKeepsWinnerIff(table, models[1..]);
      } else if table[i].circuit == Open {
        NeverOpen(table, models);
      }
    }
  }

  /**
   * The model search does not look at circuit breakers.  It makes the choice that a
   * search respecting them would make exactly when the first lowest-scored healthy
   * server of the earliest served model, if there is one, is not an open circuit.
   */
  lemma FallbackRespectsBreakersIff(table: seq<Backend>, models: seq<string>)
    ensures FirstServed(Healthy, table, models) == FirstServed(Eligible, table, models) <==>
            forall k, i :: EarliestServed(Healthy, table, models, k) && IsBest(Serving(Healthy, models[k]), Score, table, i) ==>
              table[i].circuit != Open
  {
    SearchKeepsWinnerIff(table, models);
    var k := FirstServedMeaning(Healthy, table, models);
    if FirstServed(Healthy, table, models).Some? {
      assert EarliestServed(Healthy, table, models, k);
      assert forall m :: EarliestServed(Healthy, table, models, m) ==> m == k;
      BestOrNone(Serving(Healthy, models[k]), table);
    }
  }

  /** An open circuit before an eligible backend that scores no less and serves the same model. */
  lemma OpenFirstDiffers(a: Backend, b: Backend, model: string)
    requires a.healthy && a.circuit == Open && Eligible(b) && Score(a) <= Score(b)
    requires model in a.models && model in b.models
    ensures FirstServed(Healthy, [a, b], [model]) == Some(a)
    ensures FirstServed(Eligible, [a, b], [model]) == Some(b)
  {
    assert IsBest(Serving(Healthy, model), Score, [a, b], 0);
    assert IsBest(Serving(Eligible, model), Score, [a, b], 1);
    BestIsMinBy(Serving(Healthy, model), Score, [a, b], 0);
    BestIsMinBy(Serving(Eligible, model), Score, [a, b], 1);
  }

  /** On this table, and for a model that both backends serve, the searches differ. */
  lemma FallbackCanDiffer()
    ensures FirstServed(Healthy, OPEN_FIRST, ["gpt-4"]) == Some(OPEN_FIRST[0])
    ensures FirstServed(Eligible, OPEN_FIRST, ["gpt-4"]) == Some(OPEN_FIRST[1])
  {
    var a, b := OPEN_FIRST[0], OPEN_FIRST[1];
    assert a.models[0] == b.models[0] == "gpt-4";
    assert OPEN_FIRST == [a, b];
    OpenFirstDiffers(a, b, "gpt-4");
  }

  class RoutingTable {
    var backends: seq<Backend>

    constructor (initial: seq<Backend>)
      ensures backends == initial
    {
      backends := initial;
    }

    method UpdateBackends(replacement: seq<Backend>)
      modifies this
      ensures backends == replacement
    {
      backends := replacement;
    }

    method GetAiBackend(model: string, fallback: Option<seq<string>>) returns (r: Option<Backend>)
      ensures r == FirstServed(Healthy, backends, [model] + (if fallback.Some? then fallback.value else []))
    {
      ghost var models := [model] + (if fallback.Some? then fallback.value else []);
      var snapshot := backends;
      var bestPrimary := BestFor(Healthy, snapshot, model);
      assert models[1..] == if fallback.Some? then fallback.value else [];
      if bestPrimary.None? {
        if fallback.Some? {
          var fallbackModels := fallback.value;
          for i := 0 to |fallbackModels|
            invariant FirstServed(Healthy, snapshot, models) == FirstServed(Healthy, snapshot, fallbackModels[i..])
          {
            var bestFallback := BestFor(Healthy, snapshot, fallbackModels[i]);
            if bestFallback.Some? {
              return bestFallback;
            }
            assert fallbackModels[i..][1..] == fallbackModels[i + 1..];
          }
        }
      }
      return bestPrimary;
    }
  }
}
