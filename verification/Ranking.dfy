/**
 * Filtering, first-minimum folding and stable sorting by a score, as the selector
 * uses them through iterator adaptors and `sort_by`.
 */
module Ranking {
  import opened Options

  function Filter<T>(p: T -> bool, s: seq<T>): (r: seq<T>)
  {
    if s == [] then []
    else
      var last := |s| - 1;
      Filter(p, s[..last]) + (if p(s[last]) then [s[last]] else [])
  }

  /** The minimum by score; of several equal ones the earliest is kept. */
  function MinBy<T>(score: T -> real, s: seq<T>): (m: Option<T>)
  {
    if s == [] then None
    else
      var last := |s| - 1;
      var before := MinBy(score, s[..last]);
      if before.Some? && score(before.value) <= score(s[last]) then before else Some(s[last])
  }

  /** Filtering keeps every occurrence of what qualifies, and nothing else. */
  lemma {:induction false} FilterCounts<T>(p: T -> bool, s: seq<T>, x: T)
    ensures multiset(Filter(p, s))[x] == if p(x) then multiset(s)[x] else 0
  {
    if s != [] {
      var last := |s| - 1;
      FilterCounts(p, s[..last], x);
      assert s == s[..last] + [s[last]];
    }
  }

  // ----- first-minimum selection

  /** Position i holds the first of the lowest-scored elements that satisfy p. */
  ghost predicate IsBest<T>(p: T -> bool, score: T -> real, s: seq<T>, i: int) {
    && 0 <= i < |s| && p(s[i])
    && (forall j :: 0 <= j < |s| && p(s[j]) ==> score(s[i]) <= score(s[j]))
    && (forall j :: 0 <= j < i && p(s[j]) ==> score(s[i]) < score(s[j]))
  }

  lemma BestIsUnique<T>(p: T -> bool, score: T -> real, s: seq<T>, i: int, j: int)
    requires IsBest(p, score, s, i) && IsBest(p, score, s, j)
    ensures i == j
  {
  }

  /** Filtering and then folding finds the first minimum, or nothing if nothing qualifies. */
  lemma {:induction false} MinByFindsBest<T>(p: T -> bool, score: T -> real, s: seq<T>) returns (i: int)
    ensures MinBy(score, Filter(p, s)).None? ==> forall j :: 0 <= j < |s| ==> !p(s[j])
    ensures MinBy(score, Filter(p, s)).Some? ==>
              IsBest(p, score, s, i) && MinBy(score, Filter(p, s)).value == s[i]
  {
    if s == [] {
      i := 0;
    } else {
      var last := |s| - 1;
      var before := s[..last];
      i := MinByFindsBest(p, score, before);
      var kept := Filter(p, before);
      if p(s[last]) {
        assert (kept + [s[last]])[..|kept|] == kept;
        if MinBy(score, kept).None? || score(s[last]) < score(MinBy(score, kept).value) {
          i := last;
        }
      } else {
        assert kept + [] == kept;
      }
    }
  }

  /** The converse: whatever stands first among the lowest scores is what the fold returns. */
  lemma BestIsMinBy<T>(p: T -> bool, score: T -> real, s: seq<T>, i: int)
    requires IsBest(p, score, s, i)
    ensures MinBy(score, Filter(p, s)) == Some(s[i])
  {
    var j := MinByFindsBest(p, score, s);
    BestIsUnique(p, score, s, i, j);
  }

  /** Narrowing the condition keeps the winner exactly when the winner meets the narrower one. */
  lemma NarrowingKeepsWinnerIff<T>(p: T -> bool, q: T -> bool, score: T -> real, s: seq<T>)
    requires forall b :: q(b) ==> p(b)
    ensures MinBy(score, Filter(q, s)) == MinBy(score, Filter(p, s)) <==>
            MinBy(score, Filter(p, s)).None? || q(MinBy(score, Filter(p, s)).value)
  {
    var i := MinByFindsBest(p, score, s);
    var j := MinByFindsBest(q, score, s);
    if MinBy(score, Filter(p, s)).Some? && q(s[i]) {
      BestIsMinBy(q, score, s, i);
    }
  }

  // ----- stable sorting

  ghost predicate Sorted<T>(score: T -> real, s: seq<T>) {
    forall i, j :: 0 <= i <= j < |s| ==> score(s[i]) <= score(s[j])
  }

  /** The elements with score v, in the order in which they stand. */
  ghost function WithScore<T>(score: T -> real, s: seq<T>, v: real): (r: seq<T>)
  {
    if s == [] then []
    else (if score(s[0]) == v then [s[0]] else []) + WithScore(score, s[1..], v)
  }

  ghost predicate SameByScore<T>(score: T -> real, s: seq<T>, t: seq<T>) {
    forall v :: WithScore(score, s, v) == WithScore(score, t, v)
  }

  /** Sorted by score, and elements of equal score keep their order. */
  ghost predicate StableSort<T>(score: T -> real, sorted: seq<T>, original: seq<T>) {
    Sorted(score, sorted) && SameByScore(score, sorted, original)
  }

  lemma Associate<T>(a: seq<T>, b: seq<T>, c: seq<T>)
    ensures a + (b + c) == (a + b) + c
  {
  }

  lemma {:induction false} WithScoreConcat<T>(score: T -> real, s: seq<T>, t: seq<T>, v: real)
    ensures WithScore(score, s + t, v) == WithScore(score, s, v) + WithScore(score, t, v)
  {
    if s == [] {
      assert s + t == t;
    } else {
      WithScoreConcat(score, s[1..], t, v);
      assert (s + t)[0] == s[0] && (s + t)[1..] == s[1..] + t;
      var head := if score(s[0]) == v then [s[0]] else [];
      Associate(head, WithScore(score, s[1..], v), WithScore(score, t, v));
    }
  }

  lemma {:induction false} WithScoreMembers<T>(score: T -> real, s: seq<T>, v: real, b: T)
    ensures b in WithScore(score, s, v) <==> b in s && score(b) == v
  {
    if s != [] {
      WithScoreMembers(score, s[1..], v, b);
      assert b in s <==> b == s[0] || b in s[1..];
    }
  }

  lemma {:induction false} NoneWithScore<T>(score: T -> real, s: seq<T>, v: real)
    requires forall j :: 0 <= j < |s| ==> score(s[j]) != v
    ensures WithScore(score, s, v) == []
  {
    if s != [] {
      NoneWithScore(score, s[1..], v);
    }
  }

  lemma InsertKeepsOrder<T>(score: T -> real, sorted: seq<T>, original: seq<T>, x: T, k: nat, v: real)
    requires WithScore(score, sorted, v) == WithScore(score, original, v) && k <= |sorted|
    requires forall j :: k <= j < |sorted| ==> score(x) < score(sorted[j])
    ensures WithScore(score, sorted[..k] + [x] + sorted[k..], v) == WithScore(score, original + [x], v)
  {
    var front, back := sorted[..k], sorted[k..];
    assert sorted == front + back;
    WithScoreConcat(score, front, back, v);
    WithScoreConcat(score, front + [x], back, v);
    WithScoreConcat(score, front, [x], v);
    WithScoreConcat(score, original, [x], v);
    WithScoreOne(score, x, v);
    if v == score(x) {
      NoneWithScore(score, back, v);
    }
    Join(WithScore(score, front, v), WithScore(score, [x], v), WithScore(score, back, v));
  }

  lemma Join<T>(front: seq<T>, middle: seq<T>, back: seq<T>)
    requires middle == [] || back == []
    ensures front + middle + back == front + back + middle
  {
  }

  lemma WithScoreOne<T>(score: T -> real, x: T, v: real)
    ensures WithScore(score, [x], v) == if score(x) == v then [x] else []
  {
  }

  /** Putting x after everything that scores no more extends a stable sort by one element. */
  lemma InsertIsStable<T>(score: T -> real, sorted: seq<T>, original: seq<T>, x: T, k: nat)
    requires StableSort(score, sorted, original) && k <= |sorted|
    requires k > 0 ==> score(sorted[k - 1]) <= score(x)
    requires forall j :: k <= j < |sorted| ==> score(x) < score(sorted[j])
    ensures StableSort(score, sorted[..k] + [x] + sorted[k..], original + [x])
  {
    forall v
      ensures WithScore(score, sorted[..k] + [x] + sorted[k..], v) == WithScore(score, original + [x], v)
    {
      InsertKeepsOrder(score, sorted, original, x, k, v);
    }
  }

  method SortBy<T>(score: T -> real, items: seq<T>) returns (sorted: seq<T>)
    ensures StableSort(score, sorted, items)
  {
    sorted := [];
    for i := 0 to |items|
      invariant |sorted| == i
      invariant StableSort(score, sorted, items[..i])
    {
      var x := items[i];
      var k := |sorted|;
      while k > 0 && score(x) < score(sorted[k - 1])
        invariant 0 <= k <= |sorted|
        invariant forall j :: k <= j < |sorted| ==> score(x) < score(sorted[j])
      {
        k := k - 1;
      }
      InsertIsStable(score, sorted, items[..i], x, k);
      assert items[..i] + [x] == items[..i + 1];
      sorted := sorted[..k] + [x] + sorted[k..];
    }
    assert items[..|items|] == items;
  }

  lemma {:induction false} WithScoreCounts<T>(score: T -> real, s: seq<T>, b: T)
    ensures multiset(s)[b] == multiset(WithScore(score, s, score(b)))[b]
  {
    if s != [] {
      WithScoreCounts(score, s[1..], b);
      assert s == [s[0]] + s[1..];
    }
  }

  /** A stable sort neither loses nor repeats an element. */
  lemma StableSortIsPermutation<T>(score: T -> real, sorted: seq<T>, original: seq<T>)
    requires StableSort(score, sorted, original)
    ensures multiset(sorted) == multiset(original)
  {
    forall b: T
      ensures multiset(sorted)[b] == multiset(original)[b]
    {
      WithScoreCounts(score, sorted, b);
      WithScoreCounts(score, original, b);
    }
  }

  lemma SameHead<T>(score: T -> real, s: seq<T>, t: seq<T>)
    requires SameByScore(score, s, t) && s != [] && Sorted(score, s) && Sorted(score, t)
    ensures t != [] && s[0] == t[0]
  {
    var v := score(s[0]);
    WithScoreMembers(score, s, v, s[0]);
    WithScoreMembers(score, t, v, s[0]);
    WithScoreMembers(score, t, score(t[0]), t[0]);
    WithScoreMembers(score, s, score(t[0]), t[0]);
    assert WithScore(score, s, score(t[0])) == WithScore(score, t, score(t[0]));
    assert WithScore(score, s, v)[0] == s[0];
    assert WithScore(score, t, v)[0] == t[0];
  }

  lemma SameTail<T>(score: T -> real, s: seq<T>, t: seq<T>)
    requires SameByScore(score, s, t) && s != [] && t != [] && s[0] == t[0]
    ensures SameByScore(score, s[1..], t[1..])
  {
    forall w
      ensures WithScore(score, s[1..], w) == WithScore(score, t[1..], w)
    {
      var head := if score(s[0]) == w then [s[0]] else [];
      assert WithScore(score, s, w) == head + WithScore(score, s[1..], w);
      assert WithScore(score, t, w) == head + WithScore(score, t[1..], w);
      assert WithScore(score, s, w)[|head|..] == WithScore(score, s[1..], w);
      assert WithScore(score, t, w)[|head|..] == WithScore(score, t[1..], w);
    }
  }

  lemma {:induction false} SortedUnique<T>(score: T -> real, a: seq<T>, b: seq<T>)
    requires Sorted(score, a) && Sorted(score, b) && SameByScore(score, a, b)
    ensures a == b
    decreases |a|
  {
    if a == [] {
      if b != [] {
        SameHead(score, b, a);
      }
    } else {
      SameHead(score, a, b);
      SameTail(score, a, b);
      SortedUnique(score, a[1..], b[1..]);
      assert a == [a[0]] + a[1..] && b == [b[0]] + b[1..];
    }
  }

  /** There is only one stable sort, so its specification fixes the result. */
  lemma StableSortIsUnique<T>(score: T -> real, a: seq<T>, b: seq<T>, original: seq<T>)
    requires StableSort(score, a, original) && StableSort(score, b, original)
    ensures a == b
  {
    assert forall v :: WithScore(score, a, v) == WithScore(score, original, v) == WithScore(score, b, v);
    SortedUnique(score, a, b);
  }

  lemma {:induction false} FirstWithScore<T>(score: T -> real, s: seq<T>, i: int)
    requires 0 <= i < |s|
    requires forall j :: 0 <= j < i ==> score(s[j]) != score(s[i])
    ensures WithScore(score, s, score(s[i])) != [] && WithScore(score, s, score(s[i]))[0] == s[i]
  {
    if i > 0 {
      FirstWithScore(score, s[1..], i - 1);
    }
  }

  lemma {:induction false} FilterAll<T>(s: seq<T>)
    ensures Filter((_: T) => true, s) == s
  {
    if s != [] {
      FilterAll(s[..|s| - 1]);
    }
  }

  /** The head of a stable sort is the first minimum. */
  lemma SortedHeadIsMin<T>(score: T -> real, sorted: seq<T>, original: seq<T>)
    requires StableSort(score, sorted, original)
    ensures MinBy(score, original) == if sorted == [] then None else Some(sorted[0])
  {
    var all := (_: T) => true;
    FilterAll(original);
    assert Filter(all, original) == original;
    var i := MinByFindsBest(all, score, original);
    StableSortIsPermutation(score, sorted, original);
    if original == [] {
      assert |multiset(sorted)| == 0;
    } else {
      assert original[i] in multiset(sorted);
      assert sorted[0] in multiset(original);
      FirstWithScore(score, original, i);
      FirstWithScore(score, sorted, 0);
      assert score(sorted[0]) == score(original[i]);
    }
  }
}
