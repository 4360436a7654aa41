/**
 Keeping the largest `n` of a list: a stable sort, largest first, and a
 truncation. Filtering by a threshold may be done before or after.
 */
module TopN {
  function InsertDescending<T>(x: T, sorted: seq<T>, rank: T -> real): seq<T> {
    if sorted == [] || rank(x) > rank(sorted[0]) then [x] + sorted
    else [sorted[0]] + InsertDescending(x, sorted[1..], rank)
  }

  /** The stable sort with the larger ranks first. */
  function SortDescending<T>(xs: seq<T>, rank: T -> real): seq<T> {
    if xs == [] then [] else InsertDescending(xs[|xs| - 1], SortDescending(xs[..|xs| - 1], rank), rank)
  }

  function Truncate<T>(xs: seq<T>, n: nat): (r: seq<T>)
    ensures |r| <= n && r <= xs
  {
    if |xs| <= n then xs else xs[..n]
  }

  function Over<T>(xs: seq<T>, rank: T -> real, limit: real): seq<T> {
    if xs == [] then []
    else if rank(xs[0]) > limit then [xs[0]] + Over(xs[1..], rank, limit)
    else Over(xs[1..], rank, limit)
  }

  predicate Descending<T>(xs: seq<T>, rank: T -> real) {
    forall i, j :: 0 <= i < j < |xs| ==> rank(xs[i]) >= rank(xs[j])
  }

  // ---- The sort ----

  lemma {:induction false} InsertKeepsElements<T>(x: T, sorted: seq<T>, rank: T -> real)
    ensures multiset(InsertDescending(x, sorted, rank)) == multiset(sorted) + multiset{x}
  {
    if sorted == [] {
    } else {
      assert sorted == [sorted[0]] + sorted[1..];
      if rank(x) <= rank(sorted[0]) {
        InsertKeepsElements(x, sorted[1..], rank);
      }
    }
  }

  /** What goes in front of a descending list that it tops keeps it descending. */
  lemma Prepend<T>(x: T, xs: seq<T>, rank: T -> real)
    requires Descending(xs, rank) && forall y :: y in xs ==> rank(y) <= rank(x)
    ensures Descending([x] + xs, rank)
  {}

  lemma {:induction false} InsertKeepsOrder<T>(x: T, sorted: seq<T>, rank: T -> real)
    requires Descending(sorted, rank)
    ensures Descending(InsertDescending(x, sorted, rank), rank)
  {
    if sorted == [] || rank(x) > rank(sorted[0]) {
      Prepend(x, sorted, rank);
    } else {
      InsertKeepsOrder(x, sorted[1..], rank);
      InsertKeepsElements(x, sorted[1..], rank);
      var rest := InsertDescending(x, sorted[1..], rank);
      hide InsertDescending;
      forall y | y in rest ensures rank(y) <= rank(sorted[0]) {
        assert y in multiset(rest);
        assert y == x || y in sorted[1..];
      }
      Prepend(sorted[0], rest, rank);
    }
  }

  lemma {:induction false} SortSorts<T>(xs: seq<T>, rank: T -> real)
    ensures Descending(SortDescending(xs, rank), rank)
    ensures multiset(SortDescending(xs, rank)) == multiset(xs)
    ensures |SortDescending(xs, rank)| == |xs|
  {
    if xs == [] {
    } else {
      var n := |xs| - 1;
      SortSorts(xs[..n], rank);
      InsertKeepsOrder(xs[n], SortDescending(xs[..n], rank), rank);
      InsertKeepsElements(xs[n], SortDescending(xs[..n], rank), rank);
      assert xs == xs[..n] + [xs[n]];
    }
    SameSize(SortDescending(xs, rank), xs);
  }

  lemma SameSize<T>(xs: seq<T>, ys: seq<T>)
    requires multiset(xs) == multiset(ys)
    ensures |xs| == |ys|
  {
    assert |multiset(xs)| == |xs| && |multiset(ys)| == |ys|;
  }

  /** The elements of one rank, in order. */
  function OfRank<T>(xs: seq<T>, rank: T -> real, v: real): seq<T> {
    if xs == [] then []
    else if rank(xs[0]) == v then [xs[0]] + OfRank(xs[1..], rank, v)
    else OfRank(xs[1..], rank, v)
  }

  lemma {:induction false} OfRankAppend<T>(xs: seq<T>, x: T, rank: T -> real, v: real)
    ensures OfRank(xs + [x], rank, v) == OfRank(xs, rank, v) + if rank(x) == v then [x] else []
  {
    if xs == [] {
    } else {
      OfRankAppend(xs[1..], x, rank, v);
      assert (xs + [x])[1..] == xs[1..] + [x];
    }
  }

  lemma {:induction false} NoneOfRank<T>(xs: seq<T>, rank: T -> real, v: real)
    requires forall i :: 0 <= i < |xs| ==> rank(xs[i]) < v
    ensures OfRank(xs, rank, v) == []
  {
    if xs == [] {
    } else {
      NoneOfRank(xs[1..], rank, v);
    }
  }

  lemma {:induction false} InsertIsStable<T>(x: T, sorted: seq<T>, rank: T -> real, v: real)
    requires Descending(sorted, rank)
    ensures OfRank(InsertDescending(x, sorted, rank), rank, v)
            == OfRank(sorted, rank, v) + if rank(x) == v then [x] else []
  {
    if sorted == [] || rank(x) > rank(sorted[0]) {
      assert ([x] + sorted)[1..] == sorted;
      if rank(x) == v {
        NoneOfRank(sorted, rank, v);
      }
    } else {
      InsertIsStable(x, sorted[1..], rank, v);
      var rest := InsertDescending(x, sorted[1..], rank);
      assert ([sorted[0]] + rest)[1..] == rest;
    }
  }

  /** Equal ranks keep the order they came in. */
  lemma {:induction false} SortIsStable<T>(xs: seq<T>, rank: T -> real, v: real)
    ensures OfRank(SortDescending(xs, rank), rank, v) == OfRank(xs, rank, v)
  {
    if xs == [] {
    } else {
      var n := |xs| - 1;
      SortSorts(xs[..n], rank);
      SortIsStable(xs[..n], rank, v);
      InsertIsStable(xs[n], SortDescending(xs[..n], rank), rank, v);
      OfRankAppend(xs[..n], xs[n], rank, v);
      assert xs == xs[..n] + [xs[n]];
    }
  }

  // ---- The threshold ----

  lemma {:induction false} OverHas<T>(xs: seq<T>, rank: T -> real, limit: real, x: T)
    ensures x in Over(xs, rank, limit) <==> x in xs && rank(x) > limit
  {
    if xs == [] {
    } else {
      OverHas(xs[1..], rank, limit, x);
      assert xs == [xs[0]] + xs[1..];
    }
  }

  lemma {:induction false} NothingOver<T>(xs: seq<T>, rank: T -> real, limit: real)
    requires forall i :: 0 <= i < |xs| ==> rank(xs[i]) <= limit
    ensures Over(xs, rank, limit) == []
  {
    if xs == [] {
    } else {
      NothingOver(xs[1..], rank, limit);
    }
  }

  /** On a sorted list, truncating and filtering commute. */
  lemma {:induction false} TruncationCommutes<T>(xs: seq<T>, rank: T -> real, limit: real, n: nat)
    requires Descending(xs, rank)
    ensures Over(Truncate(xs, n), rank, limit) == Truncate(Over(xs, rank, limit), n)
  {
    if xs == [] || n == 0 {
      assert Truncate(xs, n) == [];
    } else {
      TruncationCommutes(xs[1..], rank, limit, n - 1);
      assert Truncate(xs, n)[1..] == Truncate(xs[1..], n - 1);
      if rank(xs[0]) <= limit {
        NothingOver(xs[1..], rank, limit);
        NothingOver(Truncate(xs[1..], n - 1), rank, limit);
      }
    }
  }

  /** Sorting and filtering commute as well, as far as the elements and their order by rank go. */
  lemma {:induction false} FilterBeforeOrAfter<T>(xs: seq<T>, rank: T -> real, limit: real, n: nat)
    ensures Over(Truncate(SortDescending(xs, rank), n), rank, limit)
            == Truncate(SortDescending(Over(xs, rank, limit), rank), n)
  {
    SortSorts(xs, rank);
    TruncationCommutes(SortDescending(xs, rank), rank, limit, n);
    OverSorts(xs, rank, limit);
  }

  lemma {:induction false} OverAppend<T>(xs: seq<T>, x: T, rank: T -> real, limit: real)
    ensures Over(xs + [x], rank, limit) == Over(xs, rank, limit) + if rank(x) > limit then [x] else []
  {
    if xs == [] {
    } else {
      OverAppend(xs[1..], x, rank, limit);
      assert (xs + [x])[1..] == xs[1..] + [x];
    }
  }

  lemma {:induction false} OverInsert<T>(x: T, sorted: seq<T>, rank: T -> real, limit: real)
    requires Descending(sorted, rank)
    ensures Over(InsertDescending(x, sorted, rank), rank, limit)
            == if rank(x) > limit then InsertDescending(x, Over(sorted, rank, limit), rank)
               else Over(sorted, rank, limit)
  {
    if sorted == [] || rank(x) > rank(sorted[0]) {
      assert ([x] + sorted)[1..] == sorted;
      if sorted != [] && rank(sorted[0]) <= limit {
        NothingOver(sorted, rank, limit);
      }
    } else {
      OverInsert(x, sorted[1..], rank, limit);
      var rest := InsertDescending(x, sorted[1..], rank);
      assert ([sorted[0]] + rest)[1..] == rest;
      var over := Over(sorted[1..], rank, limit);
      assert ([sorted[0]] + over)[1..] == over;
    }
  }

  lemma {:induction false} OverSorts<T>(xs: seq<T>, rank: T -> real, limit: real)
    ensures Over(SortDescending(xs, rank), rank, limit) == SortDescending(Over(xs, rank, limit), rank)
  {
    hide Over, InsertDescending, Descending;
    OverOfNothing<T>(rank, limit);
    if xs == [] {
    } else {
      var n := |xs| - 1;
      OverSorts(xs[..n], rank, limit);
      SortSorts(xs[..n], rank);
      OverInsert(xs[n], SortDescending(xs[..n], rank), rank, limit);
      OverAppend(xs[..n], xs[n], rank, limit);
      SortAppend(Over(xs[..n], rank, limit), xs[n], rank);
      assert SortDescending(xs, rank) == InsertDescending(xs[n], SortDescending(xs[..n], rank), rank);
      assert xs == xs[..n] + [xs[n]];
      assert Over(xs[..n], rank, limit) + [] == Over(xs[..n], rank, limit);
    }
  }

  lemma {:induction false} OverOfNothing<T>(rank: T -> real, limit: real)
    ensures Over<T>([], rank, limit) == []
  {}

  lemma {:induction false} SortAppend<T>(xs: seq<T>, x: T, rank: T -> real)
    ensures SortDescending(xs + [x], rank) == InsertDescending(x, SortDescending(xs, rank), rank)
  {
    assert (xs + [x])[..|xs|] == xs;
  }

  // ---- What is left out ----

  ghost predicate Distinct<T(!new)>(xs: seq<T>) {
    forall i, j :: 0 <= i < j < |xs| ==> xs[i] != xs[j]
  }

  lemma DistinctByCount<T(!new)>(xs: seq<T>)
    ensures Distinct(xs) <==> forall x :: multiset(xs)[x] <= 1
  {
    if Distinct(xs) {
      forall x ensures multiset(xs)[x] <= 1 { DistinctCountsOnce(xs, x); }
    } else {
      var i, j :| 0 <= i < j < |xs| && xs[i] == xs[j];
      assert xs == xs[..j] + xs[j..] && xs[i] in xs[..j] && xs[j] in xs[j..];
      assert multiset(xs) == multiset(xs[..j]) + multiset(xs[j..]);
      assert multiset(xs)[xs[i]] >= 2;
    }
  }

  lemma {:induction false} DistinctCountsOnce<T(!new)>(xs: seq<T>, x: T)
    requires Distinct(xs)
    ensures multiset(xs)[x] <= 1
  {
    if xs == [] {
    } else {
      var n := |xs| - 1;
      assert xs == xs[..n] + [xs[n]];
      DistinctCountsOnce(xs[..n], x);
      if x == xs[n] {
        assert x !in xs[..n];
      }
    }
  }

  /**
   The top `n`: as many as there are, no duplicates, all from the list, in
   order, and nothing that is left out beats anything that is kept.
   */
  lemma {:induction false} TopNIsTop<T(!new)>(xs: seq<T>, rank: T -> real, n: nat)
    requires Distinct(xs)
    ensures var top := Truncate(SortDescending(xs, rank), n);
            && |top| == (if |xs| <= n then |xs| else n)
            && Distinct(top) && Descending(top, rank)
            && (forall x :: x in top ==> x in xs)
            && (forall x, y :: x in xs && x !in top && y in top ==> rank(x) <= rank(y))
            && (forall x :: x in xs && x !in top ==> |top| == n)
  {
    var sorted, top := SortDescending(xs, rank), Truncate(SortDescending(xs, rank), n);
    SortSorts(xs, rank);
    DistinctByCount(xs);
    DistinctByCount(sorted);
    forall x ensures x in sorted <==> x in xs {
      assert x in sorted <==> x in multiset(sorted);
    }
    forall x, y | x in xs && x !in top && y in top ensures rank(x) <= rank(y) {
      var i :| 0 <= i < |sorted| && sorted[i] == x;
      var j :| 0 <= j < |top| && top[j] == y;
      assert i >= |top| && sorted[j] == y;
    }
  }
}
