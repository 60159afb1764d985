/** The nearest-rank percentile of the usage report and of the benchmark; costs are whole numbers. */
module Percentile {
  import opened Counting

  predicate Sorted(s: seq<int>)
  {
    forall i, j | 0 <= i < j < |s| :: s[i] <= s[j]
  }

  /** How many values are at most `x`, duplicates counted. */
  function RankOf(s: seq<int>, x: int): nat
  {
    if s == [] then 0 else RankOf(s[..|s| - 1], x) + One(s[|s| - 1] <= x)
  }

  /** The quotient rounded up, for any sign of the dividend. */
  function CeilHundredth(a: int): (c: int)
    ensures 100 * (c - 1) < a <= 100 * c
  {
    (a + 99) / 100
  }

  /** The report's form, on values sorted beforehand; zero for no values. */
  function OfSorted(s: seq<int>, p: int): int
  {
    if s == [] then 0
    else
      var rank := CeilHundredth(p * |s|) - 1;
      var index := if rank < |s| - 1 then rank else |s| - 1;
      s[if index < 0 then 0 else index]
  }

  function Insert(s: seq<int>, x: int): seq<int>
  {
    if s == [] || x <= s[0] then [x] + s else [s[0]] + Insert(s[1..], x)
  }

  function SortAscending(s: seq<int>): seq<int>
  {
    if s == [] then [] else Insert(SortAscending(s[..|s| - 1]), s[|s| - 1])
  }

  /** The benchmark's form, which sorts a copy first. */
  function Of(values: seq<int>, p: int): int
  {
    OfSorted(SortAscending(values), p)
  }

  /** The least value whose rank reaches `p` hundredths of the number of values. */
  ghost predicate IsPercentile(values: seq<int>, p: int, x: int)
  {
    && x in values
    && 100 * RankOf(values, x) >= p * |values|
    && forall y | y in values && y < x :: 100 * RankOf(values, y) < p * |values|
  }

  lemma {:induction false} RankBounds(s: seq<int>, k: nat, x: int)
    requires k <= |s|
    requires forall i | 0 <= i < k :: s[i] <= x
    ensures RankOf(s, x) >= k
  {
    if s != [] {
      var n := |s| - 1;
      RankBounds(s[..n], if k <= n then k else n, x);
    }
  }

  lemma {:induction false} RankAtMost(s: seq<int>, k: nat, x: int)
    requires k <= |s|
    requires forall i | k <= i < |s| :: s[i] > x
    ensures RankOf(s, x) <= k
  {
    if |s| > k {
      RankAtMost(s[..|s| - 1], k, x);
    } else {
      RankAtMostLength(s, x);
    }
  }

  lemma {:induction false} RankAtMostLength(s: seq<int>, x: int)
    ensures RankOf(s, x) <= |s|
  {
    if s != [] { RankAtMostLength(s[..|s| - 1], x); }
  }

  lemma ScaledLess(a: int, b: int, p: int)
    requires a <= b && 0 < p
    ensures a * p <= b * p
  {
  }

  /** On sorted values the formula gives the nearest-rank percentile. */
  lemma SortedPercentile(s: seq<int>, p: int)
    requires s != [] && Sorted(s) && 0 < p <= 100
    ensures IsPercentile(s, p, OfSorted(s, p))
  {
    var n := |s|;
    ScaledLess(p, 100, n);
    assert p * n > 0;
    var rank := CeilHundredth(p * n);
    assert 1 <= rank <= n;
    var x := s[rank - 1];
    assert OfSorted(s, p) == x;
    RankBounds(s, rank, x);
    forall y | y in s && y < x ensures 100 * RankOf(s, y) < p * n {
      RankAtMost(s, rank - 1, y);
    }
  }

  /** There is only one such value. */
  lemma PercentileIsUnique(values: seq<int>, p: int, x: int, y: int)
    requires IsPercentile(values, p, x) && IsPercentile(values, p, y)
    ensures x == y
  {
  }

  // ----- sorting keeps ranks -----

  lemma {:induction false} RankFirst(s: seq<int>, x: int)
    requires s != []
    ensures RankOf(s, x) == One(s[0] <= x) + RankOf(s[1..], x)
  {
    if |s| > 1 {
      RankFirst(s[..|s| - 1], x);
      assert s[..|s| - 1][1..] == s[1..][..|s| - 2];
    }
  }

  lemma {:induction false} InsertSorted(s: seq<int>, v: int)
    requires Sorted(s)
    ensures Sorted(Insert(s, v)) && |Insert(s, v)| == |s| + 1
    ensures forall y :: y in Insert(s, v) <==> y in s || y == v
  {
    var out := Insert(s, v);
    if s != [] && v > s[0] {
      InsertSorted(s[1..], v);
      assert out == [s[0]] + Insert(s[1..], v) && s == [s[0]] + s[1..];
      forall j | 0 < j < |out| ensures out[0] <= out[j] { assert out[j] in Insert(s[1..], v); }
    }
  }

  lemma {:induction false} InsertRank(s: seq<int>, v: int, x: int)
    ensures RankOf(Insert(s, v), x) == RankOf(s, x) + One(v <= x)
  {
    var out := Insert(s, v);
    RankFirst(out, x);
    if s == [] || v <= s[0] {
      assert out[1..] == s;
    } else {
      InsertRank(s[1..], v, x);
      assert out[1..] == Insert(s[1..], v);
      RankFirst(s, x);
    }
  }

  lemma {:induction false} SortKeeps(s: seq<int>, x: int)
    ensures Sorted(SortAscending(s)) && |SortAscending(s)| == |s|
    ensures forall y :: y in SortAscending(s) <==> y in s
    ensures RankOf(SortAscending(s), x) == RankOf(s, x)
  {
    if s != [] {
      var n := |s| - 1;
      SortKeeps(s[..n], x);
      InsertSorted(SortAscending(s[..n]), s[n]);
      InsertRank(SortAscending(s[..n]), s[n], x);
      assert s == s[..n] + [s[n]];
    }
  }

  /** The benchmark's percentile of any values, in any order, is their nearest-rank percentile. */
  lemma UnsortedPercentile(values: seq<int>, p: int)
    requires values != [] && 0 < p <= 100
    ensures IsPercentile(values, p, Of(values, p))
  {
    var s := SortAscending(values);
    SortKeeps(values, 0);
    SortedPercentile(s, p);
    forall x ensures RankOf(s, x) == RankOf(values, x) { SortKeeps(values, x); }
  }
}
