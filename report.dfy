/** Latency statistics of a finished run (internal/report/report.go):
    average and nearest-rank P50/P90/P99 over a sorted private copy of the
    latencies. Durations are nanosecond counts. */
module Report {
  import Engine

  const Millisecond: int := 1_000_000

  /** report.Stats without its floating-point throughput field. */
  datatype Stats = Stats(average: int, p50: int, p90: int, p99: int)

  const ZeroStats: Stats := Stats(0, 0, 0, 0)

  /** Go's integer division of time.Duration values, which truncates toward
      zero (Dafny's `/` rounds toward negative infinity for a positive divisor). */
  function TruncDiv(a: int, b: int): (q: int)
    requires b > 0
    ensures a >= 0 ==> q * b <= a < q * b + b
    ensures a < 0 ==> q * b - b < a <= q * b
  {
    if a >= 0 then
      assert a == (a / b) * b + a % b;
      a / b
    else
      var q := (-a) / b;
      assert -a == q * b + (-a) % b;
      assert (-q) * b == -(q * b);
      -q
  }

  /** x <= y scales to x * b <= y * b for a positive b. */
  lemma MulMonotone(b: int, x: int, y: int)
    requires b > 0 && x <= y
    ensures x * b <= y * b
  {
    assert y * b - x * b == (y - x) * b;
  }

  /** A total between n * lo and n * hi gives a truncated mean between lo and hi. */
  lemma TruncDivBetween(a: int, n: int, lo: int, hi: int)
    requires n > 0
    requires n * lo <= a <= n * hi
    ensures lo <= TruncDiv(a, n) <= hi
  {
    var q := TruncDiv(a, n);
    if q < lo {
      MulMonotone(n, q + 1, lo);
    }
    if q > hi {
      MulMonotone(n, hi + 1, q);
    }
  }

  /** percentileIndex: the nearest-rank index ceil(p/100 * n) - 1, clamped
      into [0, n-1]. The ceiling is taken exactly on integers. */
  function PercentileIndex(n: int, p: int): (r: int)
    ensures n >= 1 ==> 0 <= r < n
    ensures n >= 1 && 0 < p <= 100 ==> r * 100 < p * n <= (r + 1) * 100
  {
    var idx := (p * n + 99) / 100 - 1;
    if idx < 0 then 0
    else if idx >= n then n - 1
    else idx
  }

  /** A larger percentile never picks an earlier rank. */
  lemma PercentileIndexMonotone(n: int, p: int, q: int)
    requires n >= 1 && p <= q
    ensures PercentileIndex(n, p) <= PercentileIndex(n, q)
  {
    assert p * n <= q * n by {
      assert (q - p) * n >= 0;
    }
  }

  /** The ranks reported for 100 samples. */
  lemma PercentileIndexOfHundred()
    ensures PercentileIndex(100, 50) == 49
    ensures PercentileIndex(100, 90) == 89
    ensures PercentileIndex(100, 99) == 98
  {
  }

  predicate Sorted(s: seq<int>) {
    forall i, j :: 0 <= i < j < |s| ==> s[i] <= s[j]
  }

  lemma SortedTail(s: seq<int>)
    requires Sorted(s) && s != []
    ensures Sorted(s[1..])
  {
    forall i, j | 0 <= i < j < |s[1..]| ensures s[1..][i] <= s[1..][j] {
      assert s[1..][i] == s[i + 1] && s[1..][j] == s[j + 1];
    }
  }

  /** `s` with `x` inserted before its first larger-or-equal element. */
  function Insert(x: int, s: seq<int>): (r: seq<int>)
    ensures multiset(r) == multiset(s) + multiset{x}
    ensures |r| == |s| + 1
  {
    if s == [] || x <= s[0] then [x] + s
    else
      assert s == [s[0]] + s[1..];
      [s[0]] + Insert(x, s[1..])
  }

  /** A lower bound of x and of every element of s bounds the insertion too. */
  lemma {:induction false} InsertBounded(x: int, s: seq<int>, lo: int)
    requires lo <= x && forall i :: 0 <= i < |s| ==> lo <= s[i]
    ensures forall i :: 0 <= i < |Insert(x, s)| ==> lo <= Insert(x, s)[i]
  {
    if s != [] && x > s[0] {
      InsertBounded(x, s[1..], lo);
    }
  }

  /** Inserting into an ascending sequence keeps it ascending. */
  lemma {:induction false} InsertSorted(x: int, s: seq<int>)
    requires Sorted(s)
    ensures Sorted(Insert(x, s))
  {
    if s != [] && x > s[0] {
      var rest := Insert(x, s[1..]);
      SortedTail(s);
      InsertSorted(x, s[1..]);
      assert forall i :: 0 <= i < |s[1..]| ==> s[0] <= s[1..][i] by {
        forall i | 0 <= i < |s[1..]| ensures s[0] <= s[1..][i] {
          assert s[1..][i] == s[i + 1];
        }
      }
      InsertBounded(x, s[1..], s[0]);
      var r := [s[0]] + rest;
      assert Insert(x, s) == r;
      forall i, j | 0 <= i < j < |r| ensures r[i] <= r[j] {
        if i > 0 {
          assert r[i] == rest[i - 1] && r[j] == rest[j - 1];
        }
      }
    }
  }

  /** The ascending arrangement of `s`: what sort.Slice leaves in the copy. */
  function SortedCopy(s: seq<int>): (r: seq<int>)
    ensures Sorted(r)
    ensures multiset(r) == multiset(s)
    ensures |r| == |s|
  {
    if s == [] then []
    else
      assert s == [s[0]] + s[1..];
      InsertSorted(s[0], SortedCopy(s[1..]));
      Insert(s[0], SortedCopy(s[1..]))
  }

  /** The first element of an ascending sequence is its least. */
  lemma SortedHeadIsLeast(s: seq<int>, x: int)
    requires Sorted(s) && x in multiset(s)
    ensures s[0] <= x
  {
    var k :| 0 <= k < |s| && s[k] == x;
  }

  /** Two arrangements of the same samples that start alike hold the same
      samples after their first element. */
  lemma SameTails(a: seq<int>, b: seq<int>)
    requires a != [] && b != [] && a[0] == b[0]
    requires multiset(a) == multiset(b)
    ensures multiset(a[1..]) == multiset(b[1..])
  {
    assert a == [a[0]] + a[1..] && b == [b[0]] + b[1..];
    var ta, tb := multiset(a[1..]), multiset(b[1..]);
    assert multiset(a) == multiset{a[0]} + ta;
    assert multiset(b) == multiset{a[0]} + tb;
    forall y ensures ta[y] == tb[y] {
      assert multiset(a)[y] == multiset{a[0]}[y] + ta[y];
      assert multiset(b)[y] == multiset{a[0]}[y] + tb[y];
    }
  }

  /** Two sorted arrangements of the same samples are the same sequence. */
  lemma {:induction false} SortedUnique(a: seq<int>, b: seq<int>)
    requires Sorted(a) && Sorted(b)
    requires multiset(a) == multiset(b)
    ensures a == b
  {
    assert |a| == |multiset(a)| == |multiset(b)| == |b|;
    if a != [] {
      SortedHeadIsLeast(a, b[0]);
      SortedHeadIsLeast(b, a[0]);
      SameTails(a, b);
      SortedTail(a);
      SortedTail(b);
      SortedUnique(a[1..], b[1..]);
      assert a == [a[0]] + a[1..] && b == [b[0]] + b[1..];
    }
  }

  /** Sorting an already ascending sequence leaves it as it is. */
  lemma SortedCopyOfSorted(s: seq<int>)
    requires Sorted(s)
    ensures SortedCopy(s) == s
  {
    SortedUnique(SortedCopy(s), s);
  }

  /** The sum of the samples, accumulated front to back. */
  function Sum(s: seq<int>): int {
    if s == [] then 0 else Sum(s[..|s| - 1]) + s[|s| - 1]
  }

  /** Reordering the samples does not change their sum. */
  lemma {:induction false} SumPermutation(s: seq<int>, t: seq<int>)
    requires multiset(s) == multiset(t)
    ensures Sum(s) == Sum(t)
    decreases |s|
  {
    if s == [] {
      assert |t| == |multiset(t)| == 0;
    } else {
      var x := s[|s| - 1];
      var init := s[..|s| - 1];
      assert multiset(init) == multiset(s) - multiset{x} by {
        assert s == init + [x];
      }
      assert x in t by {
        assert x in multiset(t);
      }
      var j :| 0 <= j < |t| && t[j] == x;
      var rest := t[..j] + t[j + 1..];
      MultisetRemove(t, j);
      SumPermutation(init, rest);
      SumRemove(t, j);
    }
  }

  lemma MultisetRemove(t: seq<int>, j: int)
    requires 0 <= j < |t|
    ensures multiset(t[..j] + t[j + 1..]) == multiset(t) - multiset{t[j]}
  {
    var before, after := t[..j], t[j + 1..];
    assert t == before + [t[j]] + after;
    assert multiset(t) == multiset(before) + multiset{t[j]} + multiset(after);
  }

  /** Taking one sample out lowers the sum by that sample. */
  lemma {:induction false} SumRemove(t: seq<int>, j: int)
    requires 0 <= j < |t|
    ensures Sum(t) == Sum(t[..j] + t[j + 1..]) + t[j]
  {
    var n := |t|;
    if j == n - 1 {
      assert t[..j] + t[j + 1..] == t[..n - 1];
    } else {
      var rest := t[..j] + t[j + 1..];
      SumRemove(t[..n - 1], j);
      assert t[..n - 1][..j] == t[..j];
      assert rest[..|rest| - 1] == t[..n - 1][..j] + t[..n - 1][j + 1..];
      assert rest[|rest| - 1] == t[n - 1];
    }
  }

  /** n samples no smaller than lo and no larger than hi sum to between
      n * lo and n * hi. */
  lemma {:induction false} SumBounds(s: seq<int>, lo: int, hi: int)
    requires forall i :: 0 <= i < |s| ==> lo <= s[i] <= hi
    ensures |s| * lo <= Sum(s) <= |s| * hi
  {
    if s != [] {
      SumBounds(s[..|s| - 1], lo, hi);
      assert |s| * lo == (|s| - 1) * lo + lo;
      assert |s| * hi == (|s| - 1) * hi + hi;
    }
  }

  /** The statistics Compute promises: all zero without samples; otherwise
      the truncated mean and the nearest-rank entries of the sorted samples. */
  function StatsOf(lats: seq<int>): Stats {
    if |lats| == 0 then ZeroStats
    else
      var sorted := SortedCopy(lats);
      var n := |sorted|;
      Stats(
        TruncDiv(Sum(lats), n),
        sorted[PercentileIndex(n, 50)],
        sorted[PercentileIndex(n, 90)],
        sorted[PercentileIndex(n, 99)])
  }

  /** sort.Slice on the private copy: ascending, same samples. Any correct
      sort leaves the same sequence (SortedUnique); this one is insertion sort. */
  method SortInPlace(a: array<int>)
    modifies a
    ensures Sorted(a[..])
    ensures multiset(a[..]) == old(multiset(a[..]))
  {
    var i := 0;
    while i < a.Length
      invariant 0 <= i <= a.Length
      invariant forall k, l :: 0 <= k < l < i ==> a[k] <= a[l]
      invariant multiset(a[..]) == old(multiset(a[..]))
    {
      SiftIntoPlace(a, i);
      i := i + 1;
    }
  }

  /** Moves a[i] left past every larger element of the ascending prefix
      a[..i], so that a[..i + 1] is ascending; the rest is untouched. */
  method SiftIntoPlace(a: array<int>, i: int)
    requires 0 <= i < a.Length
    requires forall k, l :: 0 <= k < l < i ==> a[k] <= a[l]
    modifies a
    ensures forall k, l :: 0 <= k < l <= i ==> a[k] <= a[l]
    ensures forall k :: i < k < a.Length ==> a[k] == old(a[k])
    ensures multiset(a[..]) == old(multiset(a[..]))
  {
    var j := i;
    while j > 0 && a[j - 1] > a[j]
      invariant 0 <= j <= i
      invariant forall k, l :: 0 <= k < l <= i && k != j && l != j ==> a[k] <= a[l]
      invariant forall l :: j < l <= i ==> a[j] <= a[l]
      invariant forall k :: i < k < a.Length ==> a[k] == old(a[k])
      invariant multiset(a[..]) == old(multiset(a[..]))
    {
      Swap(a, j - 1, j);
      j := j - 1;
    }
  }

  /** Exchanges two elements of `a`; the samples stay the same. */
  method Swap(a: array<int>, i: int, j: int)
    requires 0 <= i < j < a.Length
    modifies a
    ensures a[i] == old(a[j]) && a[j] == old(a[i])
    ensures forall k :: 0 <= k < a.Length && k != i && k != j ==> a[k] == old(a[k])
    ensures multiset(a[..]) == old(multiset(a[..]))
  {
    a[i], a[j] := a[j], a[i];
  }

  /** report.Compute: copy the latencies into a fresh array, sort the copy,
      sum it, and pick the average and the three percentiles. The Result
      passed in is only read. */
  method Compute(res: Engine.Result) returns (stats: Stats)
    ensures stats == StatsOf(res.latencies)
  {
    var lats := res.latencies;
    if |lats| == 0 {
      return ZeroStats;
    }
    var sorted := new int[|lats|](i requires 0 <= i < |lats| => lats[i]);
    assert sorted[..] == lats;
    SortInPlace(sorted);

    var total := 0;
    var i := 0;
    while i < sorted.Length
      invariant 0 <= i <= sorted.Length
      invariant total == Sum(sorted[..i])
    {
      assert sorted[..i + 1][..i] == sorted[..i];
      total := total + sorted[i];
      i := i + 1;
    }
    assert sorted[..i] == sorted[..];
    SumPermutation(sorted[..], lats);
    SortedUnique(sorted[..], SortedCopy(lats));

    var n := sorted.Length;
    stats := Stats(
      TruncDiv(total, n),
      sorted[PercentileIndex(n, 50)],
      sorted[PercentileIndex(n, 90)],
      sorted[PercentileIndex(n, 99)]);
  }

  /** No samples: every figure is zero, and nothing fails. */
  lemma StatsOfEmpty()
    ensures StatsOf([]) == Stats(0, 0, 0, 0)
  {
  }

  /** The three percentiles never decrease: P50 <= P90 <= P99. */
  lemma StatsOrdered(lats: seq<int>)
    requires |lats| > 0
    ensures StatsOf(lats).p50 <= StatsOf(lats).p90 <= StatsOf(lats).p99
  {
    PercentileIndexMonotone(|lats|, 50, 90);
    PercentileIndexMonotone(|lats|, 90, 99);
  }

  /** Each reported percentile is one of the samples. */
  lemma StatsArePercentilesOfSamples(lats: seq<int>)
    requires |lats| > 0
    ensures StatsOf(lats).p50 in multiset(lats)
    ensures StatsOf(lats).p90 in multiset(lats)
    ensures StatsOf(lats).p99 in multiset(lats)
  {
    var sorted := SortedCopy(lats);
    var n := |lats|;
    assert sorted[PercentileIndex(n, 50)] in multiset(sorted);
    assert sorted[PercentileIndex(n, 90)] in multiset(sorted);
    assert sorted[PercentileIndex(n, 99)] in multiset(sorted);
  }

  /** The average lies between the smallest and the largest sample. */
  lemma AverageWithinSamples(lats: seq<int>)
    requires |lats| > 0
    ensures exists i :: 0 <= i < |lats| && lats[i] <= StatsOf(lats).average
    ensures exists j :: 0 <= j < |lats| && StatsOf(lats).average <= lats[j]
  {
    var sorted := SortedCopy(lats);
    var n := |lats|;
    var lo, hi := sorted[0], sorted[n - 1];
    SumBounds(sorted, lo, hi);
    SumPermutation(sorted, lats);
    TruncDivBetween(Sum(lats), n, lo, hi);
    assert lo in multiset(sorted) && hi in multiset(sorted);
    assert lo in multiset(lats) && hi in multiset(lats);
  }

  /** One sample v: average and every percentile are v. */
  lemma StatsOfSingleton(v: int)
    ensures StatsOf([v]) == Stats(v, v, v, v)
  {
    assert SortedCopy([v]) == Insert(v, SortedCopy([])) == [v] by {
      assert [v][1..] == [];
    }
    assert Sum([v]) == v by {
      assert [v][..0] == [];
    }
    assert PercentileIndex(1, 50) == 0 && PercentileIndex(1, 90) == 0 && PercentileIndex(1, 99) == 0;
    assert TruncDiv(v, 1) == v;
  }

  /** 1ms, 2ms, ..., n ms. */
  function Ramp(n: nat): (s: seq<int>)
    ensures |s| == n
  {
    seq(n, i => (i + 1) * Millisecond)
  }

  lemma {:induction false} SumRamp(n: nat)
    ensures 2 * Sum(Ramp(n)) == n * (n + 1) * Millisecond
  {
    if n > 0 {
      assert Ramp(n)[..n - 1] == Ramp(n - 1);
      SumRamp(n - 1);
      assert n * (n + 1) == (n - 1) * n + 2 * n;
    }
  }

  /** The latencies 1ms..100ms give P50 = 50ms, P90 = 90ms, P99 = 99ms and an
      average of 50.5ms. */
  lemma StatsOfHundredMillis()
    ensures StatsOf(Ramp(100)) == Stats(50_500 * 1000, 50 * Millisecond, 90 * Millisecond, 99 * Millisecond)
  {
    SortedCopyOfSorted(Ramp(100));
    SumRamp(100);
    PercentileIndexOfHundred();
  }
}
