// The statistics of a batch of latencies: what calculateLatencyStats returns as
// a function of the samples, and what that says about them.
module LatencySummary {
  import opened Float64
  import opened StatsModel

  const MAX_SAMPLES := 10000
  const MAX_INT64: int := 0x7FFF_FFFF_FFFF_FFFF
  const TWO_64: int := 0x1_0000_0000_0000_0000

  // --- Sorting ---

  predicate Ascending(s: seq<int>) {
    forall i, j :: 0 <= i < j < |s| ==> s[i] <= s[j]
  }

  function Insert(s: seq<int>, x: int): seq<int> {
    if s == [] || s[|s| - 1] <= x then s + [x] else Insert(s[..|s| - 1], x) + [s[|s| - 1]]
  }

  // The result of slices.Sort.
  function SortedCopy(s: seq<int>): seq<int> {
    if s == [] then [] else Insert(SortedCopy(s[..|s| - 1]), s[|s| - 1])
  }

  lemma {:induction false} InsertMembers(s: seq<int>, x: int)
    ensures multiset(Insert(s, x)) == multiset(s) + multiset{x}
    ensures forall i :: 0 <= i < |Insert(s, x)| ==> Insert(s, x)[i] == x || Insert(s, x)[i] in s
  {
    if s != [] && s[|s| - 1] > x {
      InsertMembers(s[..|s| - 1], x);
      assert s == s[..|s| - 1] + [s[|s| - 1]];
    }
  }

  lemma {:induction false} InsertSorts(s: seq<int>, x: int)
    requires Ascending(s)
    ensures Ascending(Insert(s, x))
  {
    if s != [] && s[|s| - 1] > x {
      InsertSorts(s[..|s| - 1], x);
      InsertMembers(s[..|s| - 1], x);
    }
  }

  lemma {:induction false} SortedCopySorts(s: seq<int>)
    ensures Ascending(SortedCopy(s)) && multiset(SortedCopy(s)) == multiset(s) && |SortedCopy(s)| == |s|
  {
    if s == [] {
    } else {
      SortedCopySorts(s[..|s| - 1]);
      InsertSorts(SortedCopy(s[..|s| - 1]), s[|s| - 1]);
      InsertMembers(SortedCopy(s[..|s| - 1]), s[|s| - 1]);
      assert s == s[..|s| - 1] + [s[|s| - 1]];
      assert |multiset(SortedCopy(s))| == |SortedCopy(s)| && |multiset(s)| == |s|;
    }
  }

  lemma SameLast(a: seq<int>, b: seq<int>)
    requires Ascending(a) && Ascending(b) && multiset(a) == multiset(b) && a != [] && b != []
    ensures a[|a| - 1] == b[|b| - 1]
  {
    var x, y := a[|a| - 1], b[|b| - 1];
    assert x in multiset(b) && y in multiset(a);
  }

  lemma WithoutLast(s: seq<int>)
    requires s != []
    ensures multiset(s[..|s| - 1]) == multiset(s) - multiset{s[|s| - 1]}
  {
    assert s == s[..|s| - 1] + [s[|s| - 1]];
  }

  lemma SameLength(a: seq<int>, b: seq<int>)
    requires multiset(a) == multiset(b)
    ensures |a| == |b|
  {
    assert |a| == |multiset(a)| && |b| == |multiset(b)|;
  }

  // There is only one way to be sorted.
  lemma {:induction false} AscendingIsUnique(a: seq<int>, b: seq<int>)
    requires Ascending(a) && Ascending(b) && multiset(a) == multiset(b)
    ensures a == b
  {
    SameLength(a, b);
    if a == [] {
    } else {
      SameLast(a, b);
      WithoutLast(a);
      WithoutLast(b);
      AscendingIsUnique(a[..|a| - 1], b[..|b| - 1]);
      assert a == a[..|a| - 1] + [a[|a| - 1]];
    }
  }

  // --- Totals that do not depend on the order ---

  function Total(s: seq<int>, f: int -> int): int {
    if s == [] then 0 else Total(s[..|s| - 1], f) + f(s[|s| - 1])
  }

  lemma TotalSnoc(s: seq<int>, x: int, f: int -> int)
    ensures Total(s + [x], f) == Total(s, f) + f(x)
  {
    assert (s + [x])[..|s|] == s;
  }

  function Without(s: seq<int>, j: nat): seq<int>
    requires j < |s|
  {
    s[..j] + s[j + 1..]
  }

  lemma {:induction false} TotalWithout(s: seq<int>, j: nat, f: int -> int)
    requires j < |s|
    ensures Total(s, f) == Total(Without(s, j), f) + f(s[j])
  {
    var init, last := s[..|s| - 1], s[|s| - 1];
    if j == |s| - 1 {
      assert Without(s, j) == init;
    } else {
      assert Without(s, j) == Without(init, j) + [last];
      TotalWithout(init, j, f);
      TotalSnoc(Without(init, j), last, f);
    }
  }

  lemma MembersWithout(s: seq<int>, j: nat)
    requires j < |s|
    ensures multiset(Without(s, j)) == multiset(s) - multiset{s[j]}
  {
    assert s == s[..j] + ([s[j]] + s[j + 1..]);
  }

  lemma {:induction false} TotalOfPermutation(a: seq<int>, b: seq<int>, f: int -> int)
    requires multiset(a) == multiset(b)
    ensures Total(a, f) == Total(b, f)
  {
    SameLength(a, b);
    if a == [] {
    } else {
      var init, x := a[..|a| - 1], a[|a| - 1];
      assert x in multiset(b);
      var j :| 0 <= j < |b| && b[j] == x;
      WithoutLast(a);
      MembersWithout(b, j);
      TotalOfPermutation(init, Without(b, j), f);
      TotalWithout(b, j, f);
    }
  }

  function Itself(): int -> int {
    x => x
  }

  function Below(v: int): int -> int {
    x => if x <= v then 1 else 0
  }

  function Sum(s: seq<int>): int {
    Total(s, Itself())
  }

  // How many elements do not exceed v.
  function AtMost(s: seq<int>, v: int): int {
    Total(s, Below(v))
  }

  // --- Machine arithmetic ---

  // Two's complement wrap-around to 64 bits.
  function Wrap64(i: int): int {
    (i + 0x8000_0000_0000_0000) % 0x1_0000_0000_0000_0000 - 0x8000_0000_0000_0000
  }

  predicate FitsInt64(i: int) {
    -MAX_INT64 - 1 <= i <= MAX_INT64
  }

  lemma WrapOfInt64(i: int)
    requires FitsInt64(i)
    ensures Wrap64(i) == i
  {
  }

  // Go's integer division, which truncates towards zero.
  function TruncDiv(a: int, b: int): int
    requires b > 0
  {
    if a >= 0 then a / b else -(-a / b)
  }

  // The index of the 99th percentile.
  function P99Index(n: nat): nat {
    99 * n / 100
  }

  // The float64 nearest to 0.99.
  const FLOAT_099: real := 8917127262193582.0 / 9007199254740992.0

  // The clamp to n - 1 is never needed.
  lemma P99IndexInRange(n: nat)
    requires n > 0
    ensures P99Index(n) < n
  {
  }

  // int(float64(n) * 0.99) is that index for every number of samples a window may
  // hold: rounding neither misses a whole number nor reaches the next one.
  lemma P99IndexInFloat64(n: nat)
    requires 0 < n <= MAX_SAMPLES
    ensures Rounded(Times(n as real, FLOAT_099)).Floor == P99Index(n)
  {
    var k, x := P99Index(n), Times(n as real, FLOAT_099);
    ProductIsClose(n);
    RelativeError(x);
    if 99 * n == 100 * k {
      Pow2Of60();
      MarginIsEnough(k as real);
      RoundsUpTo(x, k as real, k, 60);
      IntegersAreRepresented(k);
      RoundedIsMonotone(x, k as real);
    } else {
      assert 100 * k + 1 <= 99 * n <= 100 * k + 99;
    }
  }

  lemma ProductIsClose(n: nat)
    ensures var x := Times(n as real, FLOAT_099);
            0.0 <= 0.99 * n as real - x && (0.99 * n as real - x) * 9007199254740992.0 == 0.08 * n as real
  {
  }

  function Summary(samples: seq<int>): LatencyStats {
    if samples == [] then NO_LATENCY else
    SortedCopySorts(samples);
    P99IndexInRange(|samples|);
    var s := SortedCopy(samples);
    LatencyStats(s[0], s[|s| - 1], TruncDiv(Wrap64(Sum(samples)), |s|), s[P99Index(|s|)], |s|)
  }

  // --- What the numbers mean ---

  // The order in which the samples came does not matter.
  lemma SummaryOfPermutation(a: seq<int>, b: seq<int>)
    requires multiset(a) == multiset(b)
    ensures Summary(a) == Summary(b)
  {
    SortedCopySorts(a);
    SortedCopySorts(b);
    AscendingIsUnique(SortedCopy(a), SortedCopy(b));
    TotalOfPermutation(a, b, Itself());
  }

  // Division leaves less than the divisor, on the side away from zero.
  lemma TruncDivTruncates(a: int, b: int)
    requires b > 0
    ensures a >= 0 ==> TruncDiv(a, b) * b <= a < (TruncDiv(a, b) + 1) * b
    ensures a < 0 ==> (TruncDiv(a, b) - 1) * b < a <= TruncDiv(a, b) * b
  {
  }

  // The mean is the sum over the number of samples, with the fraction cut off, unless the
  // sum wraps.
  lemma MeanIsTruncated(samples: seq<int>)
    requires samples != [] && FitsInt64(Sum(samples))
    ensures var mean, n, sum := Summary(samples).mean, |samples|, Sum(samples);
            if sum >= 0 then mean * n <= sum < (mean + 1) * n else (mean - 1) * n < sum <= mean * n
  {
    SortedCopySorts(samples);
    WrapOfInt64(Sum(samples));
    SameCount(samples);
    TruncDivTruncates(Sum(samples), |samples|);
  }

  lemma SameCount(samples: seq<int>)
    ensures |SortedCopy(samples)| == |samples|
  {
    SortedCopySorts(samples);
    assert |multiset(SortedCopy(samples))| == |multiset(samples)|;
  }

  lemma MinMaxBound(samples: seq<int>)
    requires samples != []
    ensures forall x :: x in samples ==> Summary(samples).min <= x <= Summary(samples).max
    ensures Summary(samples).min in samples && Summary(samples).max in samples && Summary(samples).p99 in samples
  {
    SortedCopySorts(samples);
    P99IndexInRange(|samples|);
    var s := SortedCopy(samples);
    forall x | x in samples ensures s[0] <= x <= s[|s| - 1] {
      assert x in multiset(samples) && x in multiset(s);
    }
    assert s[0] in multiset(s) && s[|s| - 1] in multiset(s) && s[P99Index(|s|)] in multiset(s);
    assert s[0] in multiset(samples) && s[|s| - 1] in multiset(samples) && s[P99Index(|s|)] in multiset(samples);
  }

  lemma {:induction false} SumBounds(s: seq<int>, lo: int, hi: int)
    requires forall i :: 0 <= i < |s| ==> lo <= s[i] <= hi
    ensures lo * |s| <= Sum(s) <= hi * |s|
  {
    if s == [] {
    } else {
      SumBounds(s[..|s| - 1], lo, hi);
    }
  }

  lemma Scale(x: int, y: int, n: int)
    requires x <= y && n > 0
    ensures x * n <= y * n
  {
  }

  lemma DivBetween(a: nat, n: int, lo: int, hi: int)
    requires n > 0 && lo * n <= a <= hi * n
    ensures lo <= a / n <= hi
  {
    if a / n < lo {
      Scale(a / n + 1, lo, n);
    }
    if hi < a / n {
      Scale(hi + 1, a / n, n);
    }
  }

  lemma TruncDivBetween(a: int, n: int, lo: int, hi: int)
    requires n > 0 && lo * n <= a <= hi * n
    ensures lo <= TruncDiv(a, n) <= hi
  {
    if a >= 0 {
      DivBetween(a, n, lo, hi);
    } else {
      assert -hi * n == -(hi * n) && -lo * n == -(lo * n);
      DivBetween(-a, n, -hi, -lo);
    }
  }

  // The mean lies between the extremes, for negative latencies too, as long as
  // the sum has not wrapped.
  lemma MeanBetweenExtremes(samples: seq<int>)
    requires samples != [] && FitsInt64(Sum(samples))
    ensures Summary(samples).min <= Summary(samples).mean <= Summary(samples).max
    ensures Summary(samples).min <= Summary(samples).p99 <= Summary(samples).max
  {
    MinMaxBound(samples);
    var lo, hi := Summary(samples).min, Summary(samples).max;
    assert forall i :: 0 <= i < |samples| ==> samples[i] in samples;
    SumBounds(samples, lo, hi);
    TruncDivBetween(Sum(samples), |samples|, lo, hi);
    SortedCopySorts(samples);
    WrapOfInt64(Sum(samples));
  }

  // A full window of plausible latencies cannot make the sum wrap.
  lemma WindowCannotOverflow(samples: seq<int>)
    requires |samples| <= MAX_SAMPLES
    requires forall i :: 0 <= i < |samples| ==> -(MAX_INT64 / MAX_SAMPLES) <= samples[i] <= MAX_INT64 / MAX_SAMPLES
    ensures FitsInt64(Sum(samples)) && Wrap64(Sum(samples)) == Sum(samples)
  {
    SumBounds(samples, -(MAX_INT64 / MAX_SAMPLES), MAX_INT64 / MAX_SAMPLES);
    WrapOfInt64(Sum(samples));
  }

  lemma {:induction false} AtMostBounds(s: seq<int>, v: int)
    ensures 0 <= AtMost(s, v) <= |s|
    ensures (forall i :: 0 <= i < |s| ==> s[i] <= v) ==> AtMost(s, v) == |s|
    ensures (forall i :: 0 <= i < |s| ==> s[i] > v) ==> AtMost(s, v) == 0
  {
    if s == [] {
    } else {
      AtMostBounds(s[..|s| - 1], v);
    }
  }

  lemma {:induction false} AtMostInSorted(s: seq<int>, k: nat, v: int)
    requires Ascending(s) && k <= |s|
    ensures k > 0 && s[k - 1] <= v ==> AtMost(s, v) >= k
    ensures k < |s| && s[k] > v ==> AtMost(s, v) <= k
  {
    if k < |s| {
      AtMostInSorted(s[..|s| - 1], k, v);
      AtMostBounds(s[..|s| - 1], v);
    } else {
      AtMostBounds(s, v);
    }
  }

  lemma P99InSorted(s: seq<int>, k: nat)
    requires Ascending(s) && s != [] && k == P99Index(|s|)
    ensures k < |s| && 100 * AtMost(s, s[k]) > 99 * |s| && 100 * AtMost(s, s[k] - 1) <= 99 * |s|
  {
    AtMostInSorted(s, k + 1, s[k]);
    AtMostInSorted(s, k, s[k] - 1);
  }

  lemma P99OfSorted(samples: seq<int>)
    requires samples != []
    ensures P99Index(|samples|) < |samples| == |SortedCopy(samples)|
    ensures Summary(samples).p99 == SortedCopy(samples)[P99Index(|samples|)]
  {
    SortedCopySorts(samples);
    P99IndexInRange(|samples|);
  }

  lemma P99OfPermutation(samples: seq<int>, s: seq<int>)
    requires multiset(samples) == multiset(s) && Ascending(s) && s != []
    ensures |s| == |samples| && P99Index(|s|) < |s|
    ensures 100 * AtMost(samples, s[P99Index(|s|)]) > 99 * |samples|
    ensures 100 * AtMost(samples, s[P99Index(|s|)] - 1) <= 99 * |samples|
  {
    SameLength(samples, s);
    P99InSorted(s, P99Index(|s|));
    TotalOfPermutation(samples, s, Below(s[P99Index(|s|)]));
    TotalOfPermutation(samples, s, Below(s[P99Index(|s|)] - 1));
  }

  // P99 is where the 99th percentile is passed: strictly more than 99% of the
  // samples do not exceed it, and at most 99% stay below it.
  lemma P99Covers(samples: seq<int>)
    requires samples != []
    ensures 100 * AtMost(samples, Summary(samples).p99) > 99 * |samples|
    ensures 100 * AtMost(samples, Summary(samples).p99 - 1) <= 99 * |samples|
  {
    SortedCopySorts(samples);
    P99OfPermutation(samples, SortedCopy(samples));
    P99OfSorted(samples);
  }
}
