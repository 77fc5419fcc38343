/**
 * The age histogram of the chart helpers: ages are grouped into buckets
 * of a fixed width starting at the youngest age, and each bucket gets a
 * bar scaled so that the fullest bucket is twenty cells wide.
 */
module ChartComponents {
  import opened Wrappers
  import opened Text

  /** The width of the fullest bucket's bar. */
  const BarWidth: int := 20

  /** One histogram line: the ages it covers, its bar length and how many ages fell in it. */
  datatype Bar = Bar(rangeStart: int, rangeEnd: int, length: int, count: int)

  // -------------------------------------------------------- specification

  function Lowest(ages: seq<int>): (lo: int)
    requires ages != []
    ensures lo in ages && forall i :: 0 <= i < |ages| ==> lo <= ages[i]
  {
    if |ages| == 1 then ages[0]
    else
      var rest := Lowest(ages[..|ages| - 1]);
      if ages[|ages| - 1] < rest then ages[|ages| - 1] else rest
  }

  function Highest(ages: seq<int>): (hi: int)
    requires ages != []
    ensures hi in ages && forall i :: 0 <= i < |ages| ==> ages[i] <= hi
  {
    if |ages| == 1 then ages[0]
    else
      var rest := Highest(ages[..|ages| - 1]);
      if ages[|ages| - 1] > rest then ages[|ages| - 1] else rest
  }

  /** The bucket of an age: whole bucket widths above the youngest age. */
  function BucketOf(age: int, lo: int, bucketSize: int): int
    requires bucketSize > 0
  {
    (age - lo) / bucketSize
  }

  /** Enough buckets to reach the oldest age. */
  function BucketCount(ages: seq<int>, bucketSize: int): nat
    requires ages != [] && bucketSize > 0
  {
    BucketOf(Highest(ages), Lowest(ages), bucketSize) + 1
  }

  /** How many of the ages fall in bucket `b`. */
  function CountIn(ages: seq<int>, lo: int, bucketSize: int, b: int): nat
    requires bucketSize > 0
  {
    if ages == [] then 0
    else CountIn(ages[..|ages| - 1], lo, bucketSize, b) + if BucketOf(ages[|ages| - 1], lo, bucketSize) == b then 1 else 0
  }

  /** The counts of buckets `0 .. n - 1`. */
  function Counts(ages: seq<int>, lo: int, bucketSize: int, n: nat): (c: seq<nat>)
    requires bucketSize > 0
    ensures |c| == n && forall b :: 0 <= b < n ==> c[b] == CountIn(ages, lo, bucketSize, b)
  {
    if n == 0 then [] else Counts(ages, lo, bucketSize, n - 1) + [CountIn(ages, lo, bucketSize, n - 1)]
  }

  function Sum(s: seq<nat>): nat
  {
    if s == [] then 0 else Sum(s[..|s| - 1]) + s[|s| - 1]
  }

  /** The largest count, or 0 when there is none. */
  function MaxOf(s: seq<nat>): (m: nat)
    ensures forall i :: 0 <= i < |s| ==> s[i] <= m
    ensures m == 0 || m in s
  {
    if s == [] then 0
    else
      var rest := MaxOf(s[..|s| - 1]);
      if s[|s| - 1] > rest then s[|s| - 1] else rest
  }

  /** The bar for a count: scaled to the fullest count, rounded down. */
  function BarLength(count: nat, maxCount: nat): int
  {
    if maxCount > 0 then count * BarWidth / maxCount else 0
  }

  function BarFor(lo: int, bucketSize: int, b: int, count: nat, maxCount: nat): Bar
  {
    var start := lo + b * bucketSize;
    Bar(start, start + bucketSize - 1, BarLength(count, maxCount), count)
  }

  /** Every line of the histogram of non-empty `ages`. */
  function HistogramBars(ages: seq<int>, bucketSize: int): (bars: seq<Bar>)
    requires ages != [] && bucketSize > 0
    ensures |bars| == BucketCount(ages, bucketSize)
  {
    var lo := Lowest(ages);
    var counts := Counts(ages, lo, bucketSize, BucketCount(ages, bucketSize));
    var maxCount := MaxOf(counts);
    seq(|counts|, b requires 0 <= b < |counts| => BarFor(lo, bucketSize, b, counts[b], maxCount))
  }

  // ------------------------------------------------------------ properties

  /** Every age lands in one of the buckets. */
  lemma AgeBucketInRange(ages: seq<int>, bucketSize: int, k: nat)
    requires bucketSize > 0 && k < |ages|
    ensures 0 <= BucketOf(ages[k], Lowest(ages), bucketSize) < BucketCount(ages, bucketSize)
  {
    DivisionMonotone(ages[k] - Lowest(ages), Highest(ages) - Lowest(ages), bucketSize);
  }

  /** Multiplying by a non-negative number keeps the order. */
  lemma MulMonotone(a: int, b: int, d: int)
    requires d >= 0
    ensures a <= b ==> a * d <= b * d
  {
    var e := b - a;
    assert b * d == a * d + e * d;
  }

  /** `x / d` is the `q` with `q * d <= x < q * d + d`. */
  lemma DivIs(x: int, d: int, q: int)
    requires d > 0 && q * d <= x < q * d + d
    ensures x / d == q
  {
    var q' := x / d;
    assert q' * d <= x < q' * d + d;
    MulMonotone(q + 1, q', d);
    MulMonotone(q' + 1, q, d);
    assert (q + 1) * d == q * d + d && (q' + 1) * d == q' * d + d;
  }

  lemma DivisionMonotone(x: int, y: int, d: int)
    requires 0 <= x <= y && d > 0
    ensures 0 <= x / d <= y / d
  {
    var qx, qy := x / d, y / d;
    assert qx * d <= x < qx * d + d && qy * d <= y < qy * d + d;
    MulMonotone(qy + 1, qx, d);
    MulMonotone(qx, -1, d);
    assert (qy + 1) * d == qy * d + d;
  }

  /** Bucket `b` holds exactly the ages from `lo + b * bucketSize` to `lo + b * bucketSize + bucketSize - 1`. */
  lemma BucketCovers(age: int, lo: int, bucketSize: int, b: int)
    requires bucketSize > 0 && age >= lo
    ensures BucketOf(age, lo, bucketSize) == b <==> lo + b * bucketSize <= age <= lo + b * bucketSize + bucketSize - 1
  {
    var q := (age - lo) / bucketSize;
    assert q * bucketSize <= age - lo < q * bucketSize + bucketSize;
    if lo + b * bucketSize <= age <= lo + b * bucketSize + bucketSize - 1 {
      DivIs(age - lo, bucketSize, b);
    }
  }

  /** Adding one age adds one to the total of the buckets it can land in. */
  lemma {:induction false} CountsGrow(ages: seq<int>, lo: int, bucketSize: int, n: nat, x: int)
    requires bucketSize > 0
    ensures Sum(Counts(ages + [x], lo, bucketSize, n)) ==
      Sum(Counts(ages, lo, bucketSize, n)) + if 0 <= BucketOf(x, lo, bucketSize) < n then 1 else 0
  {
    assert (ages + [x])[..|ages|] == ages;
    if n > 0 {
      CountsGrow(ages, lo, bucketSize, n - 1, x);
      var c := Counts(ages + [x], lo, bucketSize, n);
      var c0 := Counts(ages, lo, bucketSize, n);
      assert c[..n - 1] == Counts(ages + [x], lo, bucketSize, n - 1);
      assert c0[..n - 1] == Counts(ages, lo, bucketSize, n - 1);
    }
  }

  /** When every age lands in one of `n` buckets, the bucket counts add up to the number of ages. */
  lemma {:induction false} CountsAddUp(ages: seq<int>, lo: int, bucketSize: int, n: nat)
    requires bucketSize > 0
    requires forall k :: 0 <= k < |ages| ==> 0 <= BucketOf(ages[k], lo, bucketSize) < n
    ensures Sum(Counts(ages, lo, bucketSize, n)) == |ages|
  {
    if ages == [] {
      EmptyCounts(lo, bucketSize, n);
    } else {
      var init := ages[..|ages| - 1];
      assert ages == init + [ages[|ages| - 1]];
      CountsAddUp(init, lo, bucketSize, n);
      CountsGrow(init, lo, bucketSize, n, ages[|ages| - 1]);
    }
  }

  lemma {:induction false} EmptyCounts(lo: int, bucketSize: int, n: nat)
    requires bucketSize > 0
    ensures Sum(Counts([], lo, bucketSize, n)) == 0
  {
    if n > 0 {
      EmptyCounts(lo, bucketSize, n - 1);
      assert Counts([], lo, bucketSize, n)[..n - 1] == Counts([], lo, bucketSize, n - 1);
    }
  }

  /** The bucket of any listed age is not empty. */
  lemma {:induction false} OwnBucketNotEmpty(ages: seq<int>, lo: int, bucketSize: int, k: nat)
    requires bucketSize > 0 && k < |ages|
    ensures CountIn(ages, lo, bucketSize, BucketOf(ages[k], lo, bucketSize)) >= 1
  {
    if k < |ages| - 1 {
      OwnBucketNotEmpty(ages[..|ages| - 1], lo, bucketSize, k);
    }
  }

  /** Line `b` covers the ages from `lowest + b * bucketSize` to `lowest + b * bucketSize + bucketSize - 1` and counts the ages in bucket `b`. */
  lemma HistogramLines(ages: seq<int>, bucketSize: int)
    requires ages != [] && bucketSize > 0
    ensures var bars := HistogramBars(ages, bucketSize);
      forall b :: 0 <= b < |bars| ==>
        && bars[b].rangeStart == Lowest(ages) + b * bucketSize
        && bars[b].rangeEnd == bars[b].rangeStart + bucketSize - 1
        && bars[b].count == CountIn(ages, Lowest(ages), bucketSize, b)
  {
  }

  /** The counts of the lines add up to the number of ages, and some line is not empty. */
  lemma HistogramCountsAddUp(ages: seq<int>, bucketSize: int)
    requires ages != [] && bucketSize > 0
    ensures Sum(Counts(ages, Lowest(ages), bucketSize, BucketCount(ages, bucketSize))) == |ages|
    ensures MaxOf(Counts(ages, Lowest(ages), bucketSize, BucketCount(ages, bucketSize))) > 0
  {
    var lo := Lowest(ages);
    var n := BucketCount(ages, bucketSize);
    forall k | 0 <= k < |ages|
      ensures 0 <= BucketOf(ages[k], lo, bucketSize) < n
    {
      AgeBucketInRange(ages, bucketSize, k);
    }
    CountsAddUp(ages, lo, bucketSize, n);
    OwnBucketNotEmpty(ages, lo, bucketSize, 0);
    assert Counts(ages, lo, bucketSize, n)[BucketOf(ages[0], lo, bucketSize)] >= 1;
  }

  /** Every bar is between 0 and 20 cells, and exactly the buckets with the largest count get all 20. */
  lemma HistogramBarLengths(ages: seq<int>, bucketSize: int)
    requires ages != [] && bucketSize > 0
    ensures var bars := HistogramBars(ages, bucketSize);
      forall b :: 0 <= b < |bars| ==>
        && 0 <= bars[b].length <= BarWidth
        && (bars[b].length == BarWidth <==> forall c :: 0 <= c < |bars| ==> bars[c].count <= bars[b].count)
  {
    var counts := Counts(ages, Lowest(ages), bucketSize, BucketCount(ages, bucketSize));
    var maxCount := MaxOf(counts);
    var bars := HistogramBars(ages, bucketSize);
    HistogramCountsAddUp(ages, bucketSize);
    assert forall c :: 0 <= c < |bars| ==> bars[c].count == counts[c];
    forall b | 0 <= b < |bars|
      ensures 0 <= bars[b].length <= BarWidth
      ensures bars[b].length == BarWidth <==> forall c :: 0 <= c < |bars| ==> bars[c].count <= bars[b].count
    {
      BarScale(counts[b], maxCount);
    }
  }

  /** A bar is at most the full width, and exactly the full width when its count is the largest. */
  lemma BarScale(count: nat, maxCount: nat)
    requires 0 < maxCount && count <= maxCount
    ensures 0 <= BarLength(count, maxCount) <= BarWidth
    ensures BarLength(count, maxCount) == BarWidth <==> count == maxCount
  {
    var p := count * 20;
    var q := p / maxCount;
    assert BarLength(count, maxCount) == q;
    assert q * maxCount <= p < q * maxCount + maxCount;
    MulMonotone(count, maxCount, 20);
    MulMonotone(20, q, maxCount);
    MulMonotone(q, -1, maxCount);
    if count == maxCount {
      DivIs(p, maxCount, 20);
    }
  }

  // ---------------------------------------------------------- the method

  /**
   * `createAgeHistogram`: "No data available" (`None`) for no ages, and
   * otherwise the histogram's lines. The ages are Java `int`s.
   */
  method AgeHistogram(ages: seq<int>, bucketSize: int) returns (bars: Option<seq<Bar>>)
    requires bucketSize > 0
    requires forall k :: 0 <= k < |ages| ==> IsInt32(ages[k])
    ensures bars.None? <==> ages == []
    ensures bars.Some? ==> bars.value == HistogramBars(ages, bucketSize)
  {
    if |ages| == 0 {
      return None;
    }
    var minAge, maxAge := AgeRange(ages);
    var numBuckets := (maxAge - minAge) / bucketSize + 1;
    var buckets := CountBuckets(ages, minAge, bucketSize, numBuckets);
    var maxCount := LargestCount(buckets);
    var lines := DrawBars(minAge, bucketSize, buckets, maxCount);
    HistogramBarsAre(ages, bucketSize, lines);
    return Some(lines);
  }

  lemma HistogramBarsAre(ages: seq<int>, bucketSize: int, lines: seq<Bar>)
    requires ages != [] && bucketSize > 0
    requires var counts := Counts(ages, Lowest(ages), bucketSize, BucketCount(ages, bucketSize));
      && |lines| == |counts|
      && forall b :: 0 <= b < |counts| ==> lines[b] == BarFor(Lowest(ages), bucketSize, b, counts[b], MaxOf(counts))
    ensures lines == HistogramBars(ages, bucketSize)
  {
  }

  /** The last loop: one line per bucket with its range, bar and count. */
  method DrawBars(minAge: int, bucketSize: int, buckets: seq<nat>, maxCount: nat) returns (lines: seq<Bar>)
    ensures |lines| == |buckets|
    ensures forall b :: 0 <= b < |buckets| ==> lines[b] == BarFor(minAge, bucketSize, b, buckets[b], maxCount)
  {
    lines := [];
    var i := 0;
    while i < |buckets|
      invariant 0 <= i <= |buckets|
      invariant |lines| == i
      invariant forall b :: 0 <= b < i ==> lines[b] == BarFor(minAge, bucketSize, b, buckets[b], maxCount)
    {
      var rangeStart := minAge + i * bucketSize;
      var rangeEnd := rangeStart + bucketSize - 1;
      var barLen := if maxCount > 0 then buckets[i] * BarWidth / maxCount else 0;
      lines := lines + [Bar(rangeStart, rangeEnd, barLen, buckets[i])];
      i := i + 1;
    }
  }

  /** The first loop: the youngest and the oldest age, starting from `int`'s extremes. */
  method AgeRange(ages: seq<int>) returns (minAge: int, maxAge: int)
    requires ages != [] && forall k :: 0 <= k < |ages| ==> IsInt32(ages[k])
    ensures minAge == Lowest(ages) && maxAge == Highest(ages)
  {
    minAge, maxAge := IntMax, IntMin;
    var k := 0;
    while k < |ages|
      invariant 0 <= k <= |ages|
      invariant k == 0 ==> minAge == IntMax && maxAge == IntMin
      invariant k > 0 ==> minAge == Lowest(ages[..k]) && maxAge == Highest(ages[..k])
    {
      assert ages[..k + 1][..k] == ages[..k];
      minAge := if ages[k] < minAge then ages[k] else minAge;
      maxAge := if ages[k] > maxAge then ages[k] else maxAge;
      k := k + 1;
    }
    assert ages[..k] == ages;
  }

  /** The second loop: one increment of the age's bucket per age. */
  method CountBuckets(ages: seq<int>, minAge: int, bucketSize: int, numBuckets: int) returns (buckets: seq<nat>)
    requires ages != [] && bucketSize > 0
    requires minAge == Lowest(ages) && numBuckets == BucketCount(ages, bucketSize)
    ensures buckets == Counts(ages, minAge, bucketSize, numBuckets)
  {
    var counts := new nat[numBuckets](_ => 0);
    var k := 0;
    while k < |ages|
      invariant 0 <= k <= |ages|
      invariant forall b :: 0 <= b < numBuckets ==> counts[b] == CountIn(ages[..k], minAge, bucketSize, b)
    {
      AgeBucketInRange(ages, bucketSize, k);
      var bucketIndex := (ages[k] - minAge) / bucketSize;
      assert ages[..k + 1][..k] == ages[..k];
      counts[bucketIndex] := counts[bucketIndex] + 1;
      k := k + 1;
    }
    assert ages[..k] == ages;
    buckets := counts[..];
  }

  /** The third loop: the largest bucket count, starting from 0. */
  method LargestCount(buckets: seq<nat>) returns (maxCount: nat)
    ensures maxCount == MaxOf(buckets)
  {
    maxCount := 0;
    var i := 0;
    while i < |buckets|
      invariant 0 <= i <= |buckets|
      invariant maxCount == MaxOf(buckets[..i])
    {
      assert buckets[..i + 1][..i] == buckets[..i];
      maxCount := if buckets[i] > maxCount then buckets[i] else maxCount;
      i := i + 1;
    }
    assert buckets[..i] == buckets;
  }
}
