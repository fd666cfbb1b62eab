/**
 * Report 4 (`punto4_sturges_intervalos`): the ages of confirmed cases, all in
 * [0, 120], split into `k` contiguous intervals of width `ceil(rango / k)`
 * starting at the youngest age, with the number of ages in each.
 * The class count `k = round(1 + 3.322 * log10(n))` is a parameter.
 */
module Sturges {
  import opened Wrappers
  import opened AgeIntervals
  import opened Arith

  /** `math.ceil(rango / k)` for a non-negative range and a positive class count. */
  function ClassWidth(range: nat, k: nat): (w: nat)
    requires k >= 1
    ensures k * w >= range && k * w < range + k
  {
    (range + k - 1) / k
  }

  /**
   * The narrowest width whose `k` intervals reach one past the range, so that
   * they cover the oldest age as well; it is `ClassWidth` unless `k` divides
   * the range.
   */
  function CoveringClassWidth(range: nat, k: nat): (w: nat)
    requires k >= 1
    ensures k * w > range && k * (w - 1) <= range
    ensures range % k != 0 ==> w == ClassWidth(range, k)
  {
    CoveringWidthBounds(range, k);
    range / k + 1
  }

  lemma CoveringWidthBounds(range: nat, k: nat)
    requires k >= 1
    ensures k * (range / k + 1) > range && k * (range / k) <= range
    ensures range % k != 0 ==> range / k + 1 == ClassWidth(range, k)
  {
    var q, m := range / k, range % k;
    assert range == k * q + m;
    MulStep(q, k);
    assert k * (q + 1) == k * q + k;
    if m != 0 {
      DivUnique(range + k - 1, k, q + 1, m - 1);
    }
  }

  lemma DivUnique(a: int, k: int, q: int, m: int)
    requires k > 0 && 0 <= m < k && a == k * q + m
    ensures a / k == q
  {
    var q', m' := a / k, a % k;
    assert k * q' + m' == k * q + m;
    if q' < q {
      MulMonotone(q' + 1, q, k);
      MulStep(q', k);
    } else if q < q' {
      MulMonotone(q + 1, q', k);
      MulStep(q, k);
    }
  }

  /** The width reaches exactly the range, and no further, when `k` divides it. */
  lemma ClassWidthExact(range: nat, k: nat)
    requires k >= 1
    ensures k * ClassWidth(range, k) == range <==> range % k == 0
  {
    var w, q, m := ClassWidth(range, k), range / k, range % k;
    assert range == k * q + m;
    if m == 0 {
      DivUnique(range + k - 1, k, q, k - 1);
    } else if k * w == range {
      assert range == k * w + 0;
      DivUnique(range, k, w, 0);
    }
  }

  /**
   * The interval-building loop: `superior = inferior + ancho_clase - 1`,
   * then `inferior = superior + 1`, `k` times.
   */
  method BuildIntervals(minAge: int, width: int, k: nat) returns (intervals: seq<Interval>)
    ensures |intervals| == k
    ensures forall i :: 0 <= i < k ==> intervals[i] == NthInterval(minAge, width, i)
  {
    intervals := [];
    var lower := minAge;
    var i := 0;
    while i < k
      invariant 0 <= i <= k && |intervals| == i
      invariant lower == minAge + i * width
      invariant forall j :: 0 <= j < i ==> intervals[j] == NthInterval(minAge, width, j)
    {
      var upper := lower + width - 1;
      intervals := intervals + [Interval(lower, upper)];
      lower := upper + 1;
      MulStep(i, width);
      i := i + 1;
    }
  }

  /**
   * The intervals the loop builds are contiguous: the first starts at the
   * youngest age and each starts right after the previous one ends.
   */
  lemma IntervalsContiguous(minAge: int, width: int, i: nat)
    ensures NthInterval(minAge, width, 0).lower == minAge
    ensures NthInterval(minAge, width, i + 1).lower == NthInterval(minAge, width, i).upper + 1
  {
    MulStep(i, width);
  }

  /** The frequency loop: for each interval, the number of ages inside it. */
  method CountFrequencies(ages: seq<int>, intervals: seq<Interval>) returns (freqs: seq<nat>)
    ensures |freqs| == |intervals|
    ensures forall i :: 0 <= i < |intervals| ==>
      freqs[i] == CountIn(ages, intervals[i].lower, intervals[i].upper)
  {
    freqs := [];
    var i := 0;
    while i < |intervals|
      invariant 0 <= i <= |intervals| && |freqs| == i
      invariant forall j :: 0 <= j < i ==> freqs[j] == CountIn(ages, intervals[j].lower, intervals[j].upper)
    {
      freqs := freqs + [CountIn(ages, intervals[i].lower, intervals[i].upper)];
      i := i + 1;
    }
  }

  function Min(s: seq<int>): (m: int)
    requires s != []
    ensures m in s && forall i :: 0 <= i < |s| ==> m <= s[i]
  {
    if |s| == 1 then s[0] else var m := Min(s[1..]); if s[0] <= m then s[0] else m
  }

  function Max(s: seq<int>): (m: int)
    requires s != []
    ensures m in s && forall i :: 0 <= i < |s| ==> s[i] <= m
  {
    if |s| == 1 then s[0] else var m := Max(s[1..]); if s[0] >= m then s[0] else m
  }

  datatype FrequencyTable = FrequencyTable(minAge: int, maxAge: int, width: int, intervals: seq<Interval>, freqs: seq<nat>)

  /** The table over `ages` with intervals of the given width. */
  method TableWithWidth(ages: seq<int>, k: nat, width: nat) returns (t: FrequencyTable)
    requires ages != []
    ensures t.minAge == Min(ages) && t.maxAge == Max(ages) && t.width == width
    ensures |t.intervals| == k && |t.freqs| == k
    ensures forall i :: 0 <= i < k ==> t.intervals[i] == NthInterval(t.minAge, width, i)
    ensures forall i :: 0 <= i < k ==> t.freqs[i] == CountIn(ages, t.intervals[i].lower, t.intervals[i].upper)
    ensures Sum(t.freqs) == CountIn(ages, t.minAge, t.minAge + k * width - 1)
  {
    var minAge, maxAge := Min(ages), Max(ages);
    var intervals := BuildIntervals(minAge, width, k);
    var freqs := CountFrequencies(ages, intervals);
    SumOfFrequencies(ages, minAge, width, freqs);
    assert |freqs| == k;
    t := FrequencyTable(minAge, maxAge, width, intervals, freqs);
  }

  /**
   * Report 4 as written: no data stops the report; otherwise `k` intervals
   * of width `ClassWidth(rango, k)` from the youngest age. Every age is
   * counted at most once; all of them are counted exactly when `k` does not
   * divide the range, and otherwise the ages equal to the maximum are missed.
   */
  method SturgesTable(ages: seq<int>, k: nat) returns (r: Option<FrequencyTable>)
    requires k >= 1
    requires forall i :: 0 <= i < |ages| ==> 0 <= ages[i] <= 120
    ensures r.None? <==> ages == []
    ensures r.Some? ==> r.value.minAge == Min(ages) && r.value.maxAge == Max(ages)
    ensures r.Some? ==> (|r.value.intervals| == k && |r.value.freqs| == k
      && r.value.width == ClassWidth(r.value.maxAge - r.value.minAge, k))
    ensures r.Some? ==> forall i :: 0 <= i < k ==>
      r.value.intervals[i] == NthInterval(Min(ages), r.value.width, i)
      && r.value.freqs[i] == CountIn(ages, r.value.intervals[i].lower, r.value.intervals[i].upper)
    ensures r.Some? ==> Sum(r.value.freqs) <= |ages|
    ensures r.Some? && (Max(ages) - Min(ages)) % k != 0 ==> Sum(r.value.freqs) == |ages|
    ensures r.Some? && (Max(ages) - Min(ages)) % k == 0 ==>
      Sum(r.value.freqs) == |ages| - CountIn(ages, Max(ages), Max(ages)) < |ages|
  {
    if ages == [] {
      return None;
    }
    var width := ClassWidth(Max(ages) - Min(ages), k);
    var t := TableWithWidth(ages, k, width);
    WrittenWidthCoverage(ages, k, width, Sum(t.freqs));
    return Some(t);
  }

  /**
   * The intervals from the youngest age span `k * width` ages: every age is
   * counted when that reaches past the range; when it is exactly the range,
   * every age but those equal to the maximum is.
   */
  lemma CoverageOfWidth(ages: seq<int>, k: nat, width: nat)
    requires ages != [] && k >= 1
    requires k * width >= Max(ages) - Min(ages)
    ensures k * width > Max(ages) - Min(ages) ==> CountIn(ages, Min(ages), Min(ages) + k * width - 1) == |ages|
    ensures k * width == Max(ages) - Min(ages) ==>
      CountIn(ages, Min(ages), Min(ages) + k * width - 1) == |ages| - CountIn(ages, Max(ages), Max(ages)) < |ages|
  {
    var lo, hi := Min(ages), Max(ages);
    CountInExtremes(ages, lo, lo + k * width - 1);
    if k * width == hi - lo {
      CountInSplit(ages, lo, hi - 1, hi);
      CountInExtremes(ages, lo, hi);
      assert hi in ages;
      MaximumCounted(ages, hi);
    }
  }

  /** With the width as written, the span misses exactly the ages equal to the maximum when `k` divides the range. */
  lemma WrittenWidthCoverage(ages: seq<int>, k: nat, width: nat, spanned: nat)
    requires ages != [] && k >= 1 && width == ClassWidth(Max(ages) - Min(ages), k)
    requires spanned == CountIn(ages, Min(ages), Min(ages) + k * width - 1)
    ensures (Max(ages) - Min(ages)) % k != 0 ==> spanned == |ages|
    ensures (Max(ages) - Min(ages)) % k == 0 ==> spanned == |ages| - CountIn(ages, Max(ages), Max(ages)) < |ages|
  {
    ClassWidthExact(Max(ages) - Min(ages), k);
    CoverageOfWidth(ages, k, width);
  }

  /**
   * The smallest witness: ages 0 and 10 in two classes give width 5 and the
   * intervals 0-4 and 5-9, so the age 10 is in neither and the frequencies
   * add up to 1 of 2 ages.
   */
  lemma OldestAgeMissed()
    ensures var ages := [0, 10];
      var w := ClassWidth(Max(ages) - Min(ages), 2);
      && w == 5
      && NthInterval(Min(ages), w, 0) == Interval(0, 4)
      && NthInterval(Min(ages), w, 1) == Interval(5, 9)
      && CountIn(ages, 0, 4) + CountIn(ages, 5, 9) == 1
  {
    var ages := [0, 10];
    assert Min(ages) == 0 && Max(ages) == 10;
    assert ClassWidth(10, 2) == 5;
    assert ages[1..] == [10];
    assert CountIn(ages, 0, 4) == 1;
    assert CountIn(ages, 5, 9) == 0;
  }

  lemma {:induction false} MaximumCounted(ages: seq<int>, v: int)
    requires v in ages
    ensures CountIn(ages, v, v) > 0
  {
    if ages[0] != v {
      MaximumCounted(ages[1..], v);
    }
  }

  /**
   * Report 4 with `CoveringClassWidth`: the `k` intervals partition the span
   * from the youngest age past the oldest, so the frequencies add up to the
   * number of ages.
   */
  method CoveringSturgesTable(ages: seq<int>, k: nat) returns (r: Option<FrequencyTable>)
    requires k >= 1
    requires forall i :: 0 <= i < |ages| ==> 0 <= ages[i] <= 120
    ensures r.None? <==> ages == []
    ensures r.Some? ==> r.value.minAge == Min(ages) && r.value.maxAge == Max(ages)
    ensures r.Some? ==> (|r.value.intervals| == k && |r.value.freqs| == k
      && r.value.width == CoveringClassWidth(r.value.maxAge - r.value.minAge, k))
    ensures r.Some? ==> (r.value.intervals[0].lower == r.value.minAge
      && r.value.intervals[k - 1].upper >= r.value.maxAge)
    ensures r.Some? ==> forall i :: 0 <= i < k ==>
      r.value.intervals[i] == NthInterval(Min(ages), r.value.width, i)
      && r.value.freqs[i] == CountIn(ages, r.value.intervals[i].lower, r.value.intervals[i].upper)
    ensures r.Some? ==> Sum(r.value.freqs) == |ages|
  {
    if ages == [] {
      return None;
    }
    var range := Max(ages) - Min(ages);
    var width := CoveringClassWidth(range, k);
    var t := TableWithWidth(ages, k, width);
    CoverageOfWidth(ages, k, width);
    assert k * width > range;
    assert Sum(t.freqs) == CountIn(ages, Min(ages), Min(ages) + k * width - 1) == |ages|;
    assert t.intervals[k - 1] == NthInterval(t.minAge, t.width, k - 1);
    MulStep(k - 1, t.width);
    return Some(t);
  }

  /**
   * Within the span of the intervals, an age lies in exactly one of them:
   * the one at index `(age - minAge) / width`.
   */
  lemma ExactlyOneInterval(minAge: int, width: int, k: nat, age: int, i: nat)
    requires width > 0 && i < k
    requires minAge <= age <= minAge + k * width - 1
    ensures NthInterval(minAge, width, i).Contains(age) <==> i == (age - minAge) / width
  {
    var d := age - minAge;
    var q := d / width;
    assert q * width <= d < q * width + width;
    if i < q {
      MulMonotone(i + 1, q, width);
      MulStep(i, width);
    } else if i > q {
      MulMonotone(q + 1, i, width);
      MulStep(q, width);
    }
  }
}
