/**
 * Inclusive integer age intervals and the count of ages falling in one,
 * shared by the Sturges table and the fixed five-year bands.
 */
module AgeIntervals {
  import opened Arith

  /** An `(inferior, superior)` pair of the reports: both bounds belong to it. */
  datatype Interval = Interval(lower: int, upper: int)
  {
    predicate Contains(age: int)
    {
      lower <= age <= upper
    }
  }

  /** `sum(1 for edad in edades if inf <= edad <= sup)` */
  function CountIn(ages: seq<int>, lo: int, hi: int): (n: nat)
    ensures n <= |ages|
  {
    if ages == [] then 0
    else (if lo <= ages[0] <= hi then 1 else 0) + CountIn(ages[1..], lo, hi)
  }

  /** No age inside the range counts nothing; every age inside it counts them all. */
  lemma {:induction false} CountInExtremes(ages: seq<int>, lo: int, hi: int)
    ensures (forall i :: 0 <= i < |ages| ==> !(lo <= ages[i] <= hi)) ==> CountIn(ages, lo, hi) == 0
    ensures (forall i :: 0 <= i < |ages| ==> lo <= ages[i] <= hi) ==> CountIn(ages, lo, hi) == |ages|
  {
    if ages != [] {
      CountInExtremes(ages[1..], lo, hi);
    }
  }

  function Sum(s: seq<nat>): nat
  {
    if s == [] then 0 else Sum(s[..|s| - 1]) + s[|s| - 1]
  }

  /** The `i`-th of the contiguous intervals of width `w` that start at `lo`. */
  function NthInterval(lo: int, w: int, i: int): (iv: Interval)
    ensures iv.upper - iv.lower + 1 == w
  {
    Interval(lo + i * w, lo + i * w + w - 1)
  }

  /** Counting two adjacent ranges separately is counting their union. */
  lemma {:induction false} CountInSplit(ages: seq<int>, a: int, b: int, c: int)
    requires a <= b + 1 <= c + 1
    ensures CountIn(ages, a, b) + CountIn(ages, b + 1, c) == CountIn(ages, a, c)
  {
    if ages != [] {
      CountInSplit(ages[1..], a, b, c);
    }
  }

  /** Counting a sequence piecewise: the counts of a concatenation add up. */
  lemma {:induction false} CountInAppend(xs: seq<int>, ys: seq<int>, lo: int, hi: int)
    ensures CountIn(xs + ys, lo, hi) == CountIn(xs, lo, hi) + CountIn(ys, lo, hi)
  {
    if xs == [] {
      assert xs + ys == ys;
    } else {
      assert (xs + ys)[1..] == xs[1..] + ys;
      CountInAppend(xs[1..], ys, lo, hi);
    }
  }

  /**
   * Frequencies counted over `|freqs|` contiguous intervals of width `w >= 0`
   * starting at `lo` add up to the count over the whole range they span:
   * no age is counted twice, and no age inside the span is lost.
   */
  lemma {:induction false} SumOfFrequencies(ages: seq<int>, lo: int, w: int, freqs: seq<nat>)
    requires w >= 0
    requires forall i :: 0 <= i < |freqs| ==>
      freqs[i] == CountIn(ages, NthInterval(lo, w, i).lower, NthInterval(lo, w, i).upper)
    ensures Sum(freqs) == CountIn(ages, lo, lo + |freqs| * w - 1)
  {
    var k := |freqs|;
    if k == 0 {
      CountInExtremes(ages, lo, lo - 1);
    } else {
      var init := freqs[..k - 1];
      assert forall i :: 0 <= i < |init| ==> init[i] == freqs[i];
      SumOfFrequencies(ages, lo, w, init);
      var m := (k - 1) * w;
      assert m >= 0 by { MulNonNegative(k - 1, w); }
      assert k * w == m + w by { MulStep(k - 1, w); }
      assert freqs[k - 1] == CountIn(ages, lo + m, lo + m + w - 1);
      CountInSplit(ages, lo, lo + m - 1, lo + m + w - 1);
      assert Sum(freqs) == Sum(init) + freqs[k - 1];
    }
  }
}
