/**
 * Report 3, second part (`punto3_promedio_edad_fallecidos`): outliers among
 * the ages of the deceased by the interquartile rule, with the quartiles read
 * at the floor indices `n // 4` and `3 * n // 4` of the sorted ages.
 * The ages are those of the query `... ORDER BY edad`, hence sorted.
 */
module Outliers {
  import opened Wrappers

  predicate Sorted(s: seq<int>)
  {
    forall i, j :: 0 <= i <= j < |s| ==> s[i] <= s[j]
  }

  /** The number of ages strictly below `v`. */
  function CountBelow(s: seq<int>, v: int): (n: nat)
    ensures n <= |s|
  {
    if s == [] then 0 else (if s[0] < v then 1 else 0) + CountBelow(s[1..], v)
  }

  /** The number of ages strictly above `v`. */
  function CountAbove(s: seq<int>, v: int): (n: nat)
    ensures n <= |s|
  {
    if s == [] then 0 else (if s[0] > v then 1 else 0) + CountAbove(s[1..], v)
  }

  /** The number of ages at most `v`. */
  function CountAtMost(s: seq<int>, v: int): (n: nat)
    ensures n <= |s|
  {
    if s == [] then 0 else (if s[0] <= v then 1 else 0) + CountAtMost(s[1..], v)
  }

  /** The number of ages at least `v`. */
  function CountAtLeast(s: seq<int>, v: int): (n: nat)
    ensures n <= |s|
  {
    if s == [] then 0 else (if s[0] >= v then 1 else 0) + CountAtLeast(s[1..], v)
  }

  datatype Quartiles = Quartiles(q1: int, q3: int, iqr: int)

  /**
   * `calcular_cuartiles`: on sorted ages, Q1 is the age of rank `n // 4`
   * (at most `n // 4` ages below it, more than `n // 4` at or below it) and
   * Q3 the age of rank `3 * n // 4` (counted the same way from the top);
   * `QuartilesAreOrderStatistics` shows these ranks fix both values.
   */
  function ComputeQuartiles(ages: seq<int>): (q: Quartiles)
    requires |ages| > 0
    ensures q.q1 in ages && q.q3 in ages && q.iqr == q.q3 - q.q1
    ensures Sorted(ages) ==> 0 <= q.iqr
    ensures Sorted(ages) ==> CountBelow(ages, q.q1) <= |ages| / 4 < CountAtMost(ages, q.q1)
    ensures Sorted(ages) ==> CountAbove(ages, q.q3) <= |ages| - 1 - 3 * |ages| / 4
    ensures Sorted(ages) ==> CountAtLeast(ages, q.q3) >= |ages| - 3 * |ages| / 4
  {
    var n := |ages|;
    QuartileRanks(ages);
    Quartiles(ages[n / 4], ages[3 * n / 4], ages[3 * n / 4] - ages[n / 4])
  }

  lemma QuartileRanks(ages: seq<int>)
    requires |ages| > 0
    ensures Sorted(ages) ==> CountBelow(ages, ages[|ages| / 4]) <= |ages| / 4
    ensures Sorted(ages) ==> CountAtMost(ages, ages[|ages| / 4]) > |ages| / 4
    ensures Sorted(ages) ==> CountAbove(ages, ages[3 * |ages| / 4]) <= |ages| - 1 - 3 * |ages| / 4
    ensures Sorted(ages) ==> CountAtLeast(ages, ages[3 * |ages| / 4]) >= |ages| - 3 * |ages| / 4
  {
    if Sorted(ages) {
      RankBelow(ages, |ages| / 4);
      RankAtMost(ages, |ages| / 4);
      RankAbove(ages, 3 * |ages| / 4);
      RankAtLeast(ages, 3 * |ages| / 4);
    }
  }

  /**
   * The rank conditions of `ComputeQuartiles` leave no choice: on sorted ages
   * the only Q1 meeting them is the age at index `n // 4`, and the only Q3 the
   * age at index `3 * n // 4`.
   */
  lemma QuartilesAreOrderStatistics(ages: seq<int>, q1: int, q3: int)
    requires Sorted(ages) && |ages| > 0
    requires CountBelow(ages, q1) <= |ages| / 4 < CountAtMost(ages, q1)
    requires CountAbove(ages, q3) <= |ages| - 1 - 3 * |ages| / 4
    requires CountAtLeast(ages, q3) >= |ages| - 3 * |ages| / 4
    ensures q1 == ages[|ages| / 4] && q3 == ages[3 * |ages| / 4]
  {
    var n := |ages|;
    var k1, k3 := n / 4, 3 * n / 4;
    if ages[k1] > q1 {
      CountAtMostUpTo(ages, q1, k1);
    } else if ages[k1] < q1 {
      CountBelowFrom(ages, q1, k1 + 1);
    }
    if ages[k3] < q3 {
      CountAtLeastFrom(ages, q3, k3 + 1);
    } else if ages[k3] > q3 {
      CountAboveUpTo(ages, q3, k3);
    }
  }

  /** In sorted ages, more than `k` ages are at most the one at index `k`. */
  lemma {:induction false} RankAtMost(s: seq<int>, k: nat)
    requires Sorted(s) && k < |s|
    ensures CountAtMost(s, s[k]) >= k + 1
  {
    if k > 0 {
      assert s[1..][k - 1] == s[k];
      RankAtMost(s[1..], k - 1);
    }
  }

  /** In sorted ages, at least `|s| - k` ages are at least the one at index `k`. */
  lemma {:induction false} RankAtLeast(s: seq<int>, k: nat)
    requires Sorted(s) && k < |s|
    ensures CountAtLeast(s, s[k]) >= |s| - k
  {
    if k == 0 {
      CountAtLeastFrom(s, s[0], 0);
      AllAtLeast(s, s[0]);
    } else {
      assert s[1..][k - 1] == s[k];
      RankAtLeast(s[1..], k - 1);
    }
  }

  lemma {:induction false} AllAtLeast(s: seq<int>, v: int)
    requires forall i :: 0 <= i < |s| ==> v <= s[i]
    ensures CountAtLeast(s, v) == |s|
  {
    if s != [] {
      AllAtLeast(s[1..], v);
    }
  }

  /** When the ages from index `k` on all exceed `v`, at most `k` ages are at most `v`. */
  lemma {:induction false} CountAtMostUpTo(s: seq<int>, v: int, k: nat)
    requires k <= |s| && forall i :: k <= i < |s| ==> s[i] > v
    ensures CountAtMost(s, v) <= k
  {
    if s != [] {
      CountAtMostUpTo(s[1..], v, if k == 0 then 0 else k - 1);
    }
  }

  /** When the ages from index `k` on all exceed `v`, at least `|s| - k` ages are above `v`. */
  lemma {:induction false} CountAboveUpTo(s: seq<int>, v: int, k: nat)
    requires k <= |s| && forall i :: k <= i < |s| ==> s[i] > v
    ensures CountAbove(s, v) >= |s| - k
  {
    if s != [] {
      CountAboveUpTo(s[1..], v, if k == 0 then 0 else k - 1);
    }
  }

  /** When the first `k` ages are all below `v`, at least `k` ages are below `v`. */
  lemma {:induction false} CountBelowFrom(s: seq<int>, v: int, k: nat)
    requires k <= |s| && forall i :: 0 <= i < k ==> s[i] < v
    ensures CountBelow(s, v) >= k
  {
    if k > 0 {
      CountBelowFrom(s[1..], v, k - 1);
    }
  }

  /** When the first `k` ages are all below `v`, at most `|s| - k` ages are at least `v`. */
  lemma {:induction false} CountAtLeastFrom(s: seq<int>, v: int, k: nat)
    requires k <= |s| && forall i :: 0 <= i < k ==> s[i] < v
    ensures CountAtLeast(s, v) <= |s| - k
  {
    if k > 0 {
      CountAtLeastFrom(s[1..], v, k - 1);
    }
  }

  /** In sorted ages, at most `k` ages lie strictly below the one at index `k`. */
  lemma {:induction false} RankBelow(s: seq<int>, k: nat)
    requires Sorted(s) && k < |s|
    ensures CountBelow(s, s[k]) <= k
  {
    if k == 0 {
      NoneBelow(s, s[0]);
    } else {
      assert s[1..][k - 1] == s[k];
      RankBelow(s[1..], k - 1);
    }
  }

  lemma {:induction false} NoneBelow(s: seq<int>, v: int)
    requires forall i :: 0 <= i < |s| ==> v <= s[i]
    ensures CountBelow(s, v) == 0
  {
    if s != [] {
      NoneBelow(s[1..], v);
    }
  }

  /** In sorted ages, at most `|s| - 1 - k` ages lie strictly above the one at index `k`. */
  lemma {:induction false} RankAbove(s: seq<int>, k: nat)
    requires Sorted(s) && k < |s|
    ensures CountAbove(s, s[k]) <= |s| - 1 - k
  {
    if k > 0 {
      assert s[1..][k - 1] == s[k];
      RankAbove(s[1..], k - 1);
    }
  }

  /** `Q1 - 1.5 * IQR`: at or below Q1 when the IQR is not negative, and a half-integer. */
  function LowerFence(q: Quartiles): (l: real)
    ensures q.iqr >= 0 ==> l <= q.q1 as real
    ensures 2.0 * l == (2 * q.q1 - 3 * q.iqr) as real
  {
    q.q1 as real - 1.5 * q.iqr as real
  }

  /** `Q3 + 1.5 * IQR`: at or above Q3 when the IQR is not negative, and a half-integer. */
  function UpperFence(q: Quartiles): (u: real)
    ensures q.iqr >= 0 ==> u >= q.q3 as real
    ensures 2.0 * u == (2 * q.q3 + 3 * q.iqr) as real
  {
    q.q3 as real + 1.5 * q.iqr as real
  }

  /** `e < lim_inf or e > lim_sup`: with a non-negative IQR, an age from Q1 to Q3 never is one. */
  predicate IsOutlier(e: int, q: Quartiles)
    ensures q.iqr >= 0 && q.q1 <= e <= q.q3 ==> !IsOutlier(e, q)
  {
    e as real < LowerFence(q) || e as real > UpperFence(q)
  }

  /** The fences are half-integers, so doubling both sides decides the rule in integers. */
  lemma OutlierInIntegers(e: int, q: Quartiles)
    ensures IsOutlier(e, q) <==> 2 * e < 2 * q.q1 - 3 * q.iqr || 2 * e > 2 * q.q3 + 3 * q.iqr
  {
  }

  /**
   * `[e for e in edades if e < lim_inf or e > lim_sup]`: every occurrence of an
   * age outside the fences, and nothing else, in the order of `ages`.
   */
  function OutliersOf(ages: seq<int>, q: Quartiles): (r: seq<int>)
    ensures |r| <= |ages|
    ensures forall e :: e in r <==> e in ages && IsOutlier(e, q)
    ensures forall e :: multiset(r)[e] == if IsOutlier(e, q) then multiset(ages)[e] else 0
    ensures Sorted(ages) ==> Sorted(r)
  {
    if ages == [] then []
    else
      assert ages == [ages[0]] + ages[1..];
      var rest := OutliersOf(ages[1..], q);
      if IsOutlier(ages[0], q) then
        SortedCons(ages, rest);
        [ages[0]] + rest
      else rest
  }

  lemma SortedCons(ages: seq<int>, rest: seq<int>)
    requires ages != [] && forall e :: e in rest ==> e in ages[1..]
    requires Sorted(ages[1..]) ==> Sorted(rest)
    ensures Sorted(ages) ==> Sorted([ages[0]] + rest)
  {
    if Sorted(ages) {
      assert Sorted(ages[1..]);
      forall e | e in rest
        ensures ages[0] <= e
      {
        var i :| 0 <= i < |ages[1..]| && ages[1..][i] == e;
        assert ages[i + 1] == e;
      }
      var r := [ages[0]] + rest;
      forall i, j | 0 <= i <= j < |r|
        ensures r[i] <= r[j]
      {
        if i > 0 {
          assert r[i] == rest[i - 1] && r[j] == rest[j - 1];
        } else {
          assert r[j] == ages[0] || r[j] in rest;
        }
      }
    }
  }

  /** Every outlier lies strictly below Q1 or strictly above Q3 when the IQR is not negative. */
  lemma {:induction false} OutliersOutsideQuartiles(ages: seq<int>, q: Quartiles)
    requires q.iqr >= 0
    ensures |OutliersOf(ages, q)| <= CountBelow(ages, q.q1) + CountAbove(ages, q.q3)
  {
    if ages != [] {
      OutliersOutsideQuartiles(ages[1..], q);
    }
  }

  datatype OutlierReport = OutlierReport(quartiles: Quartiles, outliers: seq<int>)

  /**
   * The outlier part of report 3. Fewer than four ages: no quartiles, the
   * report stops early. Otherwise the outliers are exactly the ages outside
   * the fences, in ascending order, and Q1 and Q3 themselves are never among
   * them, so at most a quarter of the ages fall on each side.
   */
  function DeceasedAgeOutliers(ages: seq<int>): (r: Option<OutlierReport>)
    requires Sorted(ages)
    ensures r.None? <==> |ages| < 4
    ensures r.Some? ==> (r.value.quartiles == ComputeQuartiles(ages)
      && r.value.outliers == OutliersOf(ages, r.value.quartiles))
    ensures r.Some? ==> (r.value.quartiles.q1 <= r.value.quartiles.q3
      && r.value.quartiles.q1 in ages && r.value.quartiles.q3 in ages)
    ensures r.Some? ==> forall e :: e in r.value.outliers <==> e in ages && IsOutlier(e, r.value.quartiles)
    ensures r.Some? ==> forall e ::
      multiset(r.value.outliers)[e] == if IsOutlier(e, r.value.quartiles) then multiset(ages)[e] else 0
    ensures r.Some? ==> Sorted(r.value.outliers)
    ensures r.Some? ==> (!IsOutlier(r.value.quartiles.q1, r.value.quartiles)
      && !IsOutlier(r.value.quartiles.q3, r.value.quartiles))
    ensures r.Some? ==> |r.value.outliers| <= |ages| / 4 + (|ages| - 1 - 3 * |ages| / 4)
  {
    if |ages| < 4 then None
    else
      var q := ComputeQuartiles(ages);
      OutliersOutsideQuartiles(ages, q);
      Some(OutlierReport(q, OutliersOf(ages, q)))
  }

  /** The worked example: ages 10, 12, ..., 24 give Q1 = 14, Q3 = 22, IQR = 8, fences 2 and 34, no outlier. */
  lemma EvenAgesHaveNoOutlier()
    ensures DeceasedAgeOutliers([10, 12, 14, 16, 18, 20, 22, 24])
      == Some(OutlierReport(Quartiles(14, 22, 8), []))
  {
    var s := [10, 12, 14, 16, 18, 20, 22, 24];
    var q := Quartiles(14, 22, 8);
    assert ComputeQuartiles(s) == q;
    assert LowerFence(q) == 2.0 && UpperFence(q) == 34.0;
    NoOutlierFound(s, q);
  }

  /** With no age outside the fences the list of outliers is empty. */
  lemma {:induction false} NoOutlierFound(ages: seq<int>, q: Quartiles)
    requires forall i :: 0 <= i < |ages| ==> !IsOutlier(ages[i], q)
    ensures OutliersOf(ages, q) == []
  {
    if ages != [] {
      NoOutlierFound(ages[1..], q);
    }
  }
}
