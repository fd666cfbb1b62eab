/**
 * Report 5 (`punto5_mujeres_hombres_fallecidos_por_intervalo`): deceased women
 * and the male case-fatality percentage per fixed five-year age band, and the
 * band where each peaks. Every age is assigned to the first band containing it.
 * The ages come from queries restricted to `BETWEEN 0 AND 120`.
 */
module MortalityBands {
  import opened Wrappers
  import opened AgeIntervals
  import opened Arith
  import Text

  /** `[(i, i + 4) for i in range(0, 105, 5)]`: 0-4, 5-9, ..., 100-104. */
  function FixedBands(): (bands: seq<Interval>)
    ensures |bands| == 21
  {
    seq(21, j requires 0 <= j < 21 => Interval(5 * j, 5 * j + 4))
  }

  /** The bands tile the ages 0 to 104: each is five years wide and starts right after the previous one. */
  lemma FixedBandsTile()
    ensures FixedBands()[0].lower == 0 && FixedBands()[20].upper == 104
    ensures forall j :: 0 <= j < 21 ==> FixedBands()[j].upper == FixedBands()[j].lower + 4
    ensures forall j :: 0 < j < 21 ==> FixedBands()[j].lower == FixedBands()[j - 1].upper + 1
  {
  }

  /** The index of the first band at or after `i` that contains `age`, if any. */
  function FirstMatchFrom(bands: seq<Interval>, age: int, i: nat): (r: Option<nat>)
    ensures r.Some? ==> (i <= r.value < |bands| && bands[r.value].Contains(age)
      && (forall j :: i <= j < r.value ==> !bands[j].Contains(age)))
    ensures r.None? ==> forall j :: i <= j < |bands| ==> !bands[j].Contains(age)
    decreases |bands| - i
  {
    if i >= |bands| then None
    else if bands[i].Contains(age) then Some(i)
    else FirstMatchFrom(bands, age, i + 1)
  }

  /** The band the `for ... if inicio <= edad <= fin: ... break` loop picks for `age`. */
  function BandOf(age: int): Option<nat>
  {
    FirstMatchFrom(FixedBands(), age, 0)
  }

  /** Ages 0 to 104 fall in band `age / 5`, and only there; every other age falls in none. */
  lemma BandOfAge(age: int)
    ensures 0 <= age <= 104 ==> BandOf(age) == Some(age / 5)
    ensures !(0 <= age <= 104) ==> BandOf(age) == None
  {
    var bands := FixedBands();
    if 0 <= age <= 104 {
      assert bands[age / 5].Contains(age);
    }
    match BandOf(age)
    case Some(j) => assert bands[j] == Interval(5 * j, 5 * j + 4);
    case None =>
  }

  /** An age is assigned to band `j` exactly when it lies from `5 * j` to `5 * j + 4`. */
  lemma InBand(age: int, j: nat)
    requires j < 21
    ensures BandOf(age) == Some(j) <==> 5 * j <= age <= 5 * j + 4
  {
    var bands := FixedBands();
    assert bands[j] == Interval(5 * j, 5 * j + 4);
    match BandOf(age)
    case Some(r) => assert bands[r] == Interval(5 * r, 5 * r + 4);
    case None =>
  }

  /** One row of the male query: the age and the `fallecido` field. */
  datatype MaleCase = MaleCase(age: int, deceased: string)

  /** The number of `ages` assigned to band `j`. */
  function Tally(ages: seq<int>, j: nat): nat
  {
    if ages == [] then 0
    else Tally(ages[..|ages| - 1], j) + (if BandOf(ages[|ages| - 1]) == Some(j) then 1 else 0)
  }

  /** The number of male cases assigned to band `j`. */
  function MaleTotal(cases: seq<MaleCase>, j: nat): nat
  {
    if cases == [] then 0
    else MaleTotal(cases[..|cases| - 1], j) + (if BandOf(cases[|cases| - 1].age) == Some(j) then 1 else 0)
  }

  /** The number of male cases assigned to band `j` whose flag reads "SI". */
  function MaleDeaths(cases: seq<MaleCase>, j: nat): nat
  {
    if cases == [] then 0
    else
      var c := cases[|cases| - 1];
      MaleDeaths(cases[..|cases| - 1], j) + (if BandOf(c.age) == Some(j) && Text.IsYesFlag(c.deceased) then 1 else 0)
  }

  /** In every band, the male deaths are among the male cases. */
  lemma {:induction false} DeathsWithinTotals(cases: seq<MaleCase>, j: nat)
    ensures MaleDeaths(cases, j) <= MaleTotal(cases, j)
  {
    if cases != [] {
      DeathsWithinTotals(cases[..|cases| - 1], j);
    }
  }

  /** Band `j` counts exactly the ages from `5 * j` to `5 * j + 4`. */
  lemma {:induction false} TallyIsRangeCount(ages: seq<int>, j: nat)
    requires j < 21
    ensures Tally(ages, j) == CountIn(ages, 5 * j, 5 * j + 4)
  {
    if ages != [] {
      var init, last := ages[..|ages| - 1], ages[|ages| - 1];
      TallyIsRangeCount(init, j);
      assert ages == init + [last];
      CountInAppend(init, [last], 5 * j, 5 * j + 4);
      InBand(last, j);
    }
  }

  /** The bands together count the ages from 0 to 104; older ages are counted in none. */
  lemma BandsCountUpTo104(ages: seq<int>, tallies: seq<nat>)
    requires |tallies| == 21 && forall j :: 0 <= j < 21 ==> tallies[j] == Tally(ages, j)
    ensures Sum(tallies) == CountIn(ages, 0, 104)
  {
    forall j | 0 <= j < 21
      ensures tallies[j] == CountIn(ages, NthInterval(0, 5, j).lower, NthInterval(0, 5, j).upper)
    {
      TallyIsRangeCount(ages, j);
      assert NthInterval(0, 5, j) == Interval(5 * j, 5 * j + 4);
    }
    SumOfFrequencies(ages, 0, 5, tallies);
  }

  /** What the inner loop's exit says about the band of `age`: `hit` is the band it broke at, or -1. */
  lemma BandFound(age: int, hit: int)
    requires -1 <= hit < 21
    requires hit >= 0 ==> FixedBands()[hit].Contains(age)
    requires forall j :: 0 <= j < (if hit == -1 then 21 else hit) ==> !FixedBands()[j].Contains(age)
    ensures hit >= 0 ==> BandOf(age) == Some(hit)
    ensures hit == -1 ==> BandOf(age) == None
  {
  }

  lemma TallyStep(ages: seq<int>, n: nat)
    requires n < |ages|
    ensures forall j: nat :: Tally(ages[..n + 1], j) == Tally(ages[..n], j) + (if BandOf(ages[n]) == Some(j) then 1 else 0)
  {
    assert ages[..n + 1][..n] == ages[..n];
  }

  /** One more male case adds one to the case counter of its band, if it has one. */
  lemma MaleTotalsStep(cases: seq<MaleCase>, n: nat)
    requires n < |cases|
    ensures forall j: nat ::
      MaleTotal(cases[..n + 1], j) == MaleTotal(cases[..n], j) + (if BandOf(cases[n].age) == Some(j) then 1 else 0)
  {
    assert cases[..n + 1][..n] == cases[..n];
  }

  /** One more male case adds one to the death counter of its band, if it has one and its flag reads "SI". */
  lemma MaleDeathsStep(cases: seq<MaleCase>, n: nat)
    requires n < |cases|
    ensures forall j: nat ::
      MaleDeaths(cases[..n + 1], j)
      == MaleDeaths(cases[..n], j) + (if BandOf(cases[n].age) == Some(j) && Text.IsYesFlag(cases[n].deceased) then 1 else 0)
  {
    assert cases[..n + 1][..n] == cases[..n];
  }

  /**
   * The inner `for i, (inicio, fin) in enumerate(intervalos)` loop up to its
   * `break`: the index of the first band containing `age`, or -1 when the loop
   * runs out of bands.
   */
  method FirstBand(bands: seq<Interval>, age: int) returns (hit: int)
    requires bands == FixedBands()
    ensures -1 <= hit < |bands|
    ensures hit == -1 ==> BandOf(age) == None
    ensures hit >= 0 ==> BandOf(age) == Some(hit)
  {
    var i := 0;
    while i < |bands|
      invariant 0 <= i <= |bands|
      invariant forall j :: 0 <= j < i ==> !bands[j].Contains(age)
    {
      if bands[i].lower <= age <= bands[i].upper {
        BandFound(age, i);
        return i;
      }
      i := i + 1;
    }
    BandFound(age, -1);
    return -1;
  }

  /**
   * The loop over the deceased women: each age increments the counter of the
   * first band that contains it, if any.
   */
  method TallyFemaleDeaths(ages: seq<int>) returns (counts: seq<nat>)
    ensures |counts| == 21
    ensures forall j :: 0 <= j < 21 ==> counts[j] == Tally(ages, j)
  {
    var bands := FixedBands();
    var mujeres := new nat[|bands|](_ => 0);
    var n := 0;
    while n < |ages|
      invariant 0 <= n <= |ages|
      invariant forall j :: 0 <= j < 21 ==> mujeres[j] == Tally(ages[..n], j)
    {
      var i := FirstBand(bands, ages[n]);
      if i >= 0 {
        mujeres[i] := mujeres[i] + 1;
      }
      TallyStep(ages, n);
      n := n + 1;
    }
    assert ages[..|ages|] == ages;
    counts := mujeres[..];
  }

  /**
   * The loop over the male cases: each case increments the case counter of the
   * first band containing its age, and the death counter too when its flag
   * reads "SI".
   */
  method TallyMaleCases(cases: seq<MaleCase>) returns (deaths: seq<nat>, totals: seq<nat>)
    ensures |deaths| == 21 && |totals| == 21
    ensures forall j :: 0 <= j < 21 ==> totals[j] == MaleTotal(cases, j)
    ensures forall j :: 0 <= j < 21 ==> deaths[j] == MaleDeaths(cases, j)
  {
    var bands := FixedBands();
    var hombresFallecidos := new nat[|bands|](_ => 0);
    var hombresTotales := new nat[|bands|](_ => 0);
    var n := 0;
    while n < |cases|
      invariant 0 <= n <= |cases|
      invariant forall j :: 0 <= j < 21 ==> hombresTotales[j] == MaleTotal(cases[..n], j)
      invariant forall j :: 0 <= j < 21 ==> hombresFallecidos[j] == MaleDeaths(cases[..n], j)
    {
      var edad, fallecido := cases[n].age, cases[n].deceased;
      var i := FirstBand(bands, edad);
      if i >= 0 {
        hombresTotales[i] := hombresTotales[i] + 1;
        if Text.IsYesFlag(fallecido) {
          hombresFallecidos[i] := hombresFallecidos[i] + 1;
        }
      }
      MaleTotalsStep(cases, n);
      MaleDeathsStep(cases, n);
      n := n + 1;
    }
    assert cases[..|cases|] == cases;
    deaths, totals := hombresFallecidos[..], hombresTotales[..];
  }

  /** `(fallecidos / total) * 100`, or 0 for a band without male cases. */
  function FatalityPercentage(deaths: nat, total: nat): (p: real)
    ensures total == 0 ==> p == 0.0
    ensures total > 0 ==> p * total as real == 100.0 * deaths as real
    ensures deaths <= total ==> 0.0 <= p <= 100.0
  {
    if total == 0 then 0.0
    else
      assert deaths <= total ==> 0.0 <= Percent(deaths, total) <= 100.0 by {
        if deaths <= total {
          PercentBounds(deaths, total);
        }
      }
      Percent(deaths, total)
  }

  /** The percentage loop over `zip(hombres_fallecidos, hombres_totales)`. */
  method MalePercentages(deaths: seq<nat>, totals: seq<nat>) returns (pcts: seq<real>)
    requires |deaths| == |totals|
    ensures |pcts| == |totals|
    ensures forall j :: 0 <= j < |totals| ==> pcts[j] == FatalityPercentage(deaths[j], totals[j])
  {
    pcts := [];
    var j := 0;
    while j < |totals|
      invariant 0 <= j <= |totals| && |pcts| == j
      invariant forall i :: 0 <= i < j ==> pcts[i] == FatalityPercentage(deaths[i], totals[i])
    {
      if totals[j] == 0 {
        pcts := pcts + [0.0];
      } else {
        pcts := pcts + [(deaths[j] as real / totals[j] as real) * 100.0];
      }
      j := j + 1;
    }
  }

  /** `s.index(max(s))`: the first position holding the largest value. */
  function FirstMaxIndex(s: seq<real>): (r: nat)
    requires s != []
    ensures r < |s|
    ensures forall i :: 0 <= i < |s| ==> s[i] <= s[r]
    ensures forall i :: 0 <= i < r ==> s[i] < s[r]
  {
    if |s| == 1 then 0
    else
      var j := FirstMaxIndex(s[..|s| - 1]);
      if s[|s| - 1] > s[j] then |s| - 1 else j
  }

  function AsReals(s: seq<nat>): (r: seq<real>)
    ensures |r| == |s| && forall i :: 0 <= i < |s| ==> r[i] == s[i] as real
  {
    seq(|s|, i requires 0 <= i < |s| => s[i] as real)
  }

  datatype BandReport = BandReport(
    bands: seq<Interval>,
    femaleDeaths: seq<nat>,
    malePercentages: seq<real>,
    femalePeak: nat,
    maleRatePeak: nat)

  /**
   * Report 5: per band, the deceased women counted by age range, the male
   * case-fatality percentage in [0, 100] (0 without male cases), and the
   * first band holding the largest value of each (`intervalos[idx]` is the band printed).
   */
  method MortalityByBand(femaleDeathAges: seq<int>, maleCases: seq<MaleCase>) returns (rep: BandReport)
    requires forall i :: 0 <= i < |femaleDeathAges| ==> 0 <= femaleDeathAges[i] <= 120
    requires forall i :: 0 <= i < |maleCases| ==> 0 <= maleCases[i].age <= 120
    ensures rep.bands == FixedBands()
    ensures |rep.femaleDeaths| == 21 && |rep.malePercentages| == 21
    ensures forall j :: 0 <= j < 21 ==> rep.femaleDeaths[j] == CountIn(femaleDeathAges, 5 * j, 5 * j + 4)
    ensures Sum(rep.femaleDeaths) == CountIn(femaleDeathAges, 0, 104)
    ensures forall j :: 0 <= j < 21 ==> 0.0 <= rep.malePercentages[j] <= 100.0
    ensures forall j :: 0 <= j < 21 ==>
      rep.malePercentages[j] == FatalityPercentage(MaleDeaths(maleCases, j), MaleTotal(maleCases, j))
    ensures rep.femalePeak < 21 && rep.maleRatePeak < 21
    ensures forall j :: 0 <= j < 21 ==> rep.femaleDeaths[j] <= rep.femaleDeaths[rep.femalePeak]
    ensures forall j :: 0 <= j < rep.femalePeak ==> rep.femaleDeaths[j] < rep.femaleDeaths[rep.femalePeak]
    ensures forall j :: 0 <= j < 21 ==> rep.malePercentages[j] <= rep.malePercentages[rep.maleRatePeak]
    ensures forall j :: 0 <= j < rep.maleRatePeak ==> rep.malePercentages[j] < rep.malePercentages[rep.maleRatePeak]
  {
    var bands := FixedBands();
    var mujeres := TallyFemaleDeaths(femaleDeathAges);
    var hombresFallecidos, hombresTotales := TallyMaleCases(maleCases);
    forall j | 0 <= j < 21
      ensures mujeres[j] == CountIn(femaleDeathAges, 5 * j, 5 * j + 4)
      ensures hombresTotales[j] == MaleTotal(maleCases, j) && hombresFallecidos[j] == MaleDeaths(maleCases, j)
      ensures hombresFallecidos[j] <= hombresTotales[j]
    {
      TallyIsRangeCount(femaleDeathAges, j);
      DeathsWithinTotals(maleCases, j);
    }
    BandsCountUpTo104(femaleDeathAges, mujeres);
    var porcentajes := MalePercentages(hombresFallecidos, hombresTotales);
    var maxMujeres := FirstMaxIndex(AsReals(mujeres));
    var maxPorcentaje := FirstMaxIndex(porcentajes);
    rep := BandReport(bands, mujeres, porcentajes, maxMujeres, maxPorcentaje);
  }
}
