/**
 * Report 2 (`punto2_edad_faltante`): the share of cases without an age and
 * the recommendation it leads to, with a 5% threshold.
 */
module MissingAge {
  import opened Wrappers
  import Loader
  import opened Arith

  /** Position of the `edad` column in a row of `casos`. */
  const AgeField := 1

  /**
   * `SELECT COUNT(*) FROM casos WHERE edad IS NULL OR edad = ''`. Rows are
   * inserted verbatim as text, so no age is NULL; an empty field stays the
   * empty text and is the only missing age.
   */
  function CountMissingAge(casos: seq<Loader.Row>): (n: nat)
    requires forall i :: 0 <= i < |casos| ==> |casos[i]| == Loader.FieldCount
    ensures n <= |casos|
    ensures n == 0 <==> forall i :: 0 <= i < |casos| ==> casos[i][AgeField] != ""
  {
    if casos == [] then 0
    else (if casos[0][AgeField] == "" then 1 else 0) + CountMissingAge(casos[1..])
  }

  datatype Recommendation = DropMissing | ImputeCentral

  datatype MissingAgeSummary = MissingAgeSummary(total: nat, missing: nat, percentage: real, advice: Recommendation)

  /** `faltantes / total` on an empty table raises ZeroDivisionError. */
  datatype MissingAgeError = EmptyTable

  /** The report: percentage of missing ages and the advice to drop them below 5%, to impute otherwise. */
  function AnalyseMissingAge(total: nat, missing: nat): (r: Result<MissingAgeSummary, MissingAgeError>)
    ensures r.Err? <==> total == 0
    ensures r.Ok? ==> (r.value.total == total && r.value.missing == missing
      && r.value.percentage * total as real == 100.0 * missing as real)
    ensures r.Ok? ==> (r.value.advice == DropMissing <==> 20 * missing < total)
  {
    if total == 0 then Err(EmptyTable)
    else
      var p := Percent(missing, total);
      ThresholdInIntegers(total, missing, p);
      Ok(MissingAgeSummary(total, missing, p, if p < 5.0 then DropMissing else ImputeCentral))
  }

  /** Below 5% exactly when twenty times the missing count is below the total. */
  lemma ThresholdInIntegers(total: nat, missing: nat, p: real)
    requires total > 0 && p * total as real == 100.0 * missing as real
    ensures p < 5.0 <==> 20 * missing < total
  {
    var t := total as real;
    if p < 5.0 {
      PositiveProduct(5.0 - p, t);
    } else if p > 5.0 {
      PositiveProduct(p - 5.0, t);
    }
  }

  /** The report run on the loaded table: the total is its row count, the missing ages are its empty age fields. */
  function MissingAgeReport(casos: seq<Loader.Row>): (r: Result<MissingAgeSummary, MissingAgeError>)
    requires forall i :: 0 <= i < |casos| ==> |casos[i]| == Loader.FieldCount
    ensures r.Err? <==> casos == []
    ensures r.Ok? ==> (r.value.total == |casos| && r.value.missing == CountMissingAge(casos)
      && r.value.percentage * |casos| as real == 100.0 * CountMissingAge(casos) as real)
    ensures r.Ok? ==> 0.0 <= r.value.percentage <= 100.0
    ensures r.Ok? ==> (r.value.advice == DropMissing <==> 20 * CountMissingAge(casos) < |casos|)
    ensures r.Ok? ==> (r.value.percentage == 0.0 <==> forall i :: 0 <= i < |casos| ==> casos[i][AgeField] != "")
  {
    var r := AnalyseMissingAge(|casos|, CountMissingAge(casos));
    if r.Ok? then
      assert r.value.percentage == Percent(CountMissingAge(casos), |casos|);
      PercentBounds(CountMissingAge(casos), |casos|);
      r
    else r
  }
}
