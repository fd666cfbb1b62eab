/**
 * Report 9 (`punto9_indice_confirmados_por_sexo`): confirmed cases per
 * province and sex against the census population of that province and sex,
 * the national totals per sex, and the verdict on which sex has the higher
 * share of confirmed cases.
 * The census is the map from (stripped province, sex) to population that the
 * census file yields; the counts are the rows of the grouped query, whose
 * `sexo IN ('F', 'M')` filter leaves only the two sexes.
 */
module SexIndex {
  import opened Wrappers
  import Text
  import opened Arith

  /** One row of `SELECT residencia_provincia_nombre, TRIM(UPPER(sexo)), COUNT(*) ... GROUP BY ...`. */
  datatype SexCount = SexCount(provincia: string, sexo: Sex, cantidad: nat)

  type Census = map<(string, string), int>

  /** `(cant, pob, indice)` */
  datatype SexEntry = SexEntry(count: nat, population: int, index: real)

  /** The two values `TRIM(UPPER(sexo))` can take once `sexo IN ('F', 'M')` has filtered the rows. */
  datatype Sex = F | M

  /** The text of a sex as the query returns it and as the census keys spell it. */
  function Code(sexo: Sex): string
  {
    match sexo
    case F => "F"
    case M => "M"
  }

  /** The census key of a row: its stripped province name and its sex. */
  function Key(row: SexCount): (string, string)
  {
    (Text.Strip(row.provincia), Code(row.sexo))
  }

  /** `pob = poblacion.get(clave)` then `if pob:`: a missing key and a population of 0 are both unmatched. */
  predicate Matched(row: SexCount, census: Census)
  {
    Key(row) in census && census[Key(row)] != 0
  }

  function EntryOf(row: SexCount, census: Census): SexEntry
    requires Matched(row, census)
  {
    SexEntry(row.cantidad, census[Key(row)], Percent(row.cantidad, census[Key(row)]))
  }

  /**
   * `datos` after the rows: for each matched row, `datos[prov][sexo]` holds
   * its entry, under the province name as the query gave it (not stripped).
   * This is `datos` on its own, as `ConfirmedTotal`, `PopulationTotal` and
   * `MissingKeys` are the other dicts on their own: the lemmas about one
   * dict reason about it without the others. `AccumulatedAfter` is the
   * whole loop state, which the loop is proved against; `DatosIsTable` and
   * its siblings join the two.
   */
  function Table(rows: seq<SexCount>, census: Census): map<string, map<Sex, SexEntry>>
  {
    if rows == [] then map[]
    else
      var t := Table(rows[..|rows| - 1], census);
      var row := rows[|rows| - 1];
      if Matched(row, census) then
        var inner := if row.provincia in t then t[row.provincia] else map[];
        t[row.provincia := inner[row.sexo := EntryOf(row, census)]]
      else t
  }

  /** `total_confirmados[sexo]`: the counts of the matched rows of that sex. */
  function ConfirmedTotal(rows: seq<SexCount>, census: Census, sexo: Sex): int
  {
    if rows == [] then 0
    else
      var row := rows[|rows| - 1];
      ConfirmedTotal(rows[..|rows| - 1], census, sexo)
        + (if Matched(row, census) && row.sexo == sexo then row.cantidad else 0)
  }

  /** `total_poblacion[sexo]`: the census populations of the matched rows of that sex. */
  function PopulationTotal(rows: seq<SexCount>, census: Census, sexo: Sex): int
  {
    if rows == [] then 0
    else
      var row := rows[|rows| - 1];
      PopulationTotal(rows[..|rows| - 1], census, sexo)
        + (if Matched(row, census) && row.sexo == sexo then census[Key(row)] else 0)
  }

  /** The keys of the "Faltan datos del censo" warnings, in query order. */
  function MissingKeys(rows: seq<SexCount>, census: Census): seq<(string, string)>
  {
    if rows == [] then []
    else
      var row := rows[|rows| - 1];
      MissingKeys(rows[..|rows| - 1], census) + (if Matched(row, census) then [] else [Key(row)])
  }

  /** All the cases counted by the query. */
  function CaseCount(rows: seq<SexCount>): nat
  {
    if rows == [] then 0 else CaseCount(rows[..|rows| - 1]) + rows[|rows| - 1].cantidad
  }

  /** The cases of the rows the census does not match. */
  function UnmatchedCases(rows: seq<SexCount>, census: Census): nat
  {
    if rows == [] then 0
    else
      var row := rows[|rows| - 1];
      UnmatchedCases(rows[..|rows| - 1], census) + (if Matched(row, census) then 0 else row.cantidad)
  }

  /**
   * Every case of the query is counted once: in the women's total, in the
   * men's total, or among the rows the census does not match.
   */
  lemma {:induction false} TotalsAccountForEveryCase(rows: seq<SexCount>, census: Census)
    ensures ConfirmedTotal(rows, census, F) + ConfirmedTotal(rows, census, M) + UnmatchedCases(rows, census)
      == CaseCount(rows)
  {
    if rows != [] {
      var init := rows[..|rows| - 1];
      assert forall i :: 0 <= i < |init| ==> init[i] == rows[i];
      TotalsAccountForEveryCase(init, census);
    }
  }

  /** The number of rows the census does not match. */
  function UnmatchedRows(rows: seq<SexCount>, census: Census): (n: nat)
    ensures n <= |rows|
  {
    if rows == [] then 0
    else UnmatchedRows(rows[..|rows| - 1], census) + (if Matched(rows[|rows| - 1], census) then 0 else 1)
  }

  /**
   * The warnings are the keys of the unmatched rows, one per row and in query
   * order: there are as many as unmatched rows, the unmatched row at index `i`
   * gives the warning after those of the unmatched rows before it, and each
   * warning names a key the census lacks or maps to 0.
   */
  lemma {:induction false} WarningsAreUnmatchedKeys(rows: seq<SexCount>, census: Census)
    ensures |MissingKeys(rows, census)| == UnmatchedRows(rows, census)
    ensures forall i :: 0 <= i < |rows| && !Matched(rows[i], census) ==>
      UnmatchedRows(rows[..i], census) < |MissingKeys(rows, census)|
      && MissingKeys(rows, census)[UnmatchedRows(rows[..i], census)] == Key(rows[i])
    ensures forall k :: k in MissingKeys(rows, census) ==> k !in census || census[k] == 0
    ensures forall i :: 0 <= i < |rows| && !Matched(rows[i], census) ==> Key(rows[i]) in MissingKeys(rows, census)
  {
    if rows != [] {
      var init := rows[..|rows| - 1];
      WarningsAreUnmatchedKeys(init, census);
      forall i | 0 <= i < |rows| && !Matched(rows[i], census)
        ensures UnmatchedRows(rows[..i], census) < |MissingKeys(rows, census)|
          && MissingKeys(rows, census)[UnmatchedRows(rows[..i], census)] == Key(rows[i])
      {
        if i < |init| {
          assert init[..i] == rows[..i] && init[i] == rows[i];
        } else {
          assert rows[..i] == init;
        }
      }
    }
  }

  /** The row at index `i` is matched and has the province name `prov` and the sex `sexo`. */
  predicate MatchedAt(rows: seq<SexCount>, census: Census, i: int, prov: string, sexo: Sex)
  {
    0 <= i < |rows| && Matched(rows[i], census) && rows[i].provincia == prov && rows[i].sexo == sexo
  }

  /**
   * `datos` holds an entry for every matched row and nothing else: each entry
   * is that of a matched row with the same raw province name and sex, and its
   * index is its share of the population.
   */
  lemma {:induction false} TableHoldsMatchedRows(rows: seq<SexCount>, census: Census)
    ensures forall i :: 0 <= i < |rows| && Matched(rows[i], census) ==>
      rows[i].provincia in Table(rows, census) && rows[i].sexo in Table(rows, census)[rows[i].provincia]
    ensures forall p, s :: p in Table(rows, census) && s in Table(rows, census)[p] ==>
      (exists i :: MatchedAt(rows, census, i, p, s) && Table(rows, census)[p][s] == EntryOf(rows[i], census))
  {
    if rows != [] {
      var init := rows[..|rows| - 1];
      TableHoldsMatchedRows(init, census);
      assert forall i :: 0 <= i < |init| ==> init[i] == rows[i];
      var t, t' := Table(init, census), Table(rows, census);
      forall p, s | p in t' && s in t'[p]
        ensures exists i :: MatchedAt(rows, census, i, p, s) && t'[p][s] == EntryOf(rows[i], census)
      {
        var last := |rows| - 1;
        if Matched(rows[last], census) && p == rows[last].provincia && s == rows[last].sexo {
          assert MatchedAt(rows, census, last, p, s);
        } else {
          assert p in t && s in t[p] && t'[p][s] == t[p][s];
          var i :| MatchedAt(init, census, i, p, s) && t[p][s] == EntryOf(init[i], census);
          assert MatchedAt(rows, census, i, p, s);
        }
      }
    }
  }

  /** No two rows of the grouped query share a province name and a sex. */
  predicate DistinctGroups(rows: seq<SexCount>)
  {
    forall i, j :: 0 <= i < j < |rows| ==> (rows[i].provincia, rows[i].sexo) != (rows[j].provincia, rows[j].sexo)
  }

  /** With `GROUP BY` rows, the entry of a matched row is never overwritten. */
  lemma {:induction false} GroupedEntriesKept(rows: seq<SexCount>, census: Census)
    requires DistinctGroups(rows)
    ensures forall i :: 0 <= i < |rows| && Matched(rows[i], census) ==>
      rows[i].provincia in Table(rows, census) && rows[i].sexo in Table(rows, census)[rows[i].provincia]
      && Table(rows, census)[rows[i].provincia][rows[i].sexo] == EntryOf(rows[i], census)
  {
    TableHoldsMatchedRows(rows, census);
    if rows != [] {
      var init := rows[..|rows| - 1];
      assert forall i :: 0 <= i < |init| ==> init[i] == rows[i];
      GroupedEntriesKept(init, census);
    }
  }

  /** The running state of the loop: `datos`, the two totals dicts and the warnings. */
  datatype Accumulated = Accumulated(
    datos: map<string, map<Sex, SexEntry>>,
    confirmed: map<Sex, int>,
    population: map<Sex, int>,
    missing: seq<(string, string)>)

  /** The dicts before the first row: `{}`, zero totals for F and M, no warning. */
  function InitialState(): Accumulated
  {
    Accumulated(map[], map[F := 0, M := 0], map[F := 0, M := 0], [])
  }

  /** Both totals dicts have the keys F and M. */
  predicate HasBothSexes(acc: Accumulated)
  {
    F in acc.confirmed && M in acc.confirmed && F in acc.population && M in acc.population
  }

  /**
   * One pass of the loop body on the state `before`: a matched row sets its
   * entry in `datos` and adds to the totals of its sex; another one adds a
   * warning.
   */
  function RowStep(before: Accumulated, row: SexCount, census: Census): (after: Accumulated)
    requires HasBothSexes(before)
    ensures HasBothSexes(after)
  {
    if Matched(row, census) then
      var inner := if row.provincia in before.datos then before.datos[row.provincia] else map[];
      Accumulated(before.datos[row.provincia := inner[row.sexo := EntryOf(row, census)]],
                  before.confirmed[row.sexo := before.confirmed[row.sexo] + row.cantidad],
                  before.population[row.sexo := before.population[row.sexo] + census[Key(row)]],
                  before.missing)
    else before.(missing := before.missing + [Key(row)])
  }

  /** The state the loop reaches after `rows`: `RowStep` applied to each row in turn. */
  function AccumulatedAfter(rows: seq<SexCount>, census: Census): (acc: Accumulated)
    ensures HasBothSexes(acc)
  {
    if rows == [] then InitialState()
    else RowStep(AccumulatedAfter(rows[..|rows| - 1], census), rows[|rows| - 1], census)
  }

  /** The state after one more row is that row's `RowStep` from the state before it. */
  lemma AccumulatedStep(rows: seq<SexCount>, census: Census, n: nat)
    requires n < |rows|
    ensures AccumulatedAfter(rows[..n + 1], census) == RowStep(AccumulatedAfter(rows[..n], census), rows[n], census)
  {
    assert rows[..n + 1][..n] == rows[..n];
  }

  /**
   * What the loop leaves behind: `datos` is `Table`, the totals of each sex
   * are the matched counts and populations of that sex, and the warnings are
   * `MissingKeys`.
   */
  lemma AccumulatedIsTotals(rows: seq<SexCount>, census: Census)
    ensures var acc := AccumulatedAfter(rows, census);
      && acc.datos == Table(rows, census)
      && acc.confirmed[F] == ConfirmedTotal(rows, census, F)
      && acc.confirmed[M] == ConfirmedTotal(rows, census, M)
      && acc.population[F] == PopulationTotal(rows, census, F)
      && acc.population[M] == PopulationTotal(rows, census, M)
      && acc.missing == MissingKeys(rows, census)
  {
    DatosIsTable(rows, census);
    TotalsOfEachSex(rows, census, F);
    TotalsOfEachSex(rows, census, M);
    WarningsAreMissingKeys(rows, census);
  }

  lemma {:induction false} DatosIsTable(rows: seq<SexCount>, census: Census)
    ensures AccumulatedAfter(rows, census).datos == Table(rows, census)
  {
    if rows != [] {
      var init := rows[..|rows| - 1];
      assert forall i :: 0 <= i < |init| ==> init[i] == rows[i];
      DatosIsTable(init, census);
    }
  }

  /** One row adds its count and its population to the totals of its own sex only, and only when matched. */
  lemma RowStepTotals(before: Accumulated, row: SexCount, census: Census, sexo: Sex)
    requires HasBothSexes(before)
    ensures RowStep(before, row, census).confirmed[sexo]
      == before.confirmed[sexo] + (if Matched(row, census) && row.sexo == sexo then row.cantidad else 0)
    ensures RowStep(before, row, census).population[sexo]
      == before.population[sexo] + (if Matched(row, census) && row.sexo == sexo then census[Key(row)] else 0)
  {
  }

  lemma {:induction false} TotalsOfEachSex(rows: seq<SexCount>, census: Census, sexo: Sex)
    ensures AccumulatedAfter(rows, census).confirmed[sexo] == ConfirmedTotal(rows, census, sexo)
    ensures AccumulatedAfter(rows, census).population[sexo] == PopulationTotal(rows, census, sexo)
  {
    if rows != [] {
      var init := rows[..|rows| - 1];
      TotalsOfEachSex(init, census, sexo);
      RowStepTotals(AccumulatedAfter(init, census), rows[|rows| - 1], census, sexo);
    }
  }

  lemma {:induction false} WarningsAreMissingKeys(rows: seq<SexCount>, census: Census)
    ensures AccumulatedAfter(rows, census).missing == MissingKeys(rows, census)
  {
    if rows != [] {
      var init := rows[..|rows| - 1];
      assert forall i :: 0 <= i < |init| ==> init[i] == rows[i];
      WarningsAreMissingKeys(init, census);
    }
  }

  /**
   * The body of the loop for one row `(prov, sexo, cant)`: look up
   * `(prov.strip(), sexo)` in the census; with a nonzero population, record
   * the entry under the raw province name and add to the totals of the sex,
   * otherwise warn about the key.
   */
  method AddRow(datos0: map<string, map<Sex, SexEntry>>, totalConfirmados0: map<Sex, int>,
                totalPoblacion0: map<Sex, int>, missing0: seq<(string, string)>, row: SexCount, census: Census)
    returns (datos: map<string, map<Sex, SexEntry>>, totalConfirmados: map<Sex, int>,
             totalPoblacion: map<Sex, int>, missing: seq<(string, string)>)
    requires HasBothSexes(Accumulated(datos0, totalConfirmados0, totalPoblacion0, missing0))
    ensures Accumulated(datos, totalConfirmados, totalPoblacion, missing)
      == RowStep(Accumulated(datos0, totalConfirmados0, totalPoblacion0, missing0), row, census)
  {
    datos, totalConfirmados, totalPoblacion, missing := datos0, totalConfirmados0, totalPoblacion0, missing0;
    var prov, sexo, cant := row.provincia, row.sexo, row.cantidad;
    var clave := (Text.Strip(prov), Code(sexo));
    if clave in census && census[clave] != 0 {
      var pob := census[clave];
      var indice := Percent(cant, pob);
      if prov !in datos {
        datos := datos[prov := map[]];
      }
      datos := datos[prov := datos[prov][sexo := SexEntry(cant, pob, indice)]];
      totalConfirmados := totalConfirmados[sexo := totalConfirmados[sexo] + cant];
      totalPoblacion := totalPoblacion[sexo := totalPoblacion[sexo] + pob];
    } else {
      missing := missing + [clave];
    }
  }

  /**
   * The `for prov, sexo, cant in cur.fetchall()` loop over the dicts `datos`,
   * `total_confirmados` and `total_poblacion`, starting from zero totals.
   */
  method Accumulate(rows: seq<SexCount>, census: Census) returns (acc: Accumulated)
    ensures acc == AccumulatedAfter(rows, census)
    ensures acc.datos == Table(rows, census) && acc.missing == MissingKeys(rows, census)
    ensures acc.confirmed[F] == ConfirmedTotal(rows, census, F) && acc.confirmed[M] == ConfirmedTotal(rows, census, M)
    ensures acc.population[F] == PopulationTotal(rows, census, F) && acc.population[M] == PopulationTotal(rows, census, M)
  {
    var datos: map<string, map<Sex, SexEntry>> := map[];
    var totalConfirmados := map[F := 0, M := 0];
    var totalPoblacion := map[F := 0, M := 0];
    var missing: seq<(string, string)> := [];
    var n := 0;
    while n < |rows|
      invariant 0 <= n <= |rows|
      invariant Accumulated(datos, totalConfirmados, totalPoblacion, missing) == AccumulatedAfter(rows[..n], census)
    {
      AccumulatedStep(rows, census, n);
      datos, totalConfirmados, totalPoblacion, missing :=
        AddRow(datos, totalConfirmados, totalPoblacion, missing, rows[n], census);
      n := n + 1;
    }
    assert rows[..n] == rows;
    acc := Accumulated(datos, totalConfirmados, totalPoblacion, missing);
    AccumulatedIsTotals(rows, census);
  }

  /** The national index printed for a sex, only when its total population is positive. */
  function NationalIndex(confirmed: int, population: int): (r: Option<real>)
    ensures r.Some? <==> population > 0
    ensures r.Some? ==> r.value * population as real == 100.0 * confirmed as real
  {
    if population > 0 then Some(Percent(confirmed, population)) else None
  }

  datatype Verdict = Women | Men | Equal

  /** `total_confirmados[sexo] / total_poblacion[sexo]` with a total population of 0. */
  datatype SexIndexError = ZeroTotalPopulation(sexo: Sex)

  /**
   * The conclusion: both national indices are computed without a guard (the
   * women's first), then compared.
   */
  function Conclude(confirmedF: int, populationF: int, confirmedM: int, populationM: int): (r: Result<Verdict, SexIndexError>)
    ensures r.Err? <==> populationF == 0 || populationM == 0
    ensures r.Err? ==> r.error == ZeroTotalPopulation(if populationF == 0 then F else M)
  {
    if populationF == 0 then Err(ZeroTotalPopulation(F))
    else if populationM == 0 then Err(ZeroTotalPopulation(M))
    else
      var fIndex := Percent(confirmedF, populationF);
      var mIndex := Percent(confirmedM, populationM);
      if fIndex > mIndex then Ok(Women)
      else if mIndex > fIndex then Ok(Men)
      else Ok(Equal)
  }

  /**
   * The verdict is decided in integers by cross-multiplying. With both
   * populations nonzero, women have the higher index exactly when
   * `cF * pM - cM * pF` has the sign of `pF * pM` (for positive populations:
   * exactly when `cF * pM > cM * pF`), men exactly when it has the opposite
   * sign, and the indices are equal exactly when `cF * pM == cM * pF`.
   */
  lemma VerdictByCrossMultiplication(cF: int, pF: int, cM: int, pM: int)
    requires pF != 0 && pM != 0
    ensures Conclude(cF, pF, cM, pM) == Ok(Women) <==> (cF * pM - cM * pF) * (pF * pM) > 0
    ensures Conclude(cF, pF, cM, pM) == Ok(Men) <==> (cF * pM - cM * pF) * (pF * pM) < 0
    ensures Conclude(cF, pF, cM, pM) == Ok(Equal) <==> cF * pM == cM * pF
    ensures pF > 0 && pM > 0 ==> (Conclude(cF, pF, cM, pM) == Ok(Women) <==> cF * pM > cM * pF)
    ensures pF > 0 && pM > 0 ==> (Conclude(cF, pF, cM, pM) == Ok(Men) <==> cM * pF > cF * pM)
  {
    var d, p := cF * pM - cM * pF, pF * pM;
    IndexGap(cF, pF, cM, pM);
    SignOfScaled(Percent(cF, pF) - Percent(cM, pM), d, p);
    if p > 0 {
      SignOfProduct(d, p);
    }
  }

  /** The gap between the two indices, times the product of the populations, is 100 times the cross difference. */
  lemma IndexGap(cF: int, pF: int, cM: int, pM: int)
    requires pF != 0 && pM != 0
    ensures (Percent(cF, pF) - Percent(cM, pM)) * (pF * pM) as real == 100.0 * (cF * pM - cM * pF) as real
  {
    var f, m := Percent(cF, pF), Percent(cM, pM);
    var rf, rm := pF as real, pM as real;
    assert f * rf == 100.0 * cF as real && m * rm == 100.0 * cM as real;
    assert f * rf * rm == 100.0 * (cF * pM) as real;
    assert m * rm * rf == 100.0 * (cM * pF) as real;
  }

  /** When `x * p == 100 * d` with `p` nonzero, `x` has the sign of `d * p`. */
  lemma SignOfScaled(x: real, d: int, p: int)
    requires p != 0 && x * p as real == 100.0 * d as real
    ensures x > 0.0 <==> d * p > 0
    ensures x < 0.0 <==> d * p < 0
    ensures x == 0.0 <==> d == 0
  {
    var r := p as real;
    assert x * (r * r) == 100.0 * (d * p) as real;
    NonzeroSquare(r);
    if x > 0.0 {
      PositiveProduct(x, r * r);
    } else if x < 0.0 {
      PositiveProduct(-x, r * r);
    } else {
      NonzeroFactors(d, p);
    }
  }

  lemma NonzeroSquare(x: real)
    requires x != 0.0
    ensures x * x > 0.0
  {
    if x > 0.0 {
      PositiveProduct(x, x);
    } else {
      PositiveProduct(-x, -x);
    }
  }

  lemma NonzeroFactors(a: int, b: int)
    requires a * b == 0 && b != 0
    ensures a == 0
  {
  }

  lemma SignOfProduct(a: int, b: int)
    requires b > 0
    ensures a * b > 0 <==> a > 0
    ensures a * b < 0 <==> a < 0
  {
    if a > 0 {
      MulNonNegative(a - 1, b);
    } else if a < 0 {
      MulNonNegative(-a - 1, b);
    }
  }

  datatype SexReport = SexReport(acc: Accumulated, verdict: Verdict)

  /**
   * Report 9: the accumulated tables and the verdict on the national totals,
   * or the error of a sex whose matched population adds up to 0.
   */
  method SexIndexReport(rows: seq<SexCount>, census: Census) returns (r: Result<SexReport, SexIndexError>)
    ensures r.Err? <==> PopulationTotal(rows, census, F) == 0 || PopulationTotal(rows, census, M) == 0
    ensures r.Err? ==> r.error == ZeroTotalPopulation(if PopulationTotal(rows, census, F) == 0 then F else M)
    ensures r.Ok? ==> r.value.acc == AccumulatedAfter(rows, census)
    ensures r.Ok? ==>
      var cF, pF := ConfirmedTotal(rows, census, F), PopulationTotal(rows, census, F);
      var cM, pM := ConfirmedTotal(rows, census, M), PopulationTotal(rows, census, M);
      && (r.value.verdict == Women <==> (cF * pM - cM * pF) * (pF * pM) > 0)
      && (r.value.verdict == Men <==> (cF * pM - cM * pF) * (pF * pM) < 0)
      && (r.value.verdict == Equal <==> cF * pM == cM * pF)
  {
    var acc := Accumulate(rows, census);
    var verdict := Conclude(acc.confirmed[F], acc.population[F], acc.confirmed[M], acc.population[M]);
    if verdict.Err? {
      return Err(verdict.error);
    }
    VerdictByCrossMultiplication(acc.confirmed[F], acc.population[F], acc.confirmed[M], acc.population[M]);
    return Ok(SexReport(acc, verdict.value));
  }
}
