/**
 * Reports 7 (`punto7_menor_proporcion_confirmados_sobre_poblacion`) and 8
 * (`punto8_proporcion_fallecidos_sobre_poblacion`): per-province counts from
 * the `casos` table joined with the 2022 census populations, the share of the
 * population each count represents, the provinces sorted by that share, and
 * the first province of the sorted list.
 * The census is the map from stripped province name to population that the
 * census file yields; the counts are the rows of the grouped query.
 */
module CensusRatios {
  import opened Wrappers
  import Text
  import opened Arith

  /** One row of `SELECT residencia_provincia_nombre, COUNT(*) ... GROUP BY ...`. */
  datatype ProvinceCount = ProvinceCount(provincia: string, cantidad: nat)

  /** One entry of `datos`: `(prov_normalizado, casos, pob, proporcion)`. */
  datatype RatioRow = RatioRow(provincia: string, count: nat, population: int, proportion: real)

  datatype RatioError =
    | ZeroPopulation(provincia: string)  // `casos / pob` with a census population of 0
    | NoMatchedProvince                   // `datos[0]` on an empty list

  /** The joined rows and the stripped names the census does not know, each in query order. */
  datatype Joined = Joined(datos: seq<RatioRow>, warnings: seq<string>)

  /** The census population of a query row, if its stripped name is in the census. */
  predicate InCensus(row: ProvinceCount, pob: map<string, int>)
  {
    Text.Strip(row.provincia) in pob
  }

  /** The row the query row contributes to `datos` when its population is not 0. */
  function RatioRowOf(row: ProvinceCount, pob: map<string, int>): RatioRow
    requires InCensus(row, pob) && pob[Text.Strip(row.provincia)] != 0
  {
    var p := Text.Strip(row.provincia);
    RatioRow(p, row.cantidad, pob[p], Percent(row.cantidad, pob[p]))
  }

  /** The query row at index `i` is in the census with a population of 0. */
  predicate ZeroPopulationAt(rows: seq<ProvinceCount>, pob: map<string, int>, i: int)
  {
    0 <= i < |rows| && InCensus(rows[i], pob) && pob[Text.Strip(rows[i].provincia)] == 0
  }

  /** `x` is what the query row at index `i` contributes to `datos`. */
  predicate RatioRowAt(rows: seq<ProvinceCount>, pob: map<string, int>, i: int, x: RatioRow)
  {
    0 <= i < |rows| && InCensus(rows[i], pob) && pob[Text.Strip(rows[i].provincia)] != 0
    && x == RatioRowOf(rows[i], pob)
  }

  /**
   * The `for prov, casos in cur.fetchall()` loop: each row, with its name
   * stripped, is either appended to `datos` or reported as missing from the
   * census; the first row whose population is 0 stops the report.
   */
  function Join(rows: seq<ProvinceCount>, pob: map<string, int>): (r: Result<Joined, RatioError>)
    ensures r.Err? ==> r.error.ZeroPopulation?
  {
    if rows == [] then Ok(Joined([], []))
    else
      match Join(rows[..|rows| - 1], pob)
      case Err(e) => Err(e)
      case Ok(j) =>
        var row := rows[|rows| - 1];
        var p := Text.Strip(row.provincia);
        if p in pob then
          if pob[p] == 0 then Err(ZeroPopulation(p))
          else Ok(Joined(j.datos + [RatioRowOf(row, pob)], j.warnings))
        else Ok(Joined(j.datos, j.warnings + [p]))
  }

  /** The join fails exactly when some row is in the census with a population of 0. */
  lemma {:induction false} JoinFailsOnZeroPopulation(rows: seq<ProvinceCount>, pob: map<string, int>)
    ensures Join(rows, pob).Err? <==> exists i :: ZeroPopulationAt(rows, pob, i)
    ensures Join(rows, pob).Err? ==> Join(rows, pob).error.ZeroPopulation?
  {
    if rows != [] {
      var init := rows[..|rows| - 1];
      JoinFailsOnZeroPopulation(init, pob);
      var last := |rows| - 1;
      assert rows[last] == rows[|rows| - 1];
      if exists i :: ZeroPopulationAt(init, pob, i) {
        var i :| ZeroPopulationAt(init, pob, i);
        assert rows[i] == init[i];
        assert ZeroPopulationAt(rows, pob, i);
      } else if ZeroPopulationAt(rows, pob, last) {
        assert Join(rows, pob).Err?;
      } else {
        forall i | ZeroPopulationAt(rows, pob, i)
          ensures false
        {
          assert i < last && rows[i] == init[i];
          assert ZeroPopulationAt(init, pob, i);
        }
        assert Join(rows, pob).Ok?;
      }
    }
  }

  /** The number of query rows whose stripped name is in the census. */
  function CensusRows(rows: seq<ProvinceCount>, pob: map<string, int>): (n: nat)
    ensures n <= |rows|
  {
    if rows == [] then 0
    else CensusRows(rows[..|rows| - 1], pob) + (if InCensus(rows[|rows| - 1], pob) then 1 else 0)
  }

  /** The number of query rows whose stripped name is not in the census. */
  function MissingRows(rows: seq<ProvinceCount>, pob: map<string, int>): (n: nat)
    ensures n <= |rows|
  {
    if rows == [] then 0
    else MissingRows(rows[..|rows| - 1], pob) + (if InCensus(rows[|rows| - 1], pob) then 0 else 1)
  }

  /** Every row is either in the census or not: the two counts add up to the number of rows. */
  lemma {:induction false} RowsSplit(rows: seq<ProvinceCount>, pob: map<string, int>)
    ensures CensusRows(rows, pob) + MissingRows(rows, pob) == |rows|
  {
    if rows != [] {
      RowsSplit(rows[..|rows| - 1], pob);
    }
  }

  /** `datos` has one entry per row in the census and the warnings one per other row. */
  lemma {:induction false} JoinSizes(rows: seq<ProvinceCount>, pob: map<string, int>)
    requires Join(rows, pob).Ok?
    ensures |Join(rows, pob).value.datos| == CensusRows(rows, pob)
    ensures |Join(rows, pob).value.warnings| == MissingRows(rows, pob)
  {
    if rows != [] {
      assert Join(rows[..|rows| - 1], pob).Ok?;
      JoinSizes(rows[..|rows| - 1], pob);
    }
  }

  /** The row at index `i`, in the census, gives the entry of `datos` right after those of the earlier such rows. */
  lemma {:induction false} DatosEntryAt(rows: seq<ProvinceCount>, pob: map<string, int>, i: nat)
    requires Join(rows, pob).Ok? && i < |rows| && InCensus(rows[i], pob)
    ensures pob[Text.Strip(rows[i].provincia)] != 0
    ensures CensusRows(rows[..i], pob) < |Join(rows, pob).value.datos|
    ensures Join(rows, pob).value.datos[CensusRows(rows[..i], pob)] == RatioRowOf(rows[i], pob)
  {
    var init := rows[..|rows| - 1];
    assert Join(init, pob).Ok?;
    if i == |rows| - 1 {
      JoinSizes(init, pob);
      assert rows[..i] == init;
    } else {
      assert init[..i] == rows[..i] && init[i] == rows[i];
      DatosEntryAt(init, pob, i);
    }
  }

  /** The row at index `i`, not in the census, gives the warning right after those of the earlier such rows. */
  lemma {:induction false} WarningAt(rows: seq<ProvinceCount>, pob: map<string, int>, i: nat)
    requires Join(rows, pob).Ok? && i < |rows| && !InCensus(rows[i], pob)
    ensures MissingRows(rows[..i], pob) < |Join(rows, pob).value.warnings|
    ensures Join(rows, pob).value.warnings[MissingRows(rows[..i], pob)] == Text.Strip(rows[i].provincia)
  {
    var init := rows[..|rows| - 1];
    assert Join(init, pob).Ok?;
    if i == |rows| - 1 {
      JoinSizes(init, pob);
      assert rows[..i] == init;
    } else {
      assert init[..i] == rows[..i] && init[i] == rows[i];
      WarningAt(init, pob, i);
    }
  }

  /**
   * The join keeps query order: `datos` holds one entry per row in the
   * census and the warnings one per other row, each at the position after
   * those of the earlier rows of its kind.
   */
  lemma JoinInQueryOrder(rows: seq<ProvinceCount>, pob: map<string, int>)
    requires Join(rows, pob).Ok?
    ensures |Join(rows, pob).value.datos| == CensusRows(rows, pob)
    ensures |Join(rows, pob).value.warnings| == MissingRows(rows, pob)
    ensures forall i :: 0 <= i < |rows| && InCensus(rows[i], pob) ==>
      pob[Text.Strip(rows[i].provincia)] != 0 && CensusRows(rows[..i], pob) < |Join(rows, pob).value.datos|
      && Join(rows, pob).value.datos[CensusRows(rows[..i], pob)] == RatioRowOf(rows[i], pob)
    ensures forall i :: 0 <= i < |rows| && !InCensus(rows[i], pob) ==>
      MissingRows(rows[..i], pob) < |Join(rows, pob).value.warnings|
      && Join(rows, pob).value.warnings[MissingRows(rows[..i], pob)] == Text.Strip(rows[i].provincia)
  {
    JoinSizes(rows, pob);
    forall i | 0 <= i < |rows| && InCensus(rows[i], pob)
      ensures pob[Text.Strip(rows[i].provincia)] != 0 && CensusRows(rows[..i], pob) < |Join(rows, pob).value.datos|
        && Join(rows, pob).value.datos[CensusRows(rows[..i], pob)] == RatioRowOf(rows[i], pob)
    {
      DatosEntryAt(rows, pob, i);
    }
    forall i | 0 <= i < |rows| && !InCensus(rows[i], pob)
      ensures MissingRows(rows[..i], pob) < |Join(rows, pob).value.warnings|
        && Join(rows, pob).value.warnings[MissingRows(rows[..i], pob)] == Text.Strip(rows[i].provincia)
    {
      WarningAt(rows, pob, i);
    }
  }

  /**
   * A successful join accounts for every row exactly once: there are as many
   * entries as rows in the census and as many warnings as rows not in it;
   * each row in the census gives its ratio row, each other row a warning
   * with its stripped name.
   */
  lemma JoinAccountsForEveryRow(rows: seq<ProvinceCount>, pob: map<string, int>)
    requires Join(rows, pob).Ok?
    ensures |Join(rows, pob).value.datos| + |Join(rows, pob).value.warnings| == |rows|
    ensures |Join(rows, pob).value.datos| == CensusRows(rows, pob)
    ensures |Join(rows, pob).value.warnings| == MissingRows(rows, pob)
    ensures forall i :: 0 <= i < |rows| && InCensus(rows[i], pob) ==>
      pob[Text.Strip(rows[i].provincia)] != 0 && RatioRowOf(rows[i], pob) in Join(rows, pob).value.datos
    ensures forall i :: 0 <= i < |rows| && !InCensus(rows[i], pob) ==>
      Text.Strip(rows[i].provincia) in Join(rows, pob).value.warnings
  {
    RowsSplit(rows, pob);
    JoinInQueryOrder(rows, pob);
  }

  /**
   * Nothing else is in the output: every entry of `datos` is the ratio row of
   * some query row in the census, with its proportion of the population, and
   * every warning is the stripped name of some query row not in the census.
   */
  lemma {:induction false} JoinHasNothingElse(rows: seq<ProvinceCount>, pob: map<string, int>)
    requires Join(rows, pob).Ok?
    ensures forall x :: x in Join(rows, pob).value.datos ==>
      x.provincia in pob && x.population == pob[x.provincia] && x.population != 0
      && x.proportion * x.population as real == 100.0 * x.count as real
      && (exists i :: RatioRowAt(rows, pob, i, x))
    ensures forall w :: w in Join(rows, pob).value.warnings ==>
      w !in pob && exists i :: 0 <= i < |rows| && w == Text.Strip(rows[i].provincia)
  {
    if rows != [] {
      var init := rows[..|rows| - 1];
      assert Join(init, pob).Ok?;
      JoinHasNothingElse(init, pob);
      forall x | x in Join(init, pob).value.datos
        ensures exists i :: RatioRowAt(rows, pob, i, x)
      {
        var i :| RatioRowAt(init, pob, i, x);
        assert rows[i] == init[i];
        assert RatioRowAt(rows, pob, i, x);
      }
      var last := rows[|rows| - 1];
      if InCensus(last, pob) {
        assert RatioRowAt(rows, pob, |rows| - 1, RatioRowOf(last, pob));
      }
      forall i | 0 <= i < |rows| - 1
        ensures rows[i] == init[i]
      {
      }
    }
  }

  /** Once a prefix of the rows has failed, the whole join fails with the same error. */
  lemma {:induction false} JoinErrorPersists(rows: seq<ProvinceCount>, pob: map<string, int>, n: nat)
    requires n <= |rows| && Join(rows[..n], pob).Err?
    ensures Join(rows, pob) == Join(rows[..n], pob)
    decreases |rows| - n
  {
    if n < |rows| {
      assert rows[..n + 1][..n] == rows[..n];
      JoinErrorPersists(rows, pob, n + 1);
    } else {
      assert rows[..n] == rows;
    }
  }

  /** The join loop, appending to the lists `datos` and the warnings as it goes. */
  method JoinCensus(rows: seq<ProvinceCount>, pob: map<string, int>) returns (r: Result<Joined, RatioError>)
    ensures r == Join(rows, pob)
  {
    var datos: seq<RatioRow> := [];
    var warnings: seq<string> := [];
    var i := 0;
    while i < |rows|
      invariant 0 <= i <= |rows|
      invariant Join(rows[..i], pob) == Ok(Joined(datos, warnings))
    {
      assert rows[..i + 1][..i] == rows[..i];
      var provNormalizado := Text.Strip(rows[i].provincia);
      if provNormalizado in pob {
        var pb := pob[provNormalizado];
        if pb == 0 {
          JoinErrorPersists(rows, pob, i + 1);
          return Err(ZeroPopulation(provNormalizado));
        }
        datos := datos + [RatioRow(provNormalizado, rows[i].cantidad, pb, Percent(rows[i].cantidad, pb))];
      } else {
        warnings := warnings + [provNormalizado];
      }
      i := i + 1;
    }
    assert rows[..i] == rows;
    return Ok(Joined(datos, warnings));
  }

  /** `a` may stand before `b` in the list sorted by proportion, ascending or descending. */
  predicate InOrder(a: RatioRow, b: RatioRow, descending: bool)
  {
    if descending then a.proportion >= b.proportion else a.proportion <= b.proportion
  }

  predicate Ordered(s: seq<RatioRow>, descending: bool)
  {
    forall i, j :: 0 <= i < j < |s| ==> InOrder(s[i], s[j], descending)
  }

  /** `x` inserted into `s` after every entry it may follow. */
  function Insert(s: seq<RatioRow>, x: RatioRow, descending: bool): (r: seq<RatioRow>)
    ensures multiset(r) == multiset(s) + multiset{x}
    ensures Ordered(s, descending) ==> Ordered(r, descending)
  {
    if s == [] then [x]
    else if InOrder(s[0], x, descending) then
      var rest := Insert(s[1..], x, descending);
      assert s == [s[0]] + s[1..];
      InsertOrdered(s, x, descending, rest);
      [s[0]] + rest
    else
      assert Ordered(s, descending) ==> forall j :: 0 <= j < |s| ==> InOrder(x, s[j], descending);
      [x] + s
  }

  lemma InsertOrdered(s: seq<RatioRow>, x: RatioRow, descending: bool, rest: seq<RatioRow>)
    requires s != [] && InOrder(s[0], x, descending)
    requires multiset(rest) == multiset(s[1..]) + multiset{x}
    requires Ordered(s[1..], descending) ==> Ordered(rest, descending)
    ensures Ordered(s, descending) ==> Ordered([s[0]] + rest, descending)
  {
    if Ordered(s, descending) {
      assert Ordered(s[1..], descending);
      forall y | y in rest
        ensures InOrder(s[0], y, descending)
      {
        assert y in multiset(rest);
        if y != x {
          assert y in multiset(s[1..]);
          var k :| 0 <= k < |s[1..]| && s[1..][k] == y;
          assert s[k + 1] == y;
        }
      }
      var r := [s[0]] + rest;
      forall i, j | 0 <= i < j < |r|
        ensures InOrder(r[i], r[j], descending)
      {
        if i == 0 {
          assert r[j] == rest[j - 1] && rest[j - 1] in rest;
        } else {
          assert r[i] == rest[i - 1] && r[j] == rest[j - 1];
        }
      }
    }
  }

  /**
   * `datos.sort(key=lambda x: x[3])`, or with `reverse=True`: the same rows,
   * ordered by proportion.
   */
  method SortByProportion(datos: seq<RatioRow>, descending: bool) returns (sorted: seq<RatioRow>)
    ensures multiset(sorted) == multiset(datos)
    ensures Ordered(sorted, descending)
  {
    sorted := [];
    var i := 0;
    while i < |datos|
      invariant 0 <= i <= |datos|
      invariant multiset(sorted) == multiset(datos[..i])
      invariant Ordered(sorted, descending)
    {
      assert datos[..i + 1] == datos[..i] + [datos[i]];
      sorted := Insert(sorted, datos[i], descending);
      i := i + 1;
    }
    assert datos[..i] == datos;
  }

  /** The sorted table, the warnings, and the province the report names: the first of the table. */
  datatype RankedReport = RankedReport(datos: seq<RatioRow>, warnings: seq<string>, chosen: RatioRow)

  /**
   * The shared body of reports 7 and 8: join, sort, and take `datos[0]`.
   * A population of 0 fails the join; an empty table fails the final index.
   */
  method RankProportions(rows: seq<ProvinceCount>, pob: map<string, int>, descending: bool)
    returns (r: Result<RankedReport, RatioError>)
    ensures Join(rows, pob).Err? ==> r == Err(Join(rows, pob).error)
    ensures Join(rows, pob).Ok? && Join(rows, pob).value.datos == [] ==> r == Err(NoMatchedProvince)
    ensures r.Ok? ==> (Join(rows, pob).Ok?
      && multiset(r.value.datos) == multiset(Join(rows, pob).value.datos)
      && Ordered(r.value.datos, descending)
      && r.value.warnings == Join(rows, pob).value.warnings
      && r.value.datos != [] && r.value.chosen == r.value.datos[0])
    ensures r.Ok? ==> forall x :: x in r.value.datos ==> InOrder(r.value.chosen, x, descending)
    ensures r.Err? <==> Join(rows, pob).Err? || Join(rows, pob).value.datos == []
  {
    var joined := JoinCensus(rows, pob);
    if joined.Err? {
      return Err(joined.error);
    }
    var datos := SortByProportion(joined.value.datos, descending);
    if datos == [] {
      assert |multiset(joined.value.datos)| == 0;
      return Err(NoMatchedProvince);
    }
    assert datos[0] in multiset(joined.value.datos);
    forall x | x in datos
      ensures InOrder(datos[0], x, descending)
    {
      var k :| 0 <= k < |datos| && datos[k] == x;
      if k > 0 {
        assert InOrder(datos[0], datos[k], descending);
      }
    }
    return Ok(RankedReport(datos, joined.value.warnings, datos[0]));
  }

  /**
   * Report 7: the province with the lowest share of confirmed cases in its
   * population; no share in the table is lower. A census population of 0
   * fails with `ZeroPopulation`; no matched province at all
   * fails with `NoMatchedProvince`, where Python's `datos[0]` raises IndexError.
   */
  method LowestConfirmedProportion(confirmed: seq<ProvinceCount>, pob: map<string, int>)
    returns (r: Result<RankedReport, RatioError>)
    ensures Join(confirmed, pob).Err? ==> r == Err(Join(confirmed, pob).error)
    ensures Join(confirmed, pob).Ok? && Join(confirmed, pob).value.datos == [] ==> r == Err(NoMatchedProvince)
    ensures r.Err? <==> Join(confirmed, pob).Err? || Join(confirmed, pob).value.datos == []
    ensures r.Ok? ==> (multiset(r.value.datos) == multiset(Join(confirmed, pob).value.datos)
      && r.value.warnings == Join(confirmed, pob).value.warnings
      && r.value.datos != [] && r.value.chosen == r.value.datos[0])
    ensures r.Ok? ==> (r.value.chosen in Join(confirmed, pob).value.datos
      && forall x :: x in Join(confirmed, pob).value.datos ==> r.value.chosen.proportion <= x.proportion)
    ensures r.Ok? ==> forall i, j :: 0 <= i < j < |r.value.datos| ==>
      r.value.datos[i].proportion <= r.value.datos[j].proportion
  {
    r := RankProportions(confirmed, pob, false);
    if r.Ok? {
      assert r.value.chosen in multiset(r.value.datos);
      forall x | x in Join(confirmed, pob).value.datos
        ensures r.value.chosen.proportion <= x.proportion
      {
        assert x in multiset(r.value.datos);
      }
    }
  }

  /**
   * Report 8: the province with the highest share of deaths in its
   * population; no share in the table is higher. The failures are those of
   * report 7.
   */
  method HighestDeceasedProportion(deceased: seq<ProvinceCount>, pob: map<string, int>)
    returns (r: Result<RankedReport, RatioError>)
    ensures Join(deceased, pob).Err? ==> r == Err(Join(deceased, pob).error)
    ensures Join(deceased, pob).Ok? && Join(deceased, pob).value.datos == [] ==> r == Err(NoMatchedProvince)
    ensures r.Err? <==> Join(deceased, pob).Err? || Join(deceased, pob).value.datos == []
    ensures r.Ok? ==> (multiset(r.value.datos) == multiset(Join(deceased, pob).value.datos)
      && r.value.warnings == Join(deceased, pob).value.warnings
      && r.value.datos != [] && r.value.chosen == r.value.datos[0])
    ensures r.Ok? ==> (r.value.chosen in Join(deceased, pob).value.datos
      && forall x :: x in Join(deceased, pob).value.datos ==> r.value.chosen.proportion >= x.proportion)
    ensures r.Ok? ==> forall i, j :: 0 <= i < j < |r.value.datos| ==>
      r.value.datos[i].proportion >= r.value.datos[j].proportion
  {
    r := RankProportions(deceased, pob, true);
    if r.Ok? {
      assert r.value.chosen in multiset(r.value.datos);
      forall x | x in Join(deceased, pob).value.datos
        ensures r.value.chosen.proportion >= x.proportion
      {
        assert x in multiset(r.value.datos);
      }
    }
  }
}
