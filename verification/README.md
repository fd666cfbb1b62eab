# Covid-19 Argentina EDA reports — a verified model

The script `Covid19Casos/ejercicios.py` does two things. It loads the national Covid-19 case file into a SQLite
table `casos`. It then runs a menu of fixed statistical reports over that table. Some reports also read a 2022
census file.

This project models the computing part of the script in Dafny. Every SQL query result and every census file
becomes an input sequence or map:

- **Loader** (`loader.dfy`): `crear_tabla` and `cargar_datos`. The table is a class `CasesStore` with a `casos`
  field. Loading skips the header and appends every row with exactly twelve fields, in file order.
- **Missing ages** (`missing_age.dfy`, report 2): the share of rows without an age. The advice is to drop them
  below 5% and to impute otherwise. An empty table raises a division by zero.
- **Outliers** (`outliers.dfy`, report 3): quartiles at the floor indices `n // 4` and `3n // 4` of the sorted
  ages. The outliers are the ages strictly outside `Q1 - 1.5·IQR` and `Q3 + 1.5·IQR`.
- **Sturges table** (`sturges.dfy`, report 4): `k` contiguous intervals of width `ceil(range / k)`, starting at
  the youngest age, and the number of ages in each.
- **Mortality bands** (`mortality_bands.dfy`, report 5): 21 fixed five-year bands from 0 to 104. Each age goes to
  the first band that contains it. The report counts deceased women per band and gives the male case-fatality
  percentage (0 for a band without men). It also gives the first band holding each maximum.
- **Census ratios** (`census_ratios.dfy`, reports 7 and 8): the join of per-province counts with the census
  population, the sort by proportion (ascending for confirmed cases, descending for deaths), and `datos[0]`.
- **Sex index** (`sex_index.dfy`, report 9): per-province and per-sex entries, the national totals per sex,
  and the verdict on which sex has the higher share of confirmed cases.
- **Shared pieces**: `text.dfy` has Python's `str.strip()` and the `'SI'` flag test. `age_intervals.dfy` has
  inclusive intervals and age counts. `arith.dfy` has the exact percentage `(part / whole) * 100`.
  `wrappers.dfy` has `Option` and `Result`.

The loops of the source are methods with loop invariants. The per-band counters of report 5 are arrays. The
`datos` list and the dicts of reports 7, 8 and 9 are sequences and maps that the loops reassign. Each method is
proved against a specification function, and the properties are proved about those functions.

Report 5 runs the same band search twice in the source, once in each loop. The model writes that search once, as
the method `FirstBand`, and the two counting loops call it.

Three behaviours of the code shape the model:

- `cargar_datos` only inserts. It never clears `casos`; the table is dropped only by `crear_tabla`. A second
  `cargar_datos` without `crear_tabla` in between therefore appends the same rows again. `LoadRows` and
  `LoadTwice` state this.
- Several ratios are computed without a guard: report 2 divides by the row count, reports 7 and 8 divide by a
  census population and read `datos[0]`, and report 9 divides by the national population totals. Each of these
  raises in Python on a zero divisor or an empty list. The model returns a distinct `Err` for each.
- Report 4 prints the number of ages `n` next to a frequency table of those ages, so the table is meant to place
  each age in one interval. With the width `ceil(range / k)`, the ages equal to the maximum fall in no interval
  when `k` divides the range; see Findings.

Report 9's query keeps only the rows with `sexo IN ('F', 'M')`, so the sex of a row is a two-value type, `Sex`.

## Model

| member | source | states |
|---|---|---|
| Arith.Percent | Covid19Casos/ejercicios.py:97 | `(part / whole) * 100` times the whole is 100 times the part |
| Arith.PercentBounds | Covid19Casos/ejercicios.py:279 | a part of a positive whole is between 0% and 100% of it |
| Text.StripStartDropsSpaces | Covid19Casos/ejercicios.py:368 | `lstrip` keeps a suffix that does not start with whitespace and drops only whitespace |
| Text.StripEndDropsSpaces | Covid19Casos/ejercicios.py:368 | `rstrip` keeps a prefix that does not end with whitespace and drops only whitespace |
| Text.StripIsSlice | Covid19Casos/ejercicios.py:368 | `strip` is the slice left after dropping whitespace at both ends, with non-space ends |
| Text.StripIdempotent | Covid19Casos/ejercicios.py:368 | stripping twice gives the same as stripping once |
| Text.StripsToUnique | Covid19Casos/ejercicios.py:368 | the non-empty slice left once whitespace is dropped at both ends is unique |
| Text.Strip | Covid19Casos/ejercicios.py:368 | `str.strip()`: the definition; its properties are `StripStartDropsSpaces`, `StripEndDropsSpaces`, `StripIsSlice` and `StripIdempotent` |
| Text.IsYesFlag | Covid19Casos/ejercicios.py:269 | `fallecido.strip().upper() == 'SI'`: the definition; `YesFlagExamples` states what it accepts and rejects |
| Text.YesFlagIsPaddedSI | Covid19Casos/ejercicios.py:269 | for every flag: `strip().upper() == 'SI'` holds exactly when the flag is an S and an I, each in a spelling that upper-cases to it, with only whitespace before and after |
| Text.YesFlagExamples | Covid19Casos/ejercicios.py:269 | `strip().upper() == 'SI'` accepts "SI" and " si\n" and rejects "NO", "S I" and "SIN" |
| AgeIntervals.CountIn | Covid19Casos/ejercicios.py:216 | the count of ages in `[lo, hi]` is at most the number of ages |
| AgeIntervals.CountInExtremes | Covid19Casos/ejercicios.py:216 | no age inside the range counts 0; every age inside it counts them all |
| AgeIntervals.NthInterval | Covid19Casos/ejercicios.py:209-211 | the `i`-th interval holds exactly `width` ages |
| AgeIntervals.CountInSplit | Covid19Casos/ejercicios.py:216 | counting over `[a, c]` is counting over `[a, b]` plus `[b+1, c]` |
| AgeIntervals.CountInAppend | Covid19Casos/ejercicios.py:216 | counting over a concatenation adds the counts of its parts |
| AgeIntervals.SumOfFrequencies | Covid19Casos/ejercicios.py:206-217 | the counts of contiguous intervals of width `w` add up to the count over their union |
| Loader.WellFormed | Covid19Casos/ejercicios.py:41 | `len(fila) == 12`: the definition; `AllWellFormedKept` and `MalformedRowsIgnored` state what the loader does with rows that pass or fail it |
| Loader.KeptRows | Covid19Casos/ejercicios.py:40-42 | the kept rows are exactly the rows of the file with twelve fields, none added |
| Loader.KeptRowsAppend | Covid19Casos/ejercicios.py:40-42 | filtering a concatenation concatenates the filtered parts |
| Loader.KeptRowsInOrder | Covid19Casos/ejercicios.py:40-42 | the kept rows keep their file order (a subsequence) |
| Loader.AllWellFormedKept | Covid19Casos/ejercicios.py:40-42 | a file of twelve-field rows is loaded whole |
| Loader.MalformedRowsIgnored | Covid19Casos/ejercicios.py:40-42 | rows with another field count, anywhere, change neither the loaded rows nor their number |
| Loader.NoneKept | Covid19Casos/ejercicios.py:41-42 | a file of malformed rows loads nothing |
| Loader.CasesStore.constructor | Covid19Casos/ejercicios.py:9-29 | a new store starts with an empty `casos` table |
| Loader.CasesStore.CreateTable | Covid19Casos/ejercicios.py:11-27 | drop and create: the table is empty |
| Loader.CasesStore.LoadRows | Covid19Casos/ejercicios.py:34-45 | no header: error, table unchanged; otherwise the table gains the twelve-field data rows in order, appended to what it held, and the number inserted is returned |
| Loader.CreateAndLoad | Covid19Casos/ejercicios.py:9-42 | creating then loading leaves exactly the twelve-field data rows |
| Loader.LoadTwice | Covid19Casos/ejercicios.py:34-45 | loading the same file twice reports the same count both times, and the table then holds its twelve-field data rows twice |
| MissingAge.CountMissingAge | Covid19Casos/ejercicios.py:94-95 | the missing count is at most the row count, and is 0 exactly when every age field is filled |
| MissingAge.AnalyseMissingAge | Covid19Casos/ejercicios.py:97-107 | an empty table fails; otherwise the percentage is `missing / total * 100` and the advice is to drop exactly when `20 * missing < total` |
| MissingAge.ThresholdInIntegers | Covid19Casos/ejercicios.py:104 | below 5% exactly when twenty times the missing count is below the total |
| MissingAge.MissingAgeReport | Covid19Casos/ejercicios.py:87-107 | on the loaded table: fails exactly when it is empty; otherwise the total is its row count, the missing count is its empty age fields, the percentage is 100 · missing / total, lies in [0, 100] and is 0 exactly when no age is missing, and the advice is to drop exactly when `20 · missing < total` |
| Outliers.ComputeQuartiles | Covid19Casos/ejercicios.py:147-152 | Q1 and Q3 are ages of the list, IQR = Q3 - Q1; on sorted ages IQR ≥ 0, fewer than `n // 4 + 1` ages lie below Q1 and more are at most Q1, at most `n - 1 - 3n // 4` ages lie above Q3 and at least `n - 3n // 4` are at least Q3 |
| Outliers.QuartileRanks | Covid19Casos/ejercicios.py:149-150 | the rank bounds of the ages at `n // 4` and `3n // 4` in sorted ages |
| Outliers.QuartilesAreOrderStatistics | Covid19Casos/ejercicios.py:149-150 | in sorted ages, values with those rank bounds can only be the ages at `n // 4` and `3n // 4` |
| Outliers.RankAtMost | Covid19Casos/ejercicios.py:149 | in sorted ages, more than `k` ages are at most the one at index `k` |
| Outliers.RankAtLeast | Covid19Casos/ejercicios.py:150 | in sorted ages, at least `n - k` ages are at least the one at index `k` |
| Outliers.RankBelow | Covid19Casos/ejercicios.py:149 | in sorted ages, at most `k` ages are strictly below the one at index `k` |
| Outliers.NoneBelow | Covid19Casos/ejercicios.py:149 | no age is below a value that bounds them all from below |
| Outliers.RankAbove | Covid19Casos/ejercicios.py:150 | in sorted ages, at most `n - 1 - k` ages are strictly above the one at index `k` |
| Outliers.LowerFence | Covid19Casos/ejercicios.py:155 | `Q1 - 1.5·IQR` is a half-integer, at or below Q1 when IQR ≥ 0 |
| Outliers.UpperFence | Covid19Casos/ejercicios.py:156 | `Q3 + 1.5·IQR` is a half-integer, at or above Q3 when IQR ≥ 0 |
| Outliers.IsOutlier | Covid19Casos/ejercicios.py:162 | with IQR ≥ 0, no age from Q1 to Q3 is an outlier |
| Outliers.OutlierInIntegers | Covid19Casos/ejercicios.py:155-162 | the half-integer fences are decided exactly by `2e < 2Q1 - 3IQR` or `2e > 2Q3 + 3IQR` |
| Outliers.OutliersOf | Covid19Casos/ejercicios.py:162 | each age occurs in the outlier list exactly as often as in the input when it is outside the fences, and not at all otherwise; the list keeps sorted order |
| Outliers.SortedCons | Covid19Casos/ejercicios.py:162 | putting back the first age in front of the filtered rest keeps sorted order |
| Outliers.OutliersOutsideQuartiles | Covid19Casos/ejercicios.py:162 | with IQR ≥ 0 there are no more outliers than ages below Q1 plus ages above Q3 |
| Outliers.DeceasedAgeOutliers | Covid19Casos/ejercicios.py:134-162 | fewer than 4 ages stop the report; otherwise the quartiles are `ComputeQuartiles` and the outliers `OutliersOf` of the ages: each age outside the fences with its multiplicity, in order; Q1 ≤ Q3, Q1 and Q3 are never outliers, and at most `n // 4 + (n - 1 - 3n // 4)` ages are |
| Outliers.EvenAgesHaveNoOutlier | Covid19Casos/ejercicios.py:147-162 | ages 10, 12, …, 24 give Q1 = 14, Q3 = 22, IQR = 8 and no outlier |
| Outliers.NoOutlierFound | Covid19Casos/ejercicios.py:162 | when no age is outside the fences the outlier list is empty |
| Sturges.ClassWidth | Covid19Casos/ejercicios.py:198 | `ceil(range / k)`: `k` widths reach the range and overshoot it by less than `k` |
| Sturges.CoveringClassWidth | Covid19Casos/ejercicios.py:198 | the corrected width: `k` widths reach past the range, one less does not; equal to `ceil(range / k)` unless `k` divides the range |
| Sturges.CoveringWidthBounds | Covid19Casos/ejercicios.py:198 | the bounds of `range // k + 1` and its agreement with the ceiling |
| Sturges.ClassWidthExact | Covid19Casos/ejercicios.py:198 | `k * ceil(range / k)` equals the range exactly when `k` divides it |
| Sturges.BuildIntervals | Covid19Casos/ejercicios.py:206-211 | exactly `k` intervals, the `i`-th being the `i`-th interval of width `width` from the youngest age |
| Sturges.IntervalsContiguous | Covid19Casos/ejercicios.py:207-211 | the first interval starts at the youngest age and each starts right after the previous one ends |
| Sturges.CountFrequencies | Covid19Casos/ejercicios.py:214-217 | one frequency per interval: the number of ages inside it |
| Sturges.Min | Covid19Casos/ejercicios.py:192 | `min(edades)` is an age and no age is smaller |
| Sturges.Max | Covid19Casos/ejercicios.py:193 | `max(edades)` is an age and no age is larger |
| Sturges.TableWithWidth | Covid19Casos/ejercicios.py:192-217 | the table for a width: the intervals, their frequencies, and a sum equal to the count over the spanned ages |
| Sturges.SturgesTable | Covid19Casos/ejercicios.py:185-217 | as written: no ages, no table; every age counted at most once; all counted when `k` does not divide the range; the ages equal to the maximum are missed when it does |
| Sturges.CoverageOfWidth | Covid19Casos/ejercicios.py:206-217 | `k` intervals reaching past the range count every age; reaching the range exactly, all but the maximum ones |
| Sturges.WrittenWidthCoverage | Covid19Casos/ejercicios.py:198-217 | with `ceil(range / k)` the span misses exactly the maximum ages when `k` divides the range |
| Sturges.OldestAgeMissed | Covid19Casos/ejercicios.py:198-217 | ages 0 and 10 with `k = 2`: width 5, intervals 0-4 and 5-9, frequencies adding up to 1 of 2 |
| Sturges.MaximumCounted | Covid19Casos/ejercicios.py:216 | an age of the list is counted in its own one-age interval |
| Sturges.CoveringSturgesTable | Covid19Casos/ejercicios.py:185-217 | corrected: the `i`-th interval is the `i`-th contiguous interval of the width from the youngest age, the last reaches the oldest, each frequency counts the ages in its interval, and the frequencies add up to the number of ages |
| Sturges.ExactlyOneInterval | Covid19Casos/ejercicios.py:206-216 | within the span, an age lies in exactly one interval, the one at `(age - min) // width` |
| MortalityBands.FixedBands | Covid19Casos/ejercicios.py:236 | `range(0, 105, 5)` gives exactly 21 bands |
| MortalityBands.FixedBandsTile | Covid19Casos/ejercicios.py:236 | the bands start at 0, end at 104, are five years wide, and each starts right after the previous one |
| MortalityBands.FirstMatchFrom | Covid19Casos/ejercicios.py:252-256 | the first band at or after `i` containing the age, or none when no band does |
| MortalityBands.BandOf | Covid19Casos/ejercicios.py:252-256 | the band the search picks for an age: the definition; `BandOfAge` and `InBand` state which band |
| MortalityBands.BandOfAge | Covid19Casos/ejercicios.py:236-256 | ages 0 to 104 go to band `age // 5`; ages 105 to 120 go to no band |
| MortalityBands.InBand | Covid19Casos/ejercicios.py:236-256 | an age goes to band `j` exactly when it lies from `5j` to `5j + 4` |
| MortalityBands.Tally | Covid19Casos/ejercicios.py:251-256 | the final `mujeres_fallecidas[j]`: the definition; `TallyIsRangeCount` states it counts the ages from `5j` to `5j + 4` |
| MortalityBands.MaleTotal | Covid19Casos/ejercicios.py:265-268 | the final `hombres_totales[j]`: the definition; `TallyMaleCases` states the loop computes it and `DeathsWithinTotals` bounds the deaths by it |
| MortalityBands.MaleDeaths | Covid19Casos/ejercicios.py:265-270 | the final `hombres_fallecidos[j]`: the definition; `TallyMaleCases` states the loop computes it and `DeathsWithinTotals` states it is at most `MaleTotal` |
| MortalityBands.DeathsWithinTotals | Covid19Casos/ejercicios.py:265-271 | in every band the male deaths are at most the male cases |
| MortalityBands.TallyIsRangeCount | Covid19Casos/ejercicios.py:251-256 | band `j` counts exactly the ages from `5j` to `5j + 4` |
| MortalityBands.BandsCountUpTo104 | Covid19Casos/ejercicios.py:236-256 | the bands together count exactly the ages from 0 to 104 |
| MortalityBands.BandFound | Covid19Casos/ejercicios.py:252-256 | the band where the search stops is the age's band, and running out of bands means it has none |
| MortalityBands.TallyStep | Covid19Casos/ejercicios.py:251-256 | one more age adds one to the count of its band and to no other |
| MortalityBands.MaleTotalsStep | Covid19Casos/ejercicios.py:265-268 | one more male case adds one to the case counter of its band and to no other |
| MortalityBands.MaleDeathsStep | Covid19Casos/ejercicios.py:265-270 | one more male case adds one to the death counter of its band, and to no other, exactly when its flag reads "SI" |
| MortalityBands.FirstBand | Covid19Casos/ejercicios.py:252-256 | the inner loop up to `break`: the index of the age's band, or -1 when it has none |
| MortalityBands.TallyFemaleDeaths | Covid19Casos/ejercicios.py:240-256 | the women's counters are the per-band counts of the ages |
| MortalityBands.TallyMaleCases | Covid19Casos/ejercicios.py:241-271 | 21 counters each; counter `j` holds the male cases whose age falls in band `j`, and the deaths among them |
| MortalityBands.FatalityPercentage | Covid19Casos/ejercicios.py:275-279 | 0 for a band without cases, otherwise deaths / cases · 100, within [0, 100] when deaths ≤ cases |
| MortalityBands.MalePercentages | Covid19Casos/ejercicios.py:274-279 | the percentage list holds the guarded percentage of each band |
| MortalityBands.FirstMaxIndex | Covid19Casos/ejercicios.py:288-289 | `s.index(max(s))`: a position holding the maximum, with every earlier value strictly smaller |
| MortalityBands.MortalityByBand | Covid19Casos/ejercicios.py:229-289 | per band: the women's deaths are the count of ages in it, they add up to the count over 0-104, the male percentages lie in [0, 100], and the peaks are the first maxima |
| CensusRatios.InCensus | Covid19Casos/ejercicios.py:368-369 | `prov.strip() in poblacion`: the definition; `DatosEntryAt`, `WarningAt` and `JoinHasNothingElse` state what rows that pass or fail it contribute |
| CensusRatios.RatioRowOf | Covid19Casos/ejercicios.py:370-372 | the tuple appended to `datos`: the definition; `DatosEntryAt` places it and `JoinHasNothingElse` states its proportion times the population is 100 times the count |
| CensusRatios.Join | Covid19Casos/ejercicios.py:366-375 | the join loop as a function; a failure is always a zero census population |
| CensusRatios.JoinFailsOnZeroPopulation | Covid19Casos/ejercicios.py:366-372 | the join fails exactly when some province of the query is in the census with a population of 0 |
| CensusRatios.CensusRows | Covid19Casos/ejercicios.py:368-372 | the number of query rows whose stripped name is in the census is at most the number of rows |
| CensusRatios.MissingRows | Covid19Casos/ejercicios.py:368-374 | the number of query rows whose stripped name is not in the census is at most the number of rows |
| CensusRatios.RowsSplit | Covid19Casos/ejercicios.py:367-375 | each query row is in the census or not: the two counts add up to the number of rows |
| CensusRatios.JoinSizes | Covid19Casos/ejercicios.py:366-375 | a successful join has as many `datos` entries as rows in the census and as many warnings as other rows |
| CensusRatios.DatosEntryAt | Covid19Casos/ejercicios.py:368-372 | the row at index `i`, in the census, has a nonzero population and gives the `datos` entry right after those of the earlier rows in the census |
| CensusRatios.WarningAt | Covid19Casos/ejercicios.py:368-374 | the row at index `i`, not in the census, gives the warning right after those of the earlier rows not in it |
| CensusRatios.JoinInQueryOrder | Covid19Casos/ejercicios.py:366-375 | both lists keep query order: one entry per row of each kind, each at the position after those of the earlier rows of its kind |
| CensusRatios.JoinAccountsForEveryRow | Covid19Casos/ejercicios.py:366-375 | a successful join has one `datos` entry per row in the census and one warning per other row; each row in the census gives its ratio row, each other row a warning with its stripped name |
| CensusRatios.JoinHasNothingElse | Covid19Casos/ejercicios.py:366-375 | every `datos` entry is the ratio row of a matched query row, with proportion · population = 100 · count; every warning is a name missing from the census |
| CensusRatios.JoinErrorPersists | Covid19Casos/ejercicios.py:366-372 | once a prefix of the rows fails, the whole join fails with the same error |
| CensusRatios.JoinCensus | Covid19Casos/ejercicios.py:366-375 | the join loop computes the join |
| CensusRatios.Insert | Covid19Casos/ejercicios.py:377 | inserting adds exactly the one row and keeps the list ordered |
| CensusRatios.InsertOrdered | Covid19Casos/ejercicios.py:377 | a row that may stand first stays first in front of an ordered rest |
| CensusRatios.SortByProportion | Covid19Casos/ejercicios.py:377 | the sorted list is a permutation of `datos` ordered by proportion |
| CensusRatios.RankProportions | Covid19Casos/ejercicios.py:366-385 | join errors pass through; no matched province fails at `datos[0]`; otherwise the table is the joined rows sorted, and the chosen row is first and comes in order before every row |
| CensusRatios.LowestConfirmedProportion | Covid19Casos/ejercicios.py:338-385 | report 7: fails with the join's error, or `NoMatchedProvince` when nothing joins; otherwise the table is a permutation of the joined rows, ascending, the warnings are the join's, and the chosen province is the first row, with no lower proportion anywhere |
| CensusRatios.HighestDeceasedProportion | Covid19Casos/ejercicios.py:389-437 | report 8: fails with the join's error, or `NoMatchedProvince` when nothing joins; otherwise the table is a permutation of the joined rows, descending, the warnings are the join's, and the chosen province is the first row, with no higher proportion anywhere |
| SexIndex.Key | Covid19Casos/ejercicios.py:478 | `clave = (prov.strip(), sexo)`: the definition; `WarningsAreUnmatchedKeys` states the warnings name these keys |
| SexIndex.Matched | Covid19Casos/ejercicios.py:479-480 | `pob = poblacion.get(clave)` then `if pob:`: the definition; `TotalsAccountForEveryCase` and `WarningsAreUnmatchedKeys` state what matched and unmatched rows contribute |
| SexIndex.EntryOf | Covid19Casos/ejercicios.py:481-484 | the `(cant, pob, indice)` entry: the definition; `TableHoldsMatchedRows` and `GroupedEntriesKept` state where `datos` holds it |
| SexIndex.InitialState | Covid19Casos/ejercicios.py:473-475 | `datos = {}` and zero totals for F and M: the definition; `AccumulatedAfter` starts from it and `Accumulate` states where the loop ends |
| SexIndex.Table | Covid19Casos/ejercicios.py:479-484 | `datos` after the rows, as a function: the definition; `TableHoldsMatchedRows` and `GroupedEntriesKept` state what it holds |
| SexIndex.ConfirmedTotal | Covid19Casos/ejercicios.py:486 | `total_confirmados[sexo]` as a function: the definition; `TotalsAccountForEveryCase` states that the totals account for every case |
| SexIndex.PopulationTotal | Covid19Casos/ejercicios.py:487 | `total_poblacion[sexo]` as a function: the definition; `SexIndexReport` decides the verdict from it |
| SexIndex.MissingKeys | Covid19Casos/ejercicios.py:478-489 | the warning keys as a function: the definition; `WarningsAreUnmatchedKeys` states what they are |
| SexIndex.UnmatchedRows | Covid19Casos/ejercicios.py:479-489 | the number of rows the census does not match is at most the number of rows |
| SexIndex.TotalsAccountForEveryCase | Covid19Casos/ejercicios.py:477-489 | every case of the query is in the women's total, the men's total, or an unmatched row, once |
| SexIndex.WarningsAreUnmatchedKeys | Covid19Casos/ejercicios.py:478-489 | there are exactly as many warnings as unmatched rows, and the unmatched row at index `i` gives the warning at the position after those of the unmatched rows before it, naming its key; each warning names a key missing from the census or mapped to 0 |
| SexIndex.TableHoldsMatchedRows | Covid19Casos/ejercicios.py:477-484 | `datos[prov][sexo]` exists for every matched row, under its raw province name, and holds the entry of a matched row |
| SexIndex.GroupedEntriesKept | Covid19Casos/ejercicios.py:464-484 | with distinct (province, sex) groups, each matched row's entry is exactly what `datos` holds for it |
| SexIndex.RowStep | Covid19Casos/ejercicios.py:478-489 | one pass of the loop body keeps both sexes in the totals dicts |
| SexIndex.RowStepTotals | Covid19Casos/ejercicios.py:486-487 | a matched row adds its count and its population to the totals of its own sex only; an unmatched row adds nothing |
| SexIndex.AccumulatedAfter | Covid19Casos/ejercicios.py:473-489 | the state after the rows, from `{}` and zero totals for F and M, keeps both sexes in the totals dicts |
| SexIndex.AccumulatedStep | Covid19Casos/ejercicios.py:477-489 | the state after one more row is that row's pass of the loop body on the state before it |
| SexIndex.DatosIsTable | Covid19Casos/ejercicios.py:479-484 | the accumulated `datos` is `Table` |
| SexIndex.TotalsOfEachSex | Covid19Casos/ejercicios.py:486-487 | the accumulated totals of a sex are the matched counts and populations of that sex |
| SexIndex.WarningsAreMissingKeys | Covid19Casos/ejercicios.py:488-489 | the accumulated warnings are `MissingKeys` |
| SexIndex.AccumulatedIsTotals | Covid19Casos/ejercicios.py:473-489 | the state after the rows is `Table`, the four totals and `MissingKeys` |
| SexIndex.AddRow | Covid19Casos/ejercicios.py:478-489 | the loop body on the dicts and warnings: the new state is the row's pass from the old one |
| SexIndex.Accumulate | Covid19Casos/ejercicios.py:473-489 | the loop leaves `datos` equal to `Table`, each sex's totals equal to its matched counts and populations, and the warnings equal to `MissingKeys` |
| SexIndex.NationalIndex | Covid19Casos/ejercicios.py:501-503 | a national index exists exactly for a positive population, as confirmed / population · 100 |
| SexIndex.Conclude | Covid19Casos/ejercicios.py:508-515 | fails exactly when a national population total is 0, the women's first |
| SexIndex.VerdictByCrossMultiplication | Covid19Casos/ejercicios.py:508-515 | with nonzero totals: women exactly when `(cF · pM - cM · pF) · pF · pM > 0`, men exactly when it is negative, equal exactly when `cF · pM = cM · pF`; with positive totals: women exactly when `cF · pM > cM · pF`, men exactly when `cM · pF > cF · pM` |
| SexIndex.IndexGap | Covid19Casos/ejercicios.py:508-509 | the gap between the two national indices times `pF · pM` is 100 times `cF · pM - cM · pF` |
| SexIndex.SignOfScaled | Covid19Casos/ejercicios.py:510-515 | the sign of the index gap is the sign of the cross difference times `pF · pM` |
| SexIndex.SexIndexReport | Covid19Casos/ejercicios.py:441-515 | fails exactly when a matched population total is 0, naming the women's when both are; otherwise the accumulated state of all rows, and for every nonzero total the verdict decided by the sign of `(cF · pM - cM · pF) · pF · pM` |

## Left out

- SQLite is not part of this model: connections, table creation SQL and every query. Query results are input
  sequences. Their SQL filters become preconditions: ages in `[0, 120]`, sorted ages for report 3. The filter on the
  sexes `F` and `M` of report 9 is the type `Sex`. `GROUP BY` uniqueness is the premise `DistinctGroups`.
- File I/O is not part of this model. That covers CSV parsing with quoted fields: the loaded file is the list of
  rows the reader yields. The census file is the map it yields, so duplicate census lines are not modelled. A
  missing file (`FileNotFoundError`) is not modelled either.
- SQLite type affinity is not modelled. Rows are inserted as text, and the only missing age is the empty field.
- Floating point is modelled as exact reals for every percentage and ratio. Python float rounding, which could
  order two nearly equal ratios differently, is not modelled. `round(1 + 3.322 · log10(n))` is not modelled:
  `k` is a parameter with `k ≥ 1`. `AVG(edad)` in report 3 is not modelled.
- Report 1 (the variable catalogue), report 6 (top provinces, whose tie-break depends on query order), the
  debug routines and the menu are not modelled.
- Printing is not modelled. That includes the order in which report 9 prints `sorted(datos)`, its `.get`
  defaults, and the warnings of reports 7 and 8 that are printed before a division by zero stops the report.
  In report 9, a national population total of 0 stops the report only at the conclusion: the warnings, the
  per-province table and the national index of any sex with a positive total are already printed by then.
  `SexIndexReport` returns only the error in that case.
- CensusRatios.SortByProportion: proves the result is a permutation ordered by proportion, but not that Python's
  sort is stable (rows with equal proportion keep query order). The list is sorted into a new sequence rather
  than in place.

## Findings

| source | as written | input that shows it | evidently intended | confidence | as-written member | corrected member |
|---|---|---|---|---|---|---|
| Covid19Casos/ejercicios.py:198 | `ancho_clase = ceil(rango / k)`, so the `k` intervals from `edad_min` end at `edad_min + k·ancho_clase - 1`. That is one short of `edad_max` whenever `k` divides `rango`, including `rango = 0`. The cases at the maximum age are then counted in no interval. | ages `[0, 10]` with `k = 2`: width 5, intervals 0-4 and 5-9, frequencies 1 and 0, so the age 10 is lost | every age in exactly one interval, so that the frequencies add up to `n` (for example with width `rango // k + 1`) | not executed | Sturges.SturgesTable, Sturges.OldestAgeMissed | Sturges.CoveringSturgesTable |
