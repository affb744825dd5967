# Crash and weather ETL: a Dafny model

This project models the transformation engine of a crash/weather ETL pipeline. The pipeline joins two datasets:

- fixed weather points along named motorway routes;
- road accidents of 2017, 2018 and 2019, each year with its own schema.

It produces one table per weather point, holding the number of accidents near it and several normalized and smoothed values. Two versions of the logic are modelled:

- `project/ETLPipeline.py`, the pipeline proper. It is a chain of ten guarded stages, each writing one table into a database.
- `data/dataDownloadFilterPipeline.py`, an older script of the same logic. `filterData` cleans the years, keeps the accidents near a weather point, numbers the weather points and labels the accidents. `connectData` counts and normalizes.

## The model

### Tables and the database

- A table (`Tables.Table`) is a sequence of column names and a sequence of rows.
- A row is a map from column names to cells: `Null`, `Num(real)` or `Text(string)`. A cell a row does not have reads as `Null`, which is how pandas' NaN and None are modelled.
- Every pandas operation the core uses is a function on tables: boolean indexing, `drop`, `rename`, `insert`/`pop`, `reindex`, `concat`, column assignment and `merge`. Each states its effect on columns and rows.
- Failures are values of `Tables.Result`; the constructors of `Tables.Error` name what pandas or Python raises:
  - a missing column is `KeyError`;
  - `|` on a flag that is not an integer, min/max on text, or `+ '_'` on a number, is `TypeError`;
  - `.str` on a column without strings is `AttributeError`;
  - a rolling mean over a group holding text is `DataError` ("No numeric types to aggregate"), tagged with the column;
  - an unsupported year is `UnknownYear`;
  - `np.concatenate([])` is `EmptyConcat`;
  - `np.min` or `np.argmin` over zero weather points is `EmptyReduction` or `EmptyArgmin`.
- The database is the class `Storage.Store`, holding a `map<string, Table>`. It has `Exists`, `Read` and `Write` (replace) methods. Reading a missing table fails with `TableNotFound`.

### The distance

The haversine distance is a parameter `dist: (Point, Point) -> real` of every operation that needs it. Everything proved about the spatial matcher holds for any distance function.

### Operations, by source function

| source function | modelled by |
|---|---|
| `preprocess_weather_data` | method `RouteIndex.PreprocessWeather`, against the function `RouteIndex.WeatherIndexed` |
| `preprocess_crash_data` | function `Harmonize.PreprocessCrash` |
| `connect_crash_data_with_weather_data` | method `Spatial.ConnectNearby` (the distance loop), against `Spatial.Nearby` |
| `assign_crash_to_weather_data` | method `Spatial.AssignRoutes` (the labelling loop), against `Spatial.Assign` |
| `filter_wet_snow_crash_data` | `Aggregate.ConditionView` |
| `combine_weather_and_crash_data` | `Aggregate.Combine` |
| `add_column_with_normalized_crash_values` | method `Normalize.AddNormalizedCrashValues` |
| `normalize_per_Route` and `smooth_crash_data` | method `Normalize.NormalizePerRoute` |
| `transform` | method `Pipeline.Transform`, over a `Store` |
| `filterData` | method `Legacy.FilterData` |
| `connectData` | method `Legacy.ConnectData` |

`Legacy.LegacyMatchesEtl` ties the two versions together. On any accident table whose coordinates are already called Latitude and Longitude, the script's cleaning of a year equals the pipeline's harmonizer wherever the harmonizer succeeds. The two differ in order: the script filters before it merges the flags and drops all columns in one go.

`FilterData` and `ConnectData` together give `Legacy.LegacyCountsAddUp`: the crash counts of `WeatherCrashData` sum to the number of accidents that `filterData` gave a route.

At the edges of its input the code behaves in ways that are easy to misread; the model does what the code does:

- **Zero-width range.** A range with max == min yields NaN at `project/ETLPipeline.py:280` and `:321`, and at `data/dataDownloadFilterPipeline.py:158`. The model gives `Null` for every row of such a column; it neither reports an error nor writes 0.
- **Partial writes.** `filterData` writes the three `_nearby` tables before it numbers the weather points and labels the accidents, so a failure of either leaves those three tables written. `Legacy.FilterOutcome` states exactly which writes happen.
- **Route prefix.** The script does not strip `"Route_"` from the route names; only the pipeline does.
- **Weather points without a route.** A row whose Strecke is null (or, in the pipeline, no text) is left out of the `groupby`. Its Kilometer and StreckeID are NaN, and once such a row exists the counter column is a float column, so identifiers read `A1_3.0` rather than `A1_3`. Only a Strecke column that holds numbers fails: `.str` refuses a column of numbers without a single text, and `+ '_'` refuses a number.
- **What the aggregation counts.** Accidents without a route (`None`) are not counted by `groupby`. So the count columns add up to the number of labelled accidents, not to all accidents.

## Model

| member | source | states |
|---|---|---|
| Tables.FilterIsSubsequence | project/ETLPipeline.py:154-159 | a boolean-indexing filter keeps exactly the rows that pass, in their original order (the result reads the input at increasing positions) |
| Tables.SelectIsFilter | project/ETLPipeline.py:182 | indexing with a mask computed row by row is filtering by that computation |
| Tables.SetColumn | project/ETLPipeline.py:214-215 | assigning a column sets that cell in every row and keeps every row's other cells |
| Tables.DropColumns | project/ETLPipeline.py:161 | drop fails with KeyError iff a listed column is missing; otherwise exactly the unlisted columns remain and every row loses exactly the listed cells |
| Tables.DropKeysTwice | project/ETLPipeline.py:141-161 | dropping two lists one after the other is dropping their union once |
| Tables.Rename | project/ETLPipeline.py:112 | a missing column is ignored; renaming onto another existing column is an error; otherwise the name is replaced in place and moved in every row |
| Tables.ReplaceMembers | project/ETLPipeline.py:148 | after a rename the old name is gone and the new one is present exactly when the old one was |
| Tables.RenameKeyCell | project/ETLPipeline.py:148 | a rename moves the renamed cell and leaves every other cell alone |
| Tables.MoveColumn | project/ETLPipeline.py:124 | insert(pos, c, pop(c)) puts c at position pos, keeps the other columns in order and leaves the rows alone |
| Tables.NeedColumns | project/ETLPipeline.py:189-190 | selecting columns fails iff one is missing and otherwise leaves the table as it is |
| Tables.FirstMissing | project/ETLPipeline.py:161 | the column reported missing is a listed column the table lacks |
| Tables.FirstMissingAt | project/ETLPipeline.py:161 | the missing column reported is the first one in list order |
| Tables.AlignRow | data/dataDownloadFilterPipeline.py:47-51 | a reindexed row is over exactly the given columns, null where it had no value |
| Tables.Reindex | data/dataDownloadFilterPipeline.py:47-51 | reindex gives exactly the given column sequence, and every row is aligned to it |
| Tables.ConcatThree | project/ETLPipeline.py:225 | concat of three tables: every column of any of them once, then the rows of the first, second and third in order, each keeping its cells and null elsewhere |
| Tables.MinOf | project/ETLPipeline.py:270 | the minimum is an element of the column and bounds every element from below |
| Tables.MaxOf | project/ETLPipeline.py:271 | the maximum is an element of the column and bounds every element from above |
| Strings.NatToString | project/ETLPipeline.py:121 | str(n) is a non-empty string of decimal digits |
| Strings.ParsePrinted | project/ETLPipeline.py:121 | printing a number in decimal and parsing it back gives the number |
| Strings.PrintInjective | project/ETLPipeline.py:121 | distinct numbers print as distinct strings |
| Strings.PrintedHasNoUnderscore | project/ETLPipeline.py:121 | a printed number contains no underscore |
| Strings.SplitAtLastUnderscore | project/ETLPipeline.py:121 | route + "_" + digits decomposes uniquely, so equal identifiers have equal routes and equal numbers |
| Strings.RemoveAll | project/ETLPipeline.py:115 | removing "Route_" leaves a string no longer than the input, made of characters of the input (as a multiset); RemoveAllAbsent, StripsPrefix and RemoveAllSinglePass state what it removes |
| Strings.RemoveAllSinglePass | project/ETLPipeline.py:115 | the removal is a single left-to-right pass: what it brings together is not removed again, so "RRoute_oute_" becomes "Route_" |
| Strings.RemoveAllAbsent | project/ETLPipeline.py:115 | a name without the pattern's first character is left as it is |
| Strings.StripsPrefix | project/ETLPipeline.py:115 | "Route_" followed by a name without "R" becomes that name |
| RouteIndex.RunningCount | project/ETLPipeline.py:118 | groupby(...).cumcount() + 1: one count per row |
| RouteIndex.RunningCountEnumeratesGroups | project/ETLPipeline.py:118 | within each group the counter takes exactly the values 1..n in row order, n being the group's size |
| RouteIndex.RunningCountSeparatesGroup | project/ETLPipeline.py:118 | two rows of one group never share a count, the later one counting higher |
| RouteIndex.RouteIdInjective | project/ETLPipeline.py:121 | equal identifiers name the same route and the same number, the number printed as an integer or as a float alike |
| RouteIndex.CountTextHasNoUnderscore | project/ETLPipeline.py:121 | a printed counter, "3" or "3.0", contains no underscore |
| RouteIndex.CountTextInjective | project/ETLPipeline.py:121 | distinct counts print as distinct counter texts |
| RouteIndex.Kms | project/ETLPipeline.py:118 | the counter column: a row with a route gets its running number within the route, a row without one NaN |
| RouteIndex.Ids | project/ETLPipeline.py:121 | the identifier column: route + "_" + the printed counter for a text route, NaN otherwise, the counter printed as a float once some route is null |
| RouteIndex.IdsUnique | project/ETLPipeline.py:118-121 | no two rows get the same non-null identifier |
| RouteIndex.IdsNullExactly | project/ETLPipeline.py:118-121 | a row's identifier is null iff its route is no text, and its counter iff its route is null |
| RouteIndex.KmsEnumerateGroups | project/ETLPipeline.py:118 | within each route the counter is exactly 1..n in row order, n the route's size; the rows without route read NaN |
| RouteIndex.StrippedRoutes | project/ETLPipeline.py:115 | str.replace on each row: a text loses every "Route_", any other cell becomes NaN |
| RouteIndex.IndexedRowCells | project/ETLPipeline.py:115-127 | an indexed row holds its route, its Kilometer and its StreckeID, and every other cell unchanged |
| RouteIndex.IndexRoutes | project/ETLPipeline.py:115-127 | every row gets its stripped route, its counter cell and its identifier cell |
| RouteIndex.WeatherIndexed | project/ETLPipeline.py:108-130 | the specification of preprocess_weather_data; WeatherIndexedFails states when it fails and WeatherIndexedRows what each row holds |
| RouteIndex.PreprocessWeather | project/ETLPipeline.py:108-130 | the column-by-column statements compute exactly WeatherIndexed, errors included |
| RouteIndex.WeatherIndexedFails | project/ETLPipeline.py:108-130 | the stage fails iff a coordinate rename clashes, Strecke is missing (KeyError) or Strecke holds numbers and no text (AttributeError of `.str`) |
| RouteIndex.RenamedKeepsStrecke | project/ETLPipeline.py:112 | the coordinate renames keep the Strecke column and all its cells |
| RouteIndex.RenamedCells | project/ETLPipeline.py:112 | after the renames Longitude and Latitude read the raw Lon [°] and Lat [°] cells, and every other cell is kept |
| RouteIndex.WeatherIndexedRow | project/ETLPipeline.py:108-130 | one output row: the stripped route, its counter and identifier cells, the raw coordinates under their new names, every other value kept |
| RouteIndex.WeatherIndexedRows | project/ETLPipeline.py:108-130 | wherever the stage does not fail, each output row has the stripped route, its running number and the identifier built from both (NaN for a row without route), the raw Lon [°] and Lat [°] under Longitude and Latitude, and every other raw value |
| RouteIndex.WeatherIdsUnique | project/ETLPipeline.py:118-121 | no two weather points share a non-null StreckeID |
| RouteIndex.WeatherKilometersEnumerateRoute | project/ETLPipeline.py:118 | within each route Kilometer is exactly 1..n in row order; the rows without route read NaN |
| RouteIndex.IndexedColumnsLayout | project/ETLPipeline.py:124-127 | on a table starting with Strecke, the columns become Strecke, StreckeID, Kilometer, then the rest in order |
| Harmonize.FlagOr | project/ETLPipeline.py:143 | on 0/1 flags, Python's \| is logical or |
| Harmonize.BitOrCovers | project/ETLPipeline.py:143 | on non-negative integers \| bounds both operands from above |
| Harmonize.OrColumn | project/ETLPipeline.py:143-147 | the flag merge fails with KeyError on a missing column, and with TypeError when a row that reaches it holds a flag that is not an integer (a null included; the rule is the model's, see Left out); otherwise only the target column changes, to the \| of the two cells |
| Harmonize.KeepWhere | project/ETLPipeline.py:140-159 | a comparison filter fails iff its column is missing; otherwise it keeps the rows whose cell passes, in order |
| Harmonize.Exclusions | project/ETLPipeline.py:154-159 | the four exclusion filters fail iff an exclusion column is missing, with the KeyError of the first missing one in filter order, and keep the columns (the rows they keep are stated by ExclusionsDerived) |
| Harmonize.OrRows | project/ETLPipeline.py:143 | the rows of a flag merge are the input rows, each merged |
| Harmonize.DropRows | project/ETLPipeline.py:141 | the rows after a drop are the input rows, each without the dropped cells |
| Harmonize.RenameRows | project/ETLPipeline.py:148 | renaming a present column renames the key in every row |
| Harmonize.FilterColumnsUntouched | project/ETLPipeline.py:136-159 | no column a filter reads is renamed, merged into or dropped before the filter reads it |
| Harmonize.CoordCell | project/ETLPipeline.py:136 | a filter column reads the same before and after the coordinate rename |
| Harmonize.YearCell | project/ETLPipeline.py:139-149 | a filter column reads the same before and after the year's transformation |
| Harmonize.Year2017Derived | project/ETLPipeline.py:139-141 | 2017 keeps the December rows, in order, and drops the bookkeeping columns |
| Harmonize.Year2018Derived | project/ETLPipeline.py:142-144 | 2018 keeps every row, merges the flags and drops the bookkeeping columns |
| Harmonize.Year2019Derived | project/ETLPipeline.py:145-149 | 2019 keeps the non-December rows, merges the flags, renames IstSonstige and drops the bookkeeping columns |
| Harmonize.MonthDerived | project/ETLPipeline.py:139-146 | the month condition after the coordinate rename is the month condition on the raw row |
| Harmonize.NoMonthDerived | project/ETLPipeline.py:142-144 | 2018 has no month filter |
| Harmonize.YearStepDerived | project/ETLPipeline.py:139-151 | the year step keeps the rows of the right months, in order, and transforms each |
| Harmonize.ExclusionChainMeans | project/ETLPipeline.py:154-159 | the condition the exclusion chain builds is the month condition and NotExcluded |
| Harmonize.ExclusionsFirstMissing | project/ETLPipeline.py:154-159 | the first exclusion column a table lacks, in the order the filters read them |
| Harmonize.ExclusionFilters | project/ETLPipeline.py:154-159 | the exclusion filters, one after the other, extend an order-preserving chain |
| Harmonize.ExclusionsDerived | project/ETLPipeline.py:154-159 | the exclusions add NotExcluded to the condition of the chain |
| Harmonize.CoordDerived | project/ETLPipeline.py:136 | the coordinate renames transform every raw row and keep all rows |
| Harmonize.ExclusionColumnsKept | project/ETLPipeline.py:136-159 | neither the rename nor the year step touches an exclusion column |
| Harmonize.KeptCondition | project/ETLPipeline.py:139-159 | passing the month filter and the exclusions is exactly Kept |
| Harmonize.FinishDerived | project/ETLPipeline.py:161 | the closing drop of IstRad and IstFuss completes the row transformation FinishBy |
| Harmonize.YearStep | project/ETLPipeline.py:139-151 | the year-specific part of preprocess_crash_data, with the flag merge after the 2019 month filter as OrColumn decides it; YearStepDerived states its rows, YearStepColumns its columns and UnknownYearFails its error for another year |
| Harmonize.PreprocessCrash | project/ETLPipeline.py:133-163 | the specification of preprocess_crash_data; PreprocessCrashRows states its rows, PreprocessCrashColumns and PreprocessCrashNames its columns |
| Harmonize.PreprocessCrashRows | project/ETLPipeline.py:133-163 | the harmonized rows are exactly the raw rows of the right months that no exclusion removes, in original order, each transformed by FinishBy |
| Harmonize.YearDropsGone | project/ETLPipeline.py:141-149 | the year's bookkeeping columns are gone after the year step |
| Harmonize.DroppedCell | project/ETLPipeline.py:141-161 | every dropped column is null in every harmonized row |
| Harmonize.FlagCell | project/ETLPipeline.py:143-148 | in 2018 and 2019 IstSonstig holds the \| of the year's flag column and IstGkfz |
| Harmonize.YearKeptCell | project/ETLPipeline.py:139-149 | a column the year step does not touch keeps its value |
| Harmonize.KeptCell | project/ETLPipeline.py:133-163 | a column the harmonizer does not touch keeps its value in every harmonized row |
| Harmonize.CoordinateCells | project/ETLPipeline.py:136 | the raw coordinates reappear as Longitude and Latitude |
| Harmonize.CoordinatesNotDropped | project/ETLPipeline.py:136-161 | Longitude and Latitude are neither merged nor dropped in any year |
| Harmonize.CoordinateKept | project/ETLPipeline.py:136-161 | the coordinate columns pass the year step and the closing drop unchanged |
| Harmonize.YearStepColumns | project/ETLPipeline.py:139-149 | the columns after the year step are those YearHas names |
| Harmonize.CoordNamesMembers | project/ETLPipeline.py:136 | the names after the coordinate rename: each raw coordinate name replaced by its new name |
| Harmonize.CoordStepColumns | project/ETLPipeline.py:136 | when both coordinate renames succeed they yield exactly CoordNames |
| Harmonize.PreprocessCrashNames | project/ETLPipeline.py:133-163 | the harmonized columns are the renamed and merged names without any dropped one |
| Harmonize.DroppedNames | project/ETLPipeline.py:141-161 | no dropped column is in the harmonized table |
| Harmonize.KeptNames | project/ETLPipeline.py:133-163 | an untouched column is in the harmonized table exactly when the raw table has it |
| Harmonize.CoordinateNames | project/ETLPipeline.py:136 | the raw coordinate columns are replaced by Longitude and Latitude |
| Harmonize.FlagNotDropped | project/ETLPipeline.py:141-161 | IstSonstig is dropped in no year |
| Harmonize.FlagNames | project/ETLPipeline.py:143-148 | in 2018 and 2019 the merged flag is called IstSonstig |
| Harmonize.PreprocessCrashColumns | project/ETLPipeline.py:133-163 | the harmonized columns: none dropped, the coordinates renamed, IstSonstig in 2018 and 2019, and every other raw column |
| Harmonize.UnknownYearFails | project/ETLPipeline.py:150-151 | any year but 2017, 2018 and 2019 fails, with UnknownYear unless a coordinate rename failed first |
| Spatial.ArgMin | project/ETLPipeline.py:199 | argmin is an index of the minimum, and every earlier index holds a strictly larger distance |
| Spatial.MinAtMost | project/ETLPipeline.py:182 | the minimum distance is within the threshold iff some distance is |
| Spatial.Nearby | project/ETLPipeline.py:166-182 | the specification of the filter mode; NearbyKeeps states the accidents it keeps and NearbyFails when it fails |
| Spatial.ConnectNearby | project/ETLPipeline.py:166-182 | the distance loop and the mask compute exactly Nearby, errors included |
| Spatial.NearbyKeeps | project/ETLPipeline.py:173-182 | the filter mode keeps the columns and exactly the accidents with a weather point within the threshold, in order |
| Spatial.NearbyFails | project/ETLPipeline.py:180-182 | an empty batch fails at the concatenation, a missing coordinate with KeyError, and the filter fails exactly in those cases and for zero weather points |
| Spatial.LabelCrash | project/ETLPipeline.py:197-211 | one loop turn yields the Strecke and StreckeID of the first nearest weather point, or null beyond the threshold, failing iff a needed label column is missing |
| Spatial.LabelNext | project/ETLPipeline.py:196-211 | one loop turn extends the two collected label prefixes by the accident's labels, failing iff the accident lies within the threshold and a needed label column is missing |
| Spatial.LabelAll | project/ETLPipeline.py:196-211 | the loop collects exactly the two label columns, failing iff some accident within the threshold needs a missing label column |
| Spatial.Assign | project/ETLPipeline.py:185-217 | the specification of the assign mode; AssignLabels states the labels it gives, AssignNoWeather, AssignCoordinates and AssignMissingLabel its failures |
| Spatial.AssignRoutes | project/ETLPipeline.py:185-217 | the assign mode computes exactly Assign, errors included |
| Spatial.AssignNoWeather | project/ETLPipeline.py:199 | accidents but no weather points: argmin fails |
| Spatial.AssignCoordinates | project/ETLPipeline.py:189-190 | a missing coordinate column fails with KeyError, the accidents' first |
| Spatial.AssignMissingLabel | project/ETLPipeline.py:204-205 | an accident within the threshold with a label column missing fails with KeyError |
| Spatial.AssignDone | project/ETLPipeline.py:214-215 | when every accident finds its labels, the result is the accident table with the two label columns set |
| Spatial.AssignLabels | project/ETLPipeline.py:196-217 | every accident is kept, in order, with its other cells; beyond the threshold both labels are null; within it both come from one weather point at minimum distance, every earlier one strictly farther |
| Aggregate.ConditionView | project/ETLPipeline.py:229-238 | codes 1, 2, 3 select by STRZUSTAND (KeyError iff it is missing); any other code returns the table |
| Aggregate.ViewSelects | project/ETLPipeline.py:229-238 | an accident is in a view iff it is an accident of the table meeting the view's condition |
| Aggregate.WetAndSnowWithinWetSnow | project/ETLPipeline.py:232-236 | the wet and the snow views are views of the wet-or-snow view |
| Aggregate.CountJoin | project/ETLPipeline.py:248-254 | the left join fails iff the count column exists already; otherwise it keeps every weather row once, in order, with the count of its key appended (null for none) |
| Aggregate.JoinedRows | project/ETLPipeline.py:248-257 | after the four left joins each weather row is the weather row followed by its four counts |
| Aggregate.Combine | project/ETLPipeline.py:241-259 | combine fails iff a key column or a fresh count name is lacking; otherwise the four counts are appended to every weather row |
| Aggregate.CombinedRow | project/ETLPipeline.py:248-257 | a weather row with its four counts; CombinedRowCells states its cells |
| Aggregate.CombinedRowCells | project/ETLPipeline.py:254-257 | a combined row keeps every weather cell and holds the four counts |
| Aggregate.CountOf | project/ETLPipeline.py:248-264 | the filled count of a weather point; FilledCountCell states it is the joined count filled with 0 and CountsAddUp that the counts sum to the labelled accidents |
| Aggregate.FilledCountCell | project/ETLPipeline.py:264 | the joined count filled with 0 is the number of labelled accidents with the row's key |
| Aggregate.CountsAddUp | project/ETLPipeline.py:248-267 | with unique weather keys and every labelled accident at some weather row, the filled counts sum to the number of labelled accidents |
| Aggregate.ColumnSumCounts | project/ETLPipeline.py:264 | a column of join counts sums to the total of the filled counts |
| Aggregate.CombineTotals | project/ETLPipeline.py:241-267 | with unique weather keys and every labelled accident of each view at some weather row, over the combined table each count column sums to the number of labelled accidents of its view |
| Normalize.RoundHalfEven | project/ETLPipeline.py:286 | the rounding is within 0.5 of its argument |
| Normalize.RoundHalfEvenMonotone | project/ETLPipeline.py:286 | rounding is monotone |
| Normalize.RoundHalfEvenInteger | project/ETLPipeline.py:286 | an integer rounds to itself |
| Normalize.Round1 | project/ETLPipeline.py:286 | round(decimals=1) is within 0.05 of its argument |
| Normalize.Round1Monotone | project/ETLPipeline.py:286 | rounding to one decimal is monotone |
| Normalize.Round1Keeps | project/ETLPipeline.py:286 | a number with one decimal is unchanged |
| Normalize.Round1Between | project/ETLPipeline.py:286 | rounding keeps a number between two bounds of one decimal |
| Normalize.Scale | project/ETLPipeline.py:280 | min/max scaling of one cell; ScaleBounds states its range and RoundedScaleRange when it is null |
| Normalize.ScaleBounds | project/ETLPipeline.py:280 | scaling maps lo to 0, hi to the factor and [lo, hi] into [0, factor] |
| Normalize.FillZero | project/ETLPipeline.py:264 | fillna(0) fails iff the column is missing; otherwise only that column changes, to its filled cells |
| Normalize.NormalizeColumn | project/ETLPipeline.py:270-286 | the min/max scaling fails with TypeError iff the column holds text; otherwise only the new column changes, to the scaled and rounded counts |
| Normalize.FirstMissingCount | project/ETLPipeline.py:264-267 | the failing fillna is that of the first missing count column in statement order |
| Normalize.FirstTextCount | project/ETLPipeline.py:270-277 | the failing min is that of the first count column holding text in statement order |
| Normalize.FirstTextAt | project/ETLPipeline.py:270-277 | when every earlier count column is numeric and column k holds text, the failing min is column k's |
| Normalize.FilledCounts | project/ETLPipeline.py:264-267 | after the fills, type and normalized values of every count column are those of the unfilled table |
| Normalize.FillCounts | project/ETLPipeline.py:264-267 | the four fills: KeyError at the first missing count column; otherwise only the count cells change, to their filled values |
| Normalize.WriteStep | project/ETLPipeline.py:280-289 | one normalization statement fails on text and otherwise extends the written prefix |
| Normalize.NormalizeStep | project/ETLPipeline.py:270-289 | one normalization statement computes the next column of the written prefix |
| Normalize.WriteNormalized | project/ETLPipeline.py:270-289 | the four normalization statements: TypeError at the first text column; otherwise only the normalized columns change |
| Normalize.FilledTypes | project/ETLPipeline.py:264-277 | filling changes neither which count column holds text nor which one is first |
| Normalize.FilledThenWritten | project/ETLPipeline.py:262-291 | filling then writing leaves every row as the global pass promises |
| Normalize.AddNormalizedCrashValues | project/ETLPipeline.py:262-291 | the global pass: KeyError at the first missing count, TypeError at the first text count; otherwise every other cell kept, every count filled and every normalized column scaled and rounded |
| Normalize.Normalized | project/ETLPipeline.py:270-286 | the normalized value of one row; NormalizedRange and RoundedScaleRange state its range |
| Normalize.NormalizedRange | project/ETLPipeline.py:270-289 | with a non-zero range the minimum becomes 0, the maximum 100 and everything lies in [0, 100]; a zero range gives null everywhere |
| Normalize.RoundedScaleRange | project/ETLPipeline.py:280-289 | a scaled and rounded count is null iff the range is zero; otherwise it lies in [0, 100], the minimum giving 0 and the maximum 100 |
| Normalize.RouteColumnsDistinct | project/ETLPipeline.py:297-308 | the twelve scaled columns are distinct and none is the route column |
| Normalize.RouteMin | project/ETLPipeline.py:319 | transform('min') is a number of the route bounding all its numbers below, null for a route without numbers |
| Normalize.RouteMax | project/ETLPipeline.py:320 | transform('max') is a number of the route bounding all its numbers above, null for a route without numbers |
| Normalize.RouteScaled | project/ETLPipeline.py:317-321 | per-route min/max scaling of one row; RouteScaledRange states its range |
| Normalize.RouteScaledRange | project/ETLPipeline.py:317-321 | a value lies between its route's minimum and maximum; it scales to null iff they are equal, otherwise into [0, 1], the minimum to 0 and the maximum to 1 |
| Normalize.ScaleWithinRoutes | project/ETLPipeline.py:319-321 | one scaled value per row, each scaled within its own route |
| Normalize.ScaleStep | project/ETLPipeline.py:317-321 | turn k of the loop scales column k when numeric, keeps it otherwise, and fails iff it is missing |
| Normalize.ScaleColumn | project/ETLPipeline.py:317-321 | the grouped min and max transform of a numeric column scales it within every route, extending the scaled prefix by that column |
| Normalize.ScaleRoutes | project/ETLPipeline.py:311-321 | the scaling loop fails on a missing route or listed column; otherwise every numeric listed column is replaced by its per-route scaling and every other cell is kept |
| Normalize.PrevOf | project/ETLPipeline.py:330 | the previous row of the same route, or -1 when there is none |
| Normalize.NextOf | project/ETLPipeline.py:330 | the next row of the same route, or the length when there is none |
| Normalize.Window | project/ETLPipeline.py:330 | the rolling window of one row; WindowInRoute states which rows it holds |
| Normalize.Mean | project/ETLPipeline.py:330 | the mean of the numbers of a window, null without any; SmoothBounds states its bounds |
| Normalize.Smoothed | project/ETLPipeline.py:329-334 | the smoothed value of one row; SmoothSingle, SmoothFirst, SmoothLast and SmoothInner state it per position, SmoothBounds its range |
| Normalize.WindowInRoute | project/ETLPipeline.py:323-330 | the rolling window holds rows of the row's route only, at most one on each side |
| Normalize.SmoothSingle | project/ETLPipeline.py:330 | a route of one row is unchanged by smoothing |
| Normalize.SmoothFirst | project/ETLPipeline.py:330 | the first row of a longer route averages itself and its successor |
| Normalize.SmoothLast | project/ETLPipeline.py:330 | the last row of a longer route averages itself and its predecessor |
| Normalize.SmoothInner | project/ETLPipeline.py:330 | an inner row averages itself and its two neighbours |
| Normalize.SmoothBounds | project/ETLPipeline.py:330 | values of a route between lo and hi smooth to values between lo and hi |
| Normalize.RoutedRows | project/ETLPipeline.py:323 | groupby keeps the rows with a route, in order, and leaves out those whose route is null |
| Normalize.FirstUnsmoothable | project/ETLPipeline.py:329-333 | the error smoothing reports is the KeyError of a missing normalized column or the DataError of a normalized column holding text in a routed row |
| Normalize.SmoothRoutes | project/ETLPipeline.py:323-334 | smoothing fails iff Strecke is missing, or some row has a route and a normalized column is missing or holds text in a row with a route (text in a row without a route is never smoothed); otherwise the routed rows in order, each with the four smoothed columns |
| Normalize.ScaledColumn | project/ETLPipeline.py:317-321 | a column after the loop: scaled within routes when listed and numeric, otherwise kept |
| Normalize.ColumnLists | project/ETLPipeline.py:297-333 | every smoothed input is a scaled column, and no smoothed column is |
| Normalize.ScaledColumns | project/ETLPipeline.py:317-323 | the scaled table as the smoothing sees it: the same routes, normalized columns scaled |
| Normalize.SmoothedRowCells | project/ETLPipeline.py:329-334 | a smoothed row sets the four smoothed columns and keeps every other cell |
| Normalize.SmoothedRows | project/ETLPipeline.py:323-334 | the grouped smoothing yields one row per routed index, in order, each that row with its smoothed columns |
| Normalize.ScaledThenSmoothedRow | project/ETLPipeline.py:317-334 | a smoothed row of the scaled table has the cells the per-route pass promises |
| Normalize.NormalizePerRoute | project/ETLPipeline.py:294-326 | the per-route pass fails iff Strecke or a listed column is missing, or a normalized column holds text in a row with a route; otherwise the routed rows in order, each scaled within its route and smoothed |
| Normalize.SmoothedInUnitRange | project/ETLPipeline.py:317-334 | a smoothed crash value is null or lies in [0, 1] |
| Storage.Store.Exists | project/ETLPipeline.py:337-355 | table_exists is true iff the database holds the name |
| Storage.Store.Read | project/ETLPipeline.py:101-105 | reading succeeds iff the table exists, and then gives it; otherwise TableNotFound |
| Storage.Store.Write | project/ETLPipeline.py:57-58 | to_sql with replace: the table of that name is the new one and every other table is kept |
| Storage.Lookup | project/ETLPipeline.py:101-105 | the value-level read: the table iff it exists, else TableNotFound |
| Pipeline.StagesDistinct | project/ETLPipeline.py:26-54 | no two stages share an output name, and no stage overwrites a raw table |
| Pipeline.InputUnaffected | project/ETLPipeline.py:26-54 | writing a stage's output does not change what that stage reads |
| Pipeline.InputPersists | project/ETLPipeline.py:26-54 | what a stage computes stays the same once other tables are added |
| Pipeline.WeatherStage | project/ETLPipeline.py:27-28 | the weather stage is skipped when weatherDataID exists; otherwise it writes the indexed table or fails and writes nothing |
| Pipeline.NearbyStage | project/ETLPipeline.py:29-34 | a year's stage is skipped when its nearby table exists; otherwise it writes the harmonized accidents near a weather point or fails |
| Pipeline.ReadNearby | project/ETLPipeline.py:220-227 | the concatenation of the three nearby tables, or CrashYearMissing iff one is missing |
| Pipeline.CrashStage | project/ETLPipeline.py:36-37 | crashData is skipped when present, else the labelled concatenation is written or the stage fails |
| Pipeline.ViewStage | project/ETLPipeline.py:39-46 | each condition view is skipped when present, else written or failed |
| Pipeline.ReadCombined | project/ETLPipeline.py:241-259 | the five reads in order, then the combined counts |
| Pipeline.CombineStage | project/ETLPipeline.py:48-51 | weatherCrashData is skipped when present, else the normalized combination is written or the stage fails |
| Pipeline.PerRouteStage | project/ETLPipeline.py:53-54 | the per-route stage is skipped when present, else written or failed |
| Pipeline.StageDone | project/ETLPipeline.py:26-54 | the outcome of one guarded stage; RunOne states that each stage meets it, Kept the skip |
| Pipeline.Kept | project/ETLPipeline.py:26-54 | a stage whose output exists is skipped with success and changes nothing |
| Pipeline.CombineFailed | project/ETLPipeline.py:48-51 | a failing read, combination or normalization ends the combination stage with that error, writing nothing |
| Pipeline.CombineContent | project/ETLPipeline.py:48-51 | writing the normalized combination gives weatherCrashData the content the stage specifies |
| Pipeline.CombineWritten | project/ETLPipeline.py:48-51 | writing weatherCrashData when absent is the complete successful outcome of the combination stage |
| Pipeline.PerRouteFailed | project/ETLPipeline.py:53-54 | a missing weatherCrashData, or a failing per-route normalization, ends the last stage with that error, writing nothing |
| Pipeline.PerRouteContent | project/ETLPipeline.py:53-54 | writing the per-route table gives it the content the stage specifies |
| Pipeline.PerRouteWritten | project/ETLPipeline.py:53-54 | writing the per-route table when absent is the complete successful outcome of the last stage |
| Pipeline.RunOne | project/ETLPipeline.py:26-54 | stage m of the fixed order, whichever it is, is skipped, written or failed as its stage specifies |
| Pipeline.StepProduced | project/ETLPipeline.py:26-54 | every output written so far keeps its content after one more stage |
| Pipeline.StepOutcome | project/ETLPipeline.py:26-54 | after stage m the earlier outputs are still there, its own on success, and on failure it is the first missing output |
| Pipeline.Step | project/ETLPipeline.py:26-54 | a stage after the first m succeeded either extends the progress to m + 1 stages or ends the run with its failure |
| Pipeline.StepOk | project/ETLPipeline.py:26-54 | a successful stage after the first m extends the progress to m + 1 stages |
| Pipeline.StepErr | project/ETLPipeline.py:26-54 | a failing stage after the first m ends the run as transform promises, failed at that stage |
| Pipeline.RunStage | project/ETLPipeline.py:26-54 | one stage after the first m have succeeded extends the progress or ends the run with its failure |
| Pipeline.Outcome | project/ETLPipeline.py:26-54 | the outcome of transform; Transform states that the run meets it, Completed the success |
| Pipeline.Transform | project/ETLPipeline.py:26-54 | transform keeps every table, adds only stage outputs with their contents, has every output on success, fails at the first stage whose output is missing, and leaves a database holding every output unchanged |
| Pipeline.Completed | project/ETLPipeline.py:26-54 | a run whose stages all succeeded ends with success |
| Legacy.LegacyYear | data/dataDownloadFilterPipeline.py:20-44 | the script's cleaning of one year, with the flag merge after the exclusions as OrColumn decides it; LegacyYearRows states its rows, LegacyYearNames its columns, LegacyMatchesEtl its agreement with the pipeline |
| Legacy.LegacyYearRows | data/dataDownloadFilterPipeline.py:20-44 | a year's cleaned rows are exactly the raw rows of the right months that no exclusion removes, in order, each transformed by LegacyBy |
| Legacy.LegacyYearNames | data/dataDownloadFilterPipeline.py:38-44 | the cleaned columns are the year's names (IstSonstige renamed in 2019) without the drop list, in order |
| Legacy.LegacyYearColumns | data/dataDownloadFilterPipeline.py:38-44 | a column is in the cleaned table iff it is in the renamed raw table and not in the drop list |
| Legacy.DropListsAgree | data/dataDownloadFilterPipeline.py:42-44 | the script's drop lists are the pipeline's year lists plus IstRad and IstFuss |
| Legacy.RowAgrees | data/dataDownloadFilterPipeline.py:38-44 | on rows without raw coordinate names both cleanings transform a surviving row alike |
| Legacy.LegacySucceeds | data/dataDownloadFilterPipeline.py:20-44 | wherever the pipeline's harmonizer succeeds on a year, the script's cleaning succeeds too |
| Legacy.LegacyMatchesEtl | data/dataDownloadFilterPipeline.py:20-44 | on tables already using Latitude/Longitude, the script's cleaning equals the pipeline's harmonizer wherever the latter succeeds |
| Legacy.CleaningOutcome | data/dataDownloadFilterPipeline.py:20-51 | the cleaning statements in order, failing with the first one that fails (the flag merges as OrColumn decides them); CleaningMeans states its meaning |
| Legacy.CleaningMeans | data/dataDownloadFilterPipeline.py:20-51 | the interleaved cleaning succeeds iff every year cleans, gives the cleaned years with 2018 and 2019 reindexed to 2017's columns, and fails with the error of one year's own cleaning |
| Legacy.CleanYears | data/dataDownloadFilterPipeline.py:20-51 | the statements compute exactly CleaningOutcome: they succeed iff all three years clean, giving the cleaned years; a failure is one of the years' own |
| Legacy.ExcludedYears | data/dataDownloadFilterPipeline.py:24-36 | the interleaved exclusions: they fail with the KeyError of the first exclusion column, in filter order, that some year lacks; ExcludedYearsMeans states their meaning |
| Legacy.ExcludedYearsMeans | data/dataDownloadFilterPipeline.py:24-36 | the twelve interleaved exclusion filters succeed iff each year's four do, giving each year's exclusions; a failure is one year's own |
| Legacy.ExcludeYears | data/dataDownloadFilterPipeline.py:24-36 | the twelve filter statements compute exactly ExcludedYears |
| Legacy.AlignedCells | data/dataDownloadFilterPipeline.py:47-51 | after reindexing a cell is the row's own in a 2017 column and null in any other |
| Legacy.MovedKeepsCounter | data/dataDownloadFilterPipeline.py:105-108 | UniqueID survives the move of StreckeID, so the drop succeeds |
| Legacy.NumberedRows | data/dataDownloadFilterPipeline.py:99-108 | dropping UniqueID from the numbered rows leaves the rows the numbering promises |
| Legacy.LegacyIndexed | data/dataDownloadFilterPipeline.py:99-108 | the numbering of the weather points; LegacyIndexedFails states when it fails, LegacyIndexedCells what each row holds |
| Legacy.IndexWeather | data/dataDownloadFilterPipeline.py:99-108 | the four numbering statements compute exactly LegacyIndexed: KeyError without Strecke, TypeError when Strecke holds a number, else the numbered table |
| Legacy.LegacyIndexedFails | data/dataDownloadFilterPipeline.py:99-102 | the numbering fails iff Strecke is missing (KeyError) or holds a number (TypeError) |
| Legacy.LegacyIndexedCells | data/dataDownloadFilterPipeline.py:99-108 | each numbered row has StreckeID = route + "_" + its running number in the route, NaN for a row without route, no UniqueID, and every other cell unchanged |
| Legacy.LegacyIdsUnique | data/dataDownloadFilterPipeline.py:99-102 | no two numbered weather points share a non-null StreckeID |
| Legacy.LegacyIdsEnumerateRoute | data/dataDownloadFilterPipeline.py:99-102 | within each route the identifiers are route_1 .. route_n in row order (route_1.0 .. once some route is null) |
| Legacy.LegacyIndexedLayout | data/dataDownloadFilterPipeline.py:105-108 | on a table starting with Strecke, the columns become Strecke, StreckeID, then the rest in order |
| Legacy.ReadInputs | data/dataDownloadFilterPipeline.py:14-17 | the four reads succeed iff all four tables exist; otherwise TableNotFound of the first missing in read order |
| Legacy.ReadAll | data/dataDownloadFilterPipeline.py:14-17 | the read statements compute exactly ReadInputs |
| Legacy.NearbyAll | data/dataDownloadFilterPipeline.py:54-90 | the three distance loops compute exactly NearbyYears |
| Legacy.NearbyYearsRows | data/dataDownloadFilterPipeline.py:54-90 | each nearby table holds exactly the cleaned accidents of its year within 600 of some weather point, in order |
| Legacy.AssignAll | data/dataDownloadFilterPipeline.py:96-138 | concatenation, numbering and assignment compute exactly Assigned |
| Legacy.AssignedCovered | data/dataDownloadFilterPipeline.py:119-138 | every accident given a route carries the key of some numbered weather point |
| Legacy.LegacyKeysUnique | data/dataDownloadFilterPipeline.py:99-102 | no two numbered weather points with a route share a (Strecke, StreckeID) key |
| Legacy.AssignedFacts | data/dataDownloadFilterPipeline.py:96-138 | the assignment keeps one row per nearby accident, routes each at a numbered weather point, and the numbered table has unique identifiers and keys |
| Legacy.FilterData | data/dataDownloadFilterPipeline.py:13-142 | filterData's effect on the database is FilterOutcome: no writes on a read, year or distance failure, a year failure reported as the first failing cleaning statement's; the nearby tables only on a later failure; all five tables on success |
| Legacy.FilterYearFailure | data/dataDownloadFilterPipeline.py:20-51 | a failing cleaning writes nothing and reports the error of one year's own cleaning |
| Legacy.FilterKeepsOthers | data/dataDownloadFilterPipeline.py:92-142 | filterData changes no table but the five it writes, and CrashData only on success |
| Legacy.FilterSucceeded | data/dataDownloadFilterPipeline.py:13-142 | after success: all reads and years succeeded, each nearby table holds its year's cleaned accidents within 600, WeatherDataID is the numbered table with unique identifiers and keys, CrashData has one row per nearby accident and every routed one carries the key of a numbered weather point |
| Legacy.FilterOkShape | data/dataDownloadFilterPipeline.py:13-142 | a successful filterData read all inputs, cleaned all years, found the nearby tables and the assignment, and wrote exactly their five tables |
| Legacy.AfterFilterReads | data/dataDownloadFilterPipeline.py:92-142 | after the writes each of the five names holds the table written to it |
| Legacy.WrittenTables | data/dataDownloadFilterPipeline.py:54-142 | the written tables: each nearby table the cleaned accidents within 600, WeatherDataID numbered with unique identifiers and keys, CrashData one row per nearby accident, each routed one keyed to a numbered weather point |
| Legacy.CrashCounts | data/dataDownloadFilterPipeline.py:147-152 | the filled crash count of every weather point, in order |
| Legacy.Connected | data/dataDownloadFilterPipeline.py:144-161 | connectData's computation fails iff a key column is missing or CrashCount exists already, naming the first failure; otherwise every weather row once, with CrashCount and NormalizedCrashCount added |
| Legacy.ConnectedCells | data/dataDownloadFilterPipeline.py:147-161 | CrashCount is the number of accidents with the row's key, 0 if none; NormalizedCrashCount scales it to [0, 100] and rounds; every other cell is kept |
| Legacy.ConnectedRange | data/dataDownloadFilterPipeline.py:154-161 | normalized counts are in [0, 100], 0 at the minimum and 100 at the maximum; null everywhere when all counts are equal |
| Legacy.ConnectedTotal | data/dataDownloadFilterPipeline.py:147-152 | with unique weather keys and every routed accident at a weather point, CrashCount sums to the number of routed accidents |
| Legacy.ConnectData | data/dataDownloadFilterPipeline.py:144-163 | connectData writes WeatherCrashData with the connected table, or fails and writes nothing |
| Legacy.LegacyCountsAddUp | data/dataDownloadFilterPipeline.py:144-163 | after filterData and connectData succeed, the counts of WeatherCrashData sum to the number of accidents given a route |
| Legacy.RunLegacy | data/dataDownloadFilterPipeline.py:184-187 | main without the download: filterData's outcome, then connectData's when filterData succeeded |

## Left out

- Downloading and extraction are not modelled: `extract`, `handle_crash_zip`, `dowloadData` with its subprocess, the URL list of `main`, and the random `sample(frac=.05)` of the testing mode. They are network and file I/O.
- The SQLite mechanics are not modelled. `load`, `read_table_from_sqlite` and `table_exists` become the in-memory `Storage.Store`. `store_transformed_data_in_own_database` copies between two databases and is not modelled.
- The haversine arithmetic of `calculate_distance` is floating-point trigonometry. It is a parameter of the model, and no property of it (not even non-negativity) is assumed.
- Floating point is not modelled. Counts and scaled values are exact reals, and `round(decimals=1)` is round-half-even on reals.
- NaN is `Null`. Int and float dtypes are one `Num`; a cell carries no dtype of its own column.
- Harmonize.OrColumn, and through it Harmonize.YearStep, Legacy.LegacyYear and Legacy.CleaningOutcome, decide the `TypeError` of the flag merge (`project/ETLPipeline.py:143-147`, `data/dataDownloadFilterPipeline.py:38-39`) cell by cell, on the rows that reach the `|`: it fails iff one of those rows holds a flag that is not an integer, a null included. pandas decides by the dtypes as read, and its element-wise fallback handles NaN itself. A column read with a NULL anywhere is float64, also when the NULL sits in a row that an earlier filter removed. That is a month filter in the pipeline's 2019, and the exclusions in the script's 2018 and 2019. There pandas raises at a surviving row with two non-null flags, and the model succeeds. In that fallback a NaN operand passes through as NaN instead of raising. With a float column, pandas therefore raises only at a row whose two operands are both non-null. A one-row table with a null IstSonstig and an IstGkfz of 1 fails in the model but not in pandas. The model does not carry dtypes through the filters and does not model the fallback's result.
- A pandas `merge` onto a column name the weather table already has would add suffixed columns. The model reports it as `DuplicateColumn`. A `rename` onto an existing name is reported the same way.
- `groupby` leaves out rows whose key is null. The model does the same when counting and scaling.
- Normalize.SmoothRoutes, Normalize.SmoothedRows, Normalize.RoutedRows and Normalize.NormalizePerRoute keep the original row order of `groupby('Strecke').apply(...)` (`project/ETLPipeline.py:323`). pandas 2.0 and later default to `group_keys=True` there and emit the rows grouped by sorted route. The model follows the order of earlier pandas, because that order is independent of how routes compare.
- A text coordinate makes `np.radians` in `calculate_distance` raise; the model's distance over points never fails, so that error is not modelled.
- A null coordinate makes its haversine distances NaN. `np.min` (`project/ETLPipeline.py:182`) then returns NaN and `np.argmin` (`:199`) the position of the first NaN. The model's distance function returns a real for every pair of points, so that propagation is not modelled.
- RouteIndex.NumericColumn and Legacy.HasNumber (with Legacy.LegacyIndexedFails) let every Strecke column whose cells are all null through, as a column of `None` read from SQLite. A float column of NaN only would make `.str` (`project/ETLPipeline.py:115`) and `+ '_'` (`data/dataDownloadFilterPipeline.py:102`) fail. The model does not tell the two apart.
- Normalize.SmoothRoutes, Normalize.FirstUnsmoothable and Normalize.NormalizePerRoute count every text cell of a routed row as unconvertible. The float conversion of `rolling(...).mean()` (`project/ETLPipeline.py:330`) also accepts a numeric string such as "1.5", where the model reports a DataError. pandas' DataError names no column and, since `apply` goes group by group, is raised at the first failing group; the model tags it with the first failing normalized column in list order.
- RouteIndex.CountText prints a float counter as digits followed by ".0". Python switches to exponent notation from 10^16 on, which the model does not capture.
- `tqdm` progress bars and `print_message` are console output and are not modelled.
- The Streamlit dashboard and the exercise scripts are outside the core.
- Legacy.RunLegacy: its contract states the two stages' outcomes through the intermediate database, which it returns as a ghost value.
- Spatial.ConnectNearby: the three copy-pasted loops of `filterData` are modelled as one method called once per year (`Legacy.NearbyAll`).
