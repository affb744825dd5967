/**
 * RouteIndex: numbers the weather observation points of each route 1..n in
 * row order (the column Kilometer) and gives each point the composite
 * identifier StreckeID = Strecke + "_" + Kilometer.
 */
module RouteIndex {
  import opened Tables
  import opened Strings

  // ---------------------------------------------------------------------------
  // The per-group running counter: groupby(key).cumcount() + 1
  // ---------------------------------------------------------------------------

  /** Row i gets one more than the number of earlier rows with the same key. */
  function RunningCount<T(==)>(keys: seq<T>): (ks: seq<nat>)
    ensures |ks| == |keys|
  {
    seq(|keys|, i requires 0 <= i < |keys| => Occurrences(keys[..i], keys[i]) + 1)
  }

  /** The values of the rows whose key is k, in row order. */
  function GroupValues<T(==), U>(keys: seq<T>, vals: seq<U>, k: T): seq<U>
    requires |keys| == |vals|
  {
    if keys == [] then []
    else GroupValues(keys[..|keys| - 1], vals[..|vals| - 1], k)
         + (if keys[|keys| - 1] == k then [vals[|vals| - 1]] else [])
  }

  /** 1, 2, ..., n */
  function Iota(n: nat): (s: seq<nat>)
    ensures |s| == n && forall j :: 0 <= j < n ==> s[j] == j + 1
  {
    seq(n, j requires 0 <= j < n => j + 1)
  }

  lemma {:induction false} OccurrencesConcat<T>(a: seq<T>, b: seq<T>, x: T)
    ensures Occurrences(a + b, x) == Occurrences(a, x) + Occurrences(b, x)
  {
    if b == [] {
      assert a + b == a;
    } else {
      assert (a + b)[..|a + b| - 1] == a + b[..|b| - 1];
      OccurrencesConcat(a, b[..|b| - 1], x);
    }
  }

  lemma RunningCountPrefix<T>(keys: seq<T>)
    requires |keys| > 0
    ensures RunningCount(keys)[..|keys| - 1] == RunningCount(keys[..|keys| - 1])
  {
    var init := keys[..|keys| - 1];
    forall i | 0 <= i < |init|
      ensures RunningCount(keys)[i] == RunningCount(init)[i]
    {
      assert keys[..i] == init[..i];
    }
  }

  /**
   * Within each group the counter takes exactly the values 1..n, in row order,
   * where n is the size of the group.
   */
  lemma {:induction false} RunningCountEnumeratesGroups<T>(keys: seq<T>, k: T)
    ensures GroupValues(keys, RunningCount(keys), k) == Iota(Occurrences(keys, k))
  {
    if keys != [] {
      var n := |keys|;
      var init, x := keys[..n - 1], keys[n - 1];
      RunningCountPrefix(keys);
      RunningCountEnumeratesGroups(init, k);
      assert keys[..n - 1] == init;
      if x == k {
        assert Iota(Occurrences(keys, k)) == Iota(Occurrences(init, k)) + [Occurrences(init, k) + 1];
      }
    }
  }

  /** Two different rows of one group never get the same count. */
  lemma RunningCountSeparatesGroup<T>(keys: seq<T>, i: nat, j: nat)
    requires i < j < |keys| && keys[i] == keys[j]
    ensures RunningCount(keys)[i] < RunningCount(keys)[j]
  {
    var k := keys[i];
    assert keys[..j] == keys[..i] + keys[i..j];
    OccurrencesConcat(keys[..i], keys[i..j], k);
    assert keys[i..j] == [keys[i]] + keys[i + 1..j];
    OccurrencesConcat([keys[i]], keys[i + 1..j], k);
    assert [keys[i]][..0] == [];
  }

  /**
   * Python's str() of a running number: "3" while the counter column holds
   * integers, "3.0" once it holds a NaN and so has a float type.
   */
  function CountText(k: nat, float: bool): string {
    NatToString(k) + (if float then ".0" else "")
  }

  /** The composite identifier of the km-th point of a route. */
  function RouteId(route: string, km: nat, float: bool): string {
    route + "_" + CountText(km, float)
  }

  lemma CountTextHasNoUnderscore(k: nat, float: bool)
    ensures '_' !in CountText(k, float)
  {
    PrintedHasNoUnderscore(k);
    assert CountText(k, float) == NatToString(k) + (if float then ".0" else "");
  }

  /** Distinct numbers print as distinct counter texts. */
  lemma CountTextInjective(k1: nat, k2: nat, float: bool)
    requires CountText(k1, float) == CountText(k2, float)
    ensures k1 == k2
  {
    var a, b, sfx := NatToString(k1), NatToString(k2), if float then ".0" else "";
    assert |a| == |b|;
    assert a == (a + sfx)[..|a|];
    assert b == (b + sfx)[..|b|];
    PrintInjective(k1, k2);
  }

  /** Equal identifiers name the same route and the same position on it. */
  lemma RouteIdInjective(r1: string, k1: nat, r2: string, k2: nat, float: bool)
    requires RouteId(r1, k1, float) == RouteId(r2, k2, float)
    ensures r1 == r2 && k1 == k2
  {
    CountTextHasNoUnderscore(k1, float);
    CountTextHasNoUnderscore(k2, float);
    SplitAtLastUnderscore(r1, CountText(k1, float), r2, CountText(k2, float));
    CountTextInjective(k1, k2, float);
  }

  // ---------------------------------------------------------------------------
  // Counters and identifiers over route cells that may be null
  // ---------------------------------------------------------------------------

  /** Some row has no route; groupby leaves it out, so its counter is NaN. */
  predicate HasNull(keys: seq<Value>) {
    exists i :: 0 <= i < |keys| && keys[i].Null?
  }

  /** The counter cell of a row: its running number, NaN for a row without route. */
  function KmCell(key: Value, k: nat): Value {
    if key.Null? then Null else Num(k as real)
  }

  /** route + "_" + str(counter): NaN unless the route is a text, as NaN + "_" is NaN. */
  function IdCell(key: Value, k: nat, float: bool): Value {
    if key.Text? then Text(RouteId(key.s, k, float)) else Null
  }

  /** groupby(Strecke).cumcount() + 1 as a column. */
  function Kms(keys: seq<Value>): (vs: seq<Value>)
    ensures |vs| == |keys| && forall i :: 0 <= i < |keys| ==> vs[i] == KmCell(keys[i], RunningCount(keys)[i])
  {
    var ks := RunningCount(keys);
    seq(|keys|, i requires 0 <= i < |keys| => KmCell(keys[i], ks[i]))
  }

  /** Strecke + "_" + counter.astype(str) as a column, the counter being Kms(keys). */
  function Ids(keys: seq<Value>): (vs: seq<Value>)
    ensures |vs| == |keys| && forall i :: 0 <= i < |keys| ==> vs[i] == IdCell(keys[i], RunningCount(keys)[i], HasNull(keys))
  {
    var ks := RunningCount(keys);
    seq(|keys|, i requires 0 <= i < |keys| => IdCell(keys[i], ks[i], HasNull(keys)))
  }

  /** No identifier belongs to two rows; the null cells of rows without one do not count. */
  predicate UniqueIds(vs: seq<Value>) {
    forall i, j :: 0 <= i < j < |vs| && !vs[i].Null? ==> vs[i] != vs[j]
  }

  /** Counting by route and joining route and count never gives two rows the same identifier. */
  lemma IdsUnique(keys: seq<Value>)
    ensures UniqueIds(Ids(keys))
  {
    var ids, ks, float := Ids(keys), RunningCount(keys), HasNull(keys);
    forall i, j | 0 <= i < j < |ids| && !ids[i].Null?
      ensures ids[i] != ids[j]
    {
      if ids[i] == ids[j] {
        assert keys[i].Text? && keys[j].Text?;
        RouteIdInjective(keys[i].s, ks[i], keys[j].s, ks[j], float);
        RunningCountSeparatesGroup(keys, i, j);
      }
    }
  }

  /** A row has an identifier exactly when it has a text route. */
  lemma IdsNullExactly(keys: seq<Value>, i: nat)
    requires i < |keys|
    ensures Ids(keys)[i].Null? <==> !keys[i].Text?
    ensures Kms(keys)[i].Null? <==> keys[i].Null?
  {
  }

  /** Grouping looks only at the rows of the group. */
  lemma {:induction false} GroupValuesAgree<U>(keys: seq<Value>, a: seq<U>, b: seq<U>, k: Value)
    requires |keys| == |a| == |b|
    requires forall i :: 0 <= i < |keys| && keys[i] == k ==> a[i] == b[i]
    ensures GroupValues(keys, a, k) == GroupValues(keys, b, k)
  {
    if keys != [] {
      var n := |keys|;
      GroupValuesAgree(keys[..n - 1], a[..n - 1], b[..n - 1], k);
    }
  }

  /** The rows of one group, read in a column holding a single value, give that value once per row. */
  lemma {:induction false} GroupValuesConstant<U>(keys: seq<Value>, u: U, k: Value)
    ensures GroupValues(keys, seq(|keys|, _ => u), k) == seq(Occurrences(keys, k), _ => u)
  {
    if keys != [] {
      var n := |keys|;
      assert seq(|keys|, _ => u)[..n - 1] == seq(n - 1, _ => u);
      GroupValuesConstant(keys[..n - 1], u, k);
    }
  }

  /**
   * Within each route the counter takes exactly the values 1..n in row order,
   * n being the number of rows of that route; the rows without route read NaN.
   */
  lemma KmsEnumerateGroups(keys: seq<Value>, k: Value)
    ensures GroupValues(keys, Kms(keys), k)
            == if k.Null? then seq(Occurrences(keys, k), _ => Null) else Counts(Iota(Occurrences(keys, k)))
  {
    if k.Null? {
      GroupValuesAgree(keys, Kms(keys), seq(|keys|, _ => Null), k);
      GroupValuesConstant(keys, Null, k);
    } else {
      GroupValuesAgree(keys, Kms(keys), Counts(RunningCount(keys)), k);
      GroupValuesMap(keys, RunningCount(keys), k);
      RunningCountEnumeratesGroups(keys, k);
    }
  }

  // ---------------------------------------------------------------------------
  // The weather stage of project/ETLPipeline.py
  // ---------------------------------------------------------------------------

  const RoutePrefix := "Route_"

  /** str.replace("Route_", "") on one cell: a text loses every "Route_", anything else becomes NaN. */
  function StrippedRoute(v: Value): Value {
    if v.Text? then Text(RemoveAll(v.s, RoutePrefix)) else Null
  }

  /** Column c after str.replace: one route cell per row. */
  function StrippedRoutes(t: Table, c: string): (routes: seq<Value>)
    ensures |routes| == |t.rows|
    ensures forall i :: 0 <= i < |t.rows| ==> routes[i] == StrippedRoute(Cell(t.rows[i], c))
  {
    seq(|t.rows|, i requires 0 <= i < |t.rows| => StrippedRoute(Cell(t.rows[i], c)))
  }

  /**
   * A column of numbers without a single text: pandas refuses its .str
   * accessor. A column whose cells are all null passes, as a column of None.
   */
  predicate NumericColumn(t: Table, c: string) {
    && (forall i :: 0 <= i < |t.rows| ==> !Cell(t.rows[i], c).Text?)
    && exists i :: 0 <= i < |t.rows| && Cell(t.rows[i], c).Num?
  }

  function Counts(ks: seq<nat>): (vs: seq<Value>)
    ensures |vs| == |ks| && forall i :: 0 <= i < |ks| ==> vs[i] == Num(ks[i] as real)
  {
    seq(|ks|, i requires 0 <= i < |ks| => Num(ks[i] as real))
  }

  /** The column order after the Kilometer and StreckeID columns are set and moved to positions 2 and 1. */
  function IndexedColumns(cols: seq<string>): seq<string>
    requires "Strecke" in cols
  {
    var withKm := if "Kilometer" in cols then cols else cols + ["Kilometer"];
    var withId := if "StreckeID" in withKm then withKm else withKm + ["StreckeID"];
    WithoutLength(withId, "StreckeID", "Strecke", "Kilometer");
    var rest1 := Without(withId, "StreckeID");
    var moved1 := rest1[..1] + ["StreckeID"] + rest1[1..];
    WithoutLength(moved1, "Kilometer", "Strecke", "StreckeID");
    var rest2 := Without(moved1, "Kilometer");
    rest2[..2] + ["Kilometer"] + rest2[2..]
  }

  /** A row of the weather stage: its route cell, counter cell and identifier cell. */
  function IndexedRow(r: Row, route: Value, km: Value, id: Value): Row {
    r["Strecke" := route]["Kilometer" := km]["StreckeID" := id]
  }

  lemma IndexedRowCells(r: Row, route: Value, km: Value, id: Value)
    ensures Cell(IndexedRow(r, route, km, id), "Strecke") == route
    ensures Cell(IndexedRow(r, route, km, id), "Kilometer") == km
    ensures Cell(IndexedRow(r, route, km, id), "StreckeID") == id
    ensures forall c :: c != "Strecke" && c != "Kilometer" && c != "StreckeID" ==>
              Cell(IndexedRow(r, route, km, id), c) == Cell(r, c)
  {
  }

  /** Route numbering of a table with a Strecke column. */
  function IndexRoutes(t: Table): (r: Table)
    requires "Strecke" in t.columns
    ensures |r.rows| == |t.rows|
    ensures var keys := StrippedRoutes(t, "Strecke");
            forall i :: 0 <= i < |t.rows| ==>
              r.rows[i] == IndexedRow(t.rows[i], keys[i], Kms(keys)[i], Ids(keys)[i])
  {
    var keys := StrippedRoutes(t, "Strecke");
    var kms, ids := Kms(keys), Ids(keys);
    Table(IndexedColumns(t.columns),
          seq(|t.rows|, i requires 0 <= i < |t.rows| => IndexedRow(t.rows[i], keys[i], kms[i], ids[i])))
  }

  /** The renaming of the two coordinate columns. */
  function CoordinatesRenamed(raw: Table): Result<Table> {
    var t1 :- Rename(raw, "Lon [°]", "Longitude");
    Rename(t1, "Lat [°]", "Latitude")
  }

  /**
   * preprocess_weather_data on the raw weather table: the coordinate columns are
   * renamed, "Route_" is removed from every route name, and every row gets its
   * running number within its route and the composite identifier.
   */
  function WeatherIndexed(raw: Table): Result<Table> {
    var t :- CoordinatesRenamed(raw);
    if "Strecke" !in t.columns then Err(KeyError("Strecke"))
    else if NumericColumn(t, "Strecke") then Err(AttributeError("Strecke"))
    else Ok(IndexRoutes(t))
  }

  lemma WithoutLength(cols: seq<string>, c: string, a: string, b: string)
    requires a in cols && b in cols && a != b && a != c && b != c
    ensures |Without(cols, c)| >= 2
  {
    var w := Without(cols, c);
    assert a in w && b in w;
    var i :| 0 <= i < |w| && w[i] == a;
    var j :| 0 <= j < |w| && w[j] == b;
    assert i != j;
  }

  /** The statements of preprocess_weather_data, one column assignment at a time. */
  method PreprocessWeather(raw: Table) returns (r: Result<Table>)
    ensures r == WeatherIndexed(raw)
  {
    var t1 :- Rename(raw, "Lon [°]", "Longitude");
    var t :- Rename(t1, "Lat [°]", "Latitude");
    if "Strecke" !in t.columns {
      return Err(KeyError("Strecke"));
    }
    if NumericColumn(t, "Strecke") {
      return Err(AttributeError("Strecke"));
    }
    var t0 := t;
    var routes := StrippedRoutes(t, "Strecke");
    t := SetColumn(t, "Strecke", routes);
    var keys := Column(t, "Strecke");
    assert keys == routes;
    t := SetColumn(t, "Kilometer", Kms(keys));
    t := SetColumn(t, "StreckeID", Ids(keys));
    WithoutLength(t.columns, "StreckeID", "Strecke", "Kilometer");
    t := MoveColumn(t, "StreckeID", 1);
    WithoutLength(t.columns, "Kilometer", "Strecke", "StreckeID");
    t := MoveColumn(t, "Kilometer", 2);
    assert t.columns == IndexedColumns(t0.columns);
    assert t.rows == IndexRoutes(t0).rows;
    return Ok(t);
  }

  // ---------------------------------------------------------------------------
  // Properties of the weather stage
  // ---------------------------------------------------------------------------

  /** The stage fails exactly on a failed rename, a missing Strecke column or a Strecke column of numbers only. */
  lemma WeatherIndexedFails(raw: Table)
    ensures WeatherIndexed(raw).Err? <==>
              CoordinatesRenamed(raw).Err? || "Strecke" !in raw.columns || NumericColumn(raw, "Strecke")
    ensures CoordinatesRenamed(raw).Ok? && "Strecke" !in raw.columns ==> WeatherIndexed(raw) == Err(KeyError("Strecke"))
    ensures CoordinatesRenamed(raw).Ok? && "Strecke" in raw.columns && NumericColumn(raw, "Strecke") ==>
              WeatherIndexed(raw) == Err(AttributeError("Strecke"))
  {
    if CoordinatesRenamed(raw).Ok? {
      RenamedKeepsStrecke(raw);
    }
  }

  /** Renaming the coordinates keeps the Strecke column and its cells. */
  lemma RenamedKeepsStrecke(raw: Table)
    requires CoordinatesRenamed(raw).Ok?
    ensures var t := CoordinatesRenamed(raw).value;
            && ("Strecke" in t.columns <==> "Strecke" in raw.columns)
            && Column(t, "Strecke") == Column(raw, "Strecke")
            && (NumericColumn(t, "Strecke") <==> NumericColumn(raw, "Strecke"))
  {
    var t1 := Rename(raw, "Lon [°]", "Longitude").value;
    var t := CoordinatesRenamed(raw).value;
    ReplaceMembers(raw.columns, "Lon [°]", "Longitude");
    ReplaceMembers(t1.columns, "Lat [°]", "Latitude");
    forall i | 0 <= i < |raw.rows|
      ensures Cell(t.rows[i], "Strecke") == Cell(raw.rows[i], "Strecke")
    {
      RenameKeyCell(raw.rows[i], "Lon [°]", "Longitude", "Strecke");
      RenameKeyCell(t1.rows[i], "Lat [°]", "Latitude", "Strecke");
    }
    assert Column(t, "Strecke") == Column(raw, "Strecke");
  }

  /** The raw column whose cell a row reads under to once from is renamed to it. */
  function RenameSource(raw: Table, i: nat, from: string, to: string): string
    requires i < |raw.rows|
  {
    if from in raw.columns && from in raw.rows[i] then from else to
  }

  /** What the renaming makes of one row. */
  lemma RenamedCells(raw: Table, i: nat)
    requires CoordinatesRenamed(raw).Ok? && i < |raw.rows|
    ensures var r := CoordinatesRenamed(raw).value.rows[i];
            && Cell(r, "Longitude") == Cell(raw.rows[i], RenameSource(raw, i, "Lon [°]", "Longitude"))
            && Cell(r, "Latitude") == Cell(raw.rows[i], RenameSource(raw, i, "Lat [°]", "Latitude"))
            && forall c :: c !in {"Lon [°]", "Longitude", "Lat [°]", "Latitude"} ==> Cell(r, c) == Cell(raw.rows[i], c)
  {
    var t1 := Rename(raw, "Lon [°]", "Longitude").value;
    RenameKeyCell(raw.rows[i], "Lon [°]", "Longitude", "Latitude");
    RenameKeyCell(raw.rows[i], "Lon [°]", "Longitude", "Lat [°]");
    RenameKeyCell(t1.rows[i], "Lat [°]", "Latitude", "Longitude");
    ReplaceMembers(raw.columns, "Lon [°]", "Longitude");
    assert "Lat [°]" in t1.columns <==> "Lat [°]" in raw.columns;
    forall c | c !in {"Lon [°]", "Longitude", "Lat [°]", "Latitude"}
      ensures Cell(CoordinatesRenamed(raw).value.rows[i], c) == Cell(raw.rows[i], c)
    {
      RenameKeyCell(raw.rows[i], "Lon [°]", "Longitude", c);
      RenameKeyCell(t1.rows[i], "Lat [°]", "Latitude", c);
    }
  }

  /** One row of the weather stage, the facts WeatherIndexedRows states of every row. */
  lemma WeatherIndexedRow(raw: Table, i: nat)
    requires CoordinatesRenamed(raw).Ok? && "Strecke" in raw.columns && !NumericColumn(raw, "Strecke")
    requires i < |raw.rows|
    ensures WeatherIndexed(raw).Ok? && |WeatherIndexed(raw).value.rows| == |raw.rows|
    ensures var r := WeatherIndexed(raw).value.rows[i];
            var keys := StrippedRoutes(raw, "Strecke");
            var ks := RunningCount(keys);
            && Cell(r, "Strecke") == keys[i]
            && Cell(r, "Kilometer") == KmCell(keys[i], ks[i])
            && Cell(r, "StreckeID") == IdCell(keys[i], ks[i], HasNull(keys))
            && Cell(r, "Longitude") == Cell(raw.rows[i], RenameSource(raw, i, "Lon [°]", "Longitude"))
            && Cell(r, "Latitude") == Cell(raw.rows[i], RenameSource(raw, i, "Lat [°]", "Latitude"))
            && forall c :: c !in {"Strecke", "Kilometer", "StreckeID", "Lon [°]", "Longitude", "Lat [°]", "Latitude"} ==>
                 Cell(r, c) == Cell(raw.rows[i], c)
  {
    RenamedKeepsStrecke(raw);
    var t0 := CoordinatesRenamed(raw).value;
    var keys := StrippedRoutes(raw, "Strecke");
    assert StrippedRoutes(t0, "Strecke") == keys;
    assert WeatherIndexed(raw) == Ok(IndexRoutes(t0));
    RenamedCells(raw, i);
    IndexedRowCells(t0.rows[i], keys[i], Kms(keys)[i], Ids(keys)[i]);
  }

  /**
   * Every row gets its route name without "Route_" (null for a cell that is no
   * text), its running number within that route and the identifier built from
   * both (null for a row without route), reads the raw coordinates under
   * Longitude and Latitude, and keeps every other value.
   */
  lemma WeatherIndexedRows(raw: Table)
    requires CoordinatesRenamed(raw).Ok? && "Strecke" in raw.columns && !NumericColumn(raw, "Strecke")
    ensures WeatherIndexed(raw).Ok?
    ensures var t := WeatherIndexed(raw).value;
            var keys := StrippedRoutes(raw, "Strecke");
            var ks := RunningCount(keys);
            |t.rows| == |raw.rows| &&
            forall i :: 0 <= i < |t.rows| ==>
              && Cell(t.rows[i], "Strecke") == keys[i]
              && Cell(t.rows[i], "Kilometer") == KmCell(keys[i], ks[i])
              && Cell(t.rows[i], "StreckeID") == IdCell(keys[i], ks[i], HasNull(keys))
              && Cell(t.rows[i], "Longitude") == Cell(raw.rows[i], RenameSource(raw, i, "Lon [°]", "Longitude"))
              && Cell(t.rows[i], "Latitude") == Cell(raw.rows[i], RenameSource(raw, i, "Lat [°]", "Latitude"))
              && forall c :: c !in {"Strecke", "Kilometer", "StreckeID", "Lon [°]", "Longitude", "Lat [°]", "Latitude"} ==>
                   Cell(t.rows[i], c) == Cell(raw.rows[i], c)
  {
    RenamedKeepsStrecke(raw);
    var t := WeatherIndexed(raw).value;
    forall i | 0 <= i < |t.rows| {
      WeatherIndexedRow(raw, i);
    }
  }

  /** No two rows of the weather stage share an identifier. */
  lemma WeatherIdsUnique(raw: Table)
    requires WeatherIndexed(raw).Ok?
    ensures UniqueIds(Column(WeatherIndexed(raw).value, "StreckeID"))
  {
    var t0 := CoordinatesRenamed(raw).value;
    var keys := StrippedRoutes(t0, "Strecke");
    var t := WeatherIndexed(raw).value;
    assert t == IndexRoutes(t0);
    assert Column(t, "StreckeID") == Ids(keys);
    IdsUnique(keys);
  }

  lemma {:induction false} GroupValuesMap<T>(keys: seq<T>, ks: seq<nat>, k: T)
    requires |keys| == |ks|
    ensures GroupValues(keys, Counts(ks), k) == Counts(GroupValues(keys, ks, k))
  {
    if keys != [] {
      var n := |keys|;
      assert Counts(ks)[..n - 1] == Counts(ks[..n - 1]);
      GroupValuesMap(keys[..n - 1], ks[..n - 1], k);
    }
  }

  /**
   * Within each route of the weather stage's output, Kilometer takes exactly
   * the values 1..n in row order, n being the number of points of that route;
   * the rows without route read NaN.
   */
  lemma WeatherKilometersEnumerateRoute(raw: Table, route: Value)
    requires WeatherIndexed(raw).Ok?
    ensures var t := WeatherIndexed(raw).value;
            var keys := Column(t, "Strecke");
            var g := GroupValues(keys, Column(t, "Kilometer"), route);
            g == if route.Null? then seq(Occurrences(keys, route), _ => Null) else Counts(Iota(Occurrences(keys, route)))
  {
    var t0 := CoordinatesRenamed(raw).value;
    var routes := StrippedRoutes(t0, "Strecke");
    var t := WeatherIndexed(raw).value;
    assert t == IndexRoutes(t0);
    assert Column(t, "Strecke") == routes;
    assert Column(t, "Kilometer") == Kms(routes);
    KmsEnumerateGroups(routes, route);
  }

  /**
   * The layout the weather tests expect: route first, then the identifier, then
   * the running number, then the remaining columns in their original order.
   */
  lemma IndexedColumnsLayout(cols: seq<string>)
    requires |cols| > 0 && cols[0] == "Strecke"
    requires "Kilometer" !in cols && "StreckeID" !in cols
    ensures IndexedColumns(cols) == ["Strecke", "StreckeID", "Kilometer"] + cols[1..]
  {
    var withId := cols + ["Kilometer"] + ["StreckeID"];
    WithoutLast(cols + ["Kilometer"], "StreckeID");
    var moved1 := (cols + ["Kilometer"])[..1] + ["StreckeID"] + (cols + ["Kilometer"])[1..];
    assert moved1 == ["Strecke", "StreckeID"] + cols[1..] + ["Kilometer"];
    WithoutLast(["Strecke", "StreckeID"] + cols[1..], "Kilometer");
  }

  lemma WithoutLast(cols: seq<string>, c: string)
    requires c !in cols
    ensures Without(cols + [c], c) == cols
  {
    FilterConcat(cols, [c], x => x != c);
    FilterAll(cols, c);
  }

  lemma {:induction false} FilterAll(cols: seq<string>, c: string)
    requires c !in cols
    ensures Filter(cols, x => x != c) == cols
  {
    if cols != [] {
      assert cols[0] != c;
      assert c !in cols[1..];
      FilterAll(cols[1..], c);
    }
  }
}
