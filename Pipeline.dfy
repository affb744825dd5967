/**
 * Pipeline: transform, the chain of stages that turns the raw weather table
 * and the three raw accident tables of the database into the analysis
 * tables. Every stage runs only when its output table is absent, reads its
 * inputs from the database and writes its output under its own name; a
 * stage that fails stops the chain, leaving what the earlier stages wrote.
 *
 * The distance between two points is a parameter, so everything here holds
 * for any distance function.
 */
module Pipeline {
  import opened Tables
  import opened Storage
  import RouteIndex
  import Harmonize
  import Spatial
  import Aggregate
  import Normalize

  type Dist = (Spatial.Point, Spatial.Point) -> real

  /** The distance in metres within which an accident belongs to a weather point. */
  const Threshold: real := 600.0

  const Years: seq<int> := [2017, 2018, 2019]
  const RawNames: seq<string> := ["crashData2017", "crashData2018", "crashData2019"]
  const NearbyNames: seq<string> := ["crashDataNearby2017", "crashDataNearby2018", "crashDataNearby2019"]

  /** The output tables, in the order the stages run. */
  const Stages: seq<string> := [
    "weatherDataID",
    "crashDataNearby2017", "crashDataNearby2018", "crashDataNearby2019",
    "crashData",
    "crashDataWet", "crashDataSnow", "crashDataWetSnow",
    "weatherCrashData",
    "weatherCrashDataNormalized"
  ]

  /** No two stages share an output name, and no stage overwrites a raw table. */
  lemma StagesDistinct()
    ensures Distinct(Stages)
    ensures forall k :: 0 <= k < 3 ==> Stages[1 + k] == NearbyNames[k]
    ensures forall i, k :: 0 <= i < |Stages| && 0 <= k < 3 ==> Stages[i] != RawNames[k]
    ensures forall i :: 0 <= i < |Stages| ==> Stages[i] != "weatherData"
  {
    assert Stages[0][0] == 'w' && Stages[6][0] == 'c';
    assert Stages[1][18] == '7' && Stages[2][18] == '8' && Stages[3][18] == '9';
    assert Stages[7][0] == 'c' && Stages[8][0] == 'w';
    assert forall k :: 0 <= k < 3 ==> RawNames[k][9] == '2';
    assert Stages[0][9] == 't' && Stages[6][9] == 'S';
  }

  /** preprocess_weather_data: the raw weather table, indexed. */
  function WeatherInput(t: map<string, Table>): Result<Table> {
    var raw :- Lookup(t, "weatherData");
    RouteIndex.WeatherIndexed(raw)
  }

  /** The nearby table of year Years[k]: the raw accidents harmonized, then those near a weather point. */
  function NearbyInput(k: nat, t: map<string, Table>, dist: Dist): Result<Table>
    requires k < 3
  {
    var raw :- Lookup(t, RawNames[k]);
    var p :- Harmonize.PreprocessCrash(raw, Years[k]);
    var w :- Lookup(t, "weatherDataID");
    Spatial.Nearby(p, w, dist, Threshold)
  }

  /** assign_crash_to_weather_data: the three nearby tables concatenated (or CrashYearMissing), then labelled. */
  function CrashInput(t: map<string, Table>, dist: Dist): Result<Table> {
    if !(NearbyNames[0] in t && NearbyNames[1] in t && NearbyNames[2] in t) then Err(CrashYearMissing)
    else
      var w :- Lookup(t, "weatherDataID");
      Spatial.Assign(Concat([t[NearbyNames[0]], t[NearbyNames[1]], t[NearbyNames[2]]]), w, dist, Threshold)
  }

  /** filter_wet_snow_crash_data: the view of the labelled accidents with the given code. */
  function ViewInput(code: int, t: map<string, Table>): Result<Table> {
    var c :- Lookup(t, "crashData");
    Aggregate.ConditionView(c, code)
  }

  /** combine_weather_and_crash_data: the five tables read in order, then combined. */
  function CombineInput(t: map<string, Table>): Result<Table> {
    var w :- Lookup(t, "weatherDataID");
    var c :- Lookup(t, "crashData");
    var wet :- Lookup(t, "crashDataWet");
    var snow :- Lookup(t, "crashDataSnow");
    var wetSnow :- Lookup(t, "crashDataWetSnow");
    Aggregate.Combine(w, c, wet, snow, wetSnow)
  }

  /**
   * What stage m computes from the database t before its last step: the
   * whole output for the first eight stages, the combined counts for
   * weatherCrashData (whose normalization is a method) and the stored
   * weatherCrashData for the per-route normalization.
   */
  function StageInput(m: nat, t: map<string, Table>, dist: Dist): Result<Table>
    requires m < |Stages|
  {
    if m == 0 then WeatherInput(t)
    else if m <= 3 then NearbyInput(m - 1, t, dist)
    else if m == 4 then CrashInput(t, dist)
    else if m <= 7 then ViewInput(m - 4, t)
    else if m == 8 then CombineInput(t)
    else Lookup(t, "weatherCrashData")
  }

  /** out is what add_column_with_normalized_crash_values promises for combined. */
  ghost predicate NormalizedFrom(combined: Table, out: Table) {
    && out.columns == AddNew(combined.columns, Normalize.NormalizedColumns)
    && |out.rows| == |combined.rows|
    && forall i :: 0 <= i < |combined.rows| ==> Normalize.NormalizedRow(combined, i, out.rows[i])
  }

  /** out is what normalize_per_Route promises for t. */
  ghost predicate PerRouteFrom(t: Table, out: Table) {
    && out.columns == (if |Normalize.RoutedRows(t)| == 0 then t.columns else AddNew(t.columns, Normalize.SmoothedColumns))
    && |out.rows| == |Normalize.RoutedRows(t)|
    && forall k :: 0 <= k < |out.rows| ==> Normalize.PerRouteRow(t, Normalize.RoutedRows(t)[k], out.rows[k])
  }

  /** The relation between what stage m computed and the table it stores. */
  ghost predicate Finished(m: nat, x: Table, out: Table) {
    if m <= 7 then out == x
    else if m == 8 then NormalizedFrom(x, out)
    else PerRouteFrom(x, out)
  }

  /** The database t holds the output of stage m, and it is what the stage computes from t's tables. */
  ghost predicate Content(m: nat, t: map<string, Table>, dist: Dist)
    requires m < |Stages|
  {
    Stages[m] in t && StageInput(m, t, dist).Ok? && Finished(m, StageInput(m, t, dist).value, t[Stages[m]])
  }

  /** add_column_with_normalized_crash_values fails on x with e. */
  ghost predicate NormalizeFails(x: Table, e: Error) {
    || ((exists c :: c in Normalize.CountColumns && c !in x.columns)
        && e == KeyError(FirstMissing(Normalize.CountColumns, x.columns)))
    || ((forall c :: c in Normalize.CountColumns ==> c in x.columns)
        && (exists c :: c in Normalize.CountColumns && !Normalize.Numeric(x, c))
        && e == TypeError(Normalize.FirstText(x, Normalize.CountColumns)))
  }

  /** normalize_per_Route fails on x. */
  ghost predicate PerRouteFails(x: Table) {
    || "Strecke" !in x.columns
    || (exists c :: c in Normalize.RouteColumns && c !in x.columns)
    || (|Normalize.RoutedRows(x)| > 0 && exists c :: c in Normalize.NormalizedColumns && !Normalize.RoutedNumeric(x, c))
  }

  /** Stage m fails on the database t with e: reading or computing its input fails, or its last step does. */
  ghost predicate StageFails(m: nat, t: map<string, Table>, dist: Dist, e: Error)
    requires m < |Stages|
  {
    || (StageInput(m, t, dist).Err? && e == StageInput(m, t, dist).error)
    || (m == 8 && StageInput(m, t, dist).Ok? && NormalizeFails(StageInput(m, t, dist).value, e))
    || (m == 9 && StageInput(m, t, dist).Ok? && PerRouteFails(StageInput(m, t, dist).value))
  }

  /**
   * One guarded stage from before to after: only its output may appear; an
   * output already there is kept and the stage succeeds; otherwise either the
   * output is written with its content, or the stage fails and nothing is
   * written.
   */
  ghost predicate StageDone(m: nat, before: map<string, Table>, after: map<string, Table>, dist: Dist, r: Result<()>)
    requires m < |Stages|
  {
    && Extends(before, after, [Stages[m]])
    && (Stages[m] in before ==> r.Ok? && after == before)
    && (Stages[m] !in before && r.Ok? ==> Content(m, after, dist))
    && (r.Err? ==> after == before && StageFails(m, before, dist, r.error))
  }

  /** Writing the output of stage m does not change what the stage reads. */
  lemma InputUnaffected(m: nat, t: map<string, Table>, x: Table, dist: Dist)
    requires m < |Stages|
    ensures StageInput(m, t[Stages[m] := x], dist) == StageInput(m, t, dist)
  {
    StagesDistinct();
    var u := t[Stages[m] := x];
    if m == 8 {
      assert Stages[8] != "crashDataWetSnow" by {
        assert Stages[8][0] == 'w';
      }
    }
  }

  /** What a stage computed from a database stays what it computes once other tables are added. */
  lemma InputPersists(m: nat, a: map<string, Table>, b: map<string, Table>, names: seq<string>, dist: Dist)
    requires m < |Stages|
    requires Extends(a, b, names) && StageInput(m, a, dist).Ok?
    ensures StageInput(m, b, dist) == StageInput(m, a, dist)
  {
  }

  /** The output of stage m keeps its content when the database grows. */
  lemma ContentPersists(m: nat, a: map<string, Table>, b: map<string, Table>, names: seq<string>, dist: Dist)
    requires m < |Stages|
    requires Extends(a, b, names) && Content(m, a, dist)
    ensures Content(m, b, dist)
  {
    InputPersists(m, a, b, names, dist);
  }

  // ---------------------------------------------------------------------------
  // The stages
  // ---------------------------------------------------------------------------

  /** Stage 0: preprocess_weather_data into weatherDataID. */
  method WeatherStage(store: Store, dist: Dist) returns (r: Result<()>)
    modifies store
    ensures StageDone(0, old(store.tables), store.tables, dist, r)
  {
    var present := store.Exists("weatherDataID");
    if present {
      return Ok(());
    }
    var raw :- store.Read("weatherData");
    var w :- RouteIndex.PreprocessWeather(raw);
    ghost var before := store.tables;
    store.Write("weatherDataID", w);
    InputUnaffected(0, before, w, dist);
    r := Ok(());
  }

  /** Stages 1 to 3: preprocess_crash_data and connect_crash_data_with_weather_data for one year. */
  method NearbyStage(store: Store, k: nat, dist: Dist) returns (r: Result<()>)
    requires k < 3
    modifies store
    ensures StageDone(1 + k, old(store.tables), store.tables, dist, r)
  {
    StagesDistinct();
    var present := store.Exists(NearbyNames[k]);
    if present {
      return Ok(());
    }
    var raw :- store.Read(RawNames[k]);
    var p :- Harmonize.PreprocessCrash(raw, Years[k]);
    var w :- store.Read("weatherDataID");
    var n :- Spatial.ConnectNearby(p, w, dist, Threshold);
    ghost var before := store.tables;
    store.Write(NearbyNames[k], n);
    InputUnaffected(1 + k, before, n, dist);
    r := Ok(());
  }

  /** The three per-year nearby tables, or the failure concat_crash_data raises when one is missing. */
  method ReadNearby(store: Store) returns (r: Result<Table>)
    ensures r.Ok? <==> NearbyNames[0] in store.tables && NearbyNames[1] in store.tables && NearbyNames[2] in store.tables
    ensures r.Ok? ==> r.value == Concat([store.tables[NearbyNames[0]], store.tables[NearbyNames[1]], store.tables[NearbyNames[2]]])
    ensures r.Err? ==> r.error == CrashYearMissing
  {
    var a := store.Read(NearbyNames[0]);
    var b := store.Read(NearbyNames[1]);
    var c := store.Read(NearbyNames[2]);
    if a.Err? || b.Err? || c.Err? {
      return Err(CrashYearMissing);
    }
    r := Ok(Concat([a.value, b.value, c.value]));
  }

  /** Stage 4: assign_crash_to_weather_data into crashData. */
  method CrashStage(store: Store, dist: Dist) returns (r: Result<()>)
    modifies store
    ensures StageDone(4, old(store.tables), store.tables, dist, r)
  {
    var present := store.Exists("crashData");
    if present {
      return Ok(());
    }
    var crash :- ReadNearby(store);
    var w :- store.Read("weatherDataID");
    var a :- Spatial.AssignRoutes(crash, w, dist, Threshold);
    ghost var before := store.tables;
    store.Write("crashData", a);
    InputUnaffected(4, before, a, dist);
    r := Ok(());
  }

  /** Stages 5 to 7: filter_wet_snow_crash_data with the codes 1, 2 and 3. */
  method ViewStage(store: Store, code: nat, dist: Dist) returns (r: Result<()>)
    requires 1 <= code <= 3
    modifies store
    ensures StageDone(4 + code, old(store.tables), store.tables, dist, r)
  {
    var name := Stages[4 + code];
    var present := store.Exists(name);
    if present {
      return Ok(());
    }
    var crash :- store.Read("crashData");
    var v :- Aggregate.ConditionView(crash, code);
    ghost var before := store.tables;
    store.Write(name, v);
    InputUnaffected(4 + code, before, v, dist);
    r := Ok(());
  }

  /** The reads and the joins of combine_weather_and_crash_data. */
  method ReadCombined(store: Store) returns (r: Result<Table>)
    ensures r == CombineInput(store.tables)
  {
    var w :- store.Read("weatherDataID");
    var c :- store.Read("crashData");
    var wet :- store.Read("crashDataWet");
    var snow :- store.Read("crashDataSnow");
    var wetSnow :- store.Read("crashDataWetSnow");
    r := Aggregate.Combine(w, c, wet, snow, wetSnow);
  }

  /** A stage whose output is already stored succeeds and changes nothing. */
  lemma Kept(m: nat, t: map<string, Table>, dist: Dist)
    requires m < |Stages| && Stages[m] in t
    ensures StageDone(m, t, t, dist, Ok(()))
  {
  }

  /** Stage 8 fails when reading or joining its tables fails, or the normalization fails on the joined table. */
  lemma CombineFailed(t: map<string, Table>, dist: Dist, e: Error)
    requires Stages[8] !in t
    requires || (CombineInput(t).Err? && e == CombineInput(t).error)
             || (CombineInput(t).Ok? && NormalizeFails(CombineInput(t).value, e))
    ensures StageDone(8, t, t, dist, Err(e))
  {
  }

  /** Storing what add_column_with_normalized_crash_values promises for the joined table gives stage 8 its content. */
  lemma CombineContent(t: map<string, Table>, n: Table, dist: Dist)
    requires CombineInput(t).Ok? && NormalizedFrom(CombineInput(t).value, n)
    ensures Content(8, t[Stages[8] := n], dist)
  {
    InputUnaffected(8, t, n, dist);
  }

  /** Stage 8 succeeds by storing a table with its content. */
  lemma CombineWritten(t: map<string, Table>, n: Table, dist: Dist)
    requires Stages[8] !in t && Content(8, t[Stages[8] := n], dist)
    ensures StageDone(8, t, t[Stages[8] := n], dist, Ok(()))
  {
    ExtendsByWrite(t, Stages[8], n);
  }

  /** Stage 8: combine_weather_and_crash_data, then add_column_with_normalized_crash_values, into weatherCrashData. */
  method CombineStage(store: Store, dist: Dist) returns (r: Result<()>)
    modifies store
    ensures StageDone(8, old(store.tables), store.tables, dist, r)
  {
    var present := store.Exists("weatherCrashData");
    if present {
      Kept(8, store.tables, dist);
      return Ok(());
    }
    var combined := ReadCombined(store);
    if combined.Err? {
      CombineFailed(store.tables, dist, combined.error);
      return Err(combined.error);
    }
    var n := Normalize.AddNormalizedCrashValues(combined.value);
    if n.Err? {
      CombineFailed(store.tables, dist, n.error);
      return Err(n.error);
    }
    CombineContent(store.tables, n.value, dist);
    CombineWritten(store.tables, n.value, dist);
    store.Write("weatherCrashData", n.value);
    r := Ok(());
  }

  /** Stage 9 fails when weatherCrashData is missing or normalize_per_Route fails on it. */
  lemma PerRouteFailed(t: map<string, Table>, dist: Dist, e: Error)
    requires Stages[9] !in t
    requires || ("weatherCrashData" !in t && e == TableNotFound("weatherCrashData"))
             || ("weatherCrashData" in t && PerRouteFails(t["weatherCrashData"]))
    ensures StageDone(9, t, t, dist, Err(e))
  {
  }

  /** Storing what normalize_per_Route promises for weatherCrashData gives stage 9 its content. */
  lemma PerRouteContent(t: map<string, Table>, n: Table, dist: Dist)
    requires "weatherCrashData" in t && PerRouteFrom(t["weatherCrashData"], n)
    ensures Content(9, t[Stages[9] := n], dist)
  {
    InputUnaffected(9, t, n, dist);
  }

  /** Stage 9 succeeds by storing a table with its content. */
  lemma PerRouteWritten(t: map<string, Table>, n: Table, dist: Dist)
    requires Stages[9] !in t && Content(9, t[Stages[9] := n], dist)
    ensures StageDone(9, t, t[Stages[9] := n], dist, Ok(()))
  {
    ExtendsByWrite(t, Stages[9], n);
  }

  /** Stage 9: normalize_per_Route into weatherCrashDataNormalized. */
  method PerRouteStage(store: Store, dist: Dist) returns (r: Result<()>)
    modifies store
    ensures StageDone(9, old(store.tables), store.tables, dist, r)
  {
    var present := store.Exists("weatherCrashDataNormalized");
    if present {
      Kept(9, store.tables, dist);
      return Ok(());
    }
    var t := store.Read("weatherCrashData");
    if t.Err? {
      PerRouteFailed(store.tables, dist, t.error);
      return Err(t.error);
    }
    var n := Normalize.NormalizePerRoute(t.value);
    if n.Err? {
      PerRouteFailed(store.tables, dist, n.error);
      return Err(n.error);
    }
    PerRouteContent(store.tables, n.value, dist);
    PerRouteWritten(store.tables, n.value, dist);
    store.Write("weatherCrashDataNormalized", n.value);
    r := Ok(());
  }

  // ---------------------------------------------------------------------------
  // transform
  // ---------------------------------------------------------------------------

  /** Every stage output that t holds and t0 did not is the content its stage computes from t. */
  ghost predicate Produced(t0: map<string, Table>, t: map<string, Table>, dist: Dist) {
    forall i :: 0 <= i < |Stages| && Stages[i] in t && Stages[i] !in t0 ==> Content(i, t, dist)
  }

  /** Stage m failed with e on t after every earlier stage had its output. */
  ghost predicate FailedAt(m: nat, t: map<string, Table>, dist: Dist, e: Error) {
    && m < |Stages|
    && Stages[m] !in t
    && (forall j :: 0 <= j < m ==> Stages[j] in t)
    && StageFails(m, t, dist, e)
  }

  /** The tables after stage m extend those before the stages by the first m + 1 outputs. */
  lemma StepExtends(t0: map<string, Table>, mid: map<string, Table>, t1: map<string, Table>, m: nat)
    requires m < |Stages|
    requires Extends(t0, mid, Stages[..m]) && Extends(mid, t1, [Stages[m]])
    ensures Extends(t0, t1, Stages[..m + 1])
  {
    ExtendsTrans(t0, mid, t1, Stages[..m], [Stages[m]]);
    assert Stages[..m] + [Stages[m]] == Stages[..m + 1];
  }

  /** Every output written so far still holds its content after stage m. */
  lemma StepProduced(t0: map<string, Table>, mid: map<string, Table>, t1: map<string, Table>, m: nat, dist: Dist, r: Result<()>)
    requires m < |Stages|
    requires Extends(t0, mid, Stages[..m]) && Produced(t0, mid, dist)
    requires StageDone(m, mid, t1, dist, r)
    ensures Produced(t0, t1, dist)
  {
    StagesDistinct();
    forall i | 0 <= i < |Stages| && Stages[i] in t1 && Stages[i] !in t0
      ensures Content(i, t1, dist)
    {
      if Stages[i] in mid {
        ContentPersists(i, mid, t1, [Stages[m]], dist);
      } else {
        assert i == m;
      }
    }
  }

  /** The outputs before m are still there; stage m's is there if it succeeded, and otherwise it failed first. */
  lemma StepOutcome(mid: map<string, Table>, t1: map<string, Table>, m: nat, dist: Dist, r: Result<()>)
    requires m < |Stages|
    requires forall j :: 0 <= j < m ==> Stages[j] in mid
    requires StageDone(m, mid, t1, dist, r)
    ensures forall j :: 0 <= j < m ==> Stages[j] in t1
    ensures r.Ok? ==> Stages[m] in t1
    ensures r.Err? ==> FailedAt(m, t1, dist, r.error)
  {
  }

  /** The database holds every stage output. */
  ghost predicate AllIn(t: map<string, Table>) {
    forall i :: 0 <= i < |Stages| ==> Stages[i] in t
  }

  /**
   * The first m stages have succeeded: the database extends t0 by their
   * outputs only, each output written holds its content, every one of them is
   * there, and nothing has changed if t0 held every output already.
   */
  ghost predicate Progress(t0: map<string, Table>, t: map<string, Table>, m: nat, dist: Dist) {
    && m <= |Stages|
    && Extends(t0, t, Stages[..m])
    && Produced(t0, t, dist)
    && (forall j :: 0 <= j < m ==> Stages[j] in t)
    && (AllIn(t0) ==> t == t0)
  }

  /**
   * What transform leaves behind, starting from t0: the database keeps every
   * table of t0 and has at most the stage outputs besides; every output
   * written holds what its stage computes from the final tables; on success
   * every output is there; a failure is the failure of the first stage whose
   * output is missing; and a database that held every output already is left
   * as it was, with success.
   */
  ghost predicate Outcome(t0: map<string, Table>, t: map<string, Table>, dist: Dist, r: Result<()>) {
    && Extends(t0, t, Stages)
    && Produced(t0, t, dist)
    && (r.Ok? ==> AllIn(t))
    && (r.Err? ==> exists m :: FailedAt(m, t, dist, r.error))
    && (AllIn(t0) ==> r.Ok? && t == t0)
  }

  /** The outputs named in a prefix of the stages are stage outputs. */
  lemma ExtendsPrefix(t0: map<string, Table>, t: map<string, Table>, m: nat)
    requires m <= |Stages| && Extends(t0, t, Stages[..m])
    ensures Extends(t0, t, Stages)
  {
    assert forall n :: n in Stages[..m] ==> n in Stages;
  }

  /** Stage m after the first m: on success the first m + 1 have succeeded, on failure the run ends with it. */
  lemma Step(t0: map<string, Table>, mid: map<string, Table>, t1: map<string, Table>, m: nat, dist: Dist, r: Result<()>)
    requires m < |Stages|
    requires Progress(t0, mid, m, dist)
    requires StageDone(m, mid, t1, dist, r)
    ensures r.Ok? ==> Progress(t0, t1, m + 1, dist)
    ensures r.Err? ==> Outcome(t0, t1, dist, r)
  {
    if r.Ok? {
      StepOk(t0, mid, t1, m, dist, r);
    } else {
      StepErr(t0, mid, t1, m, dist, r);
    }
  }

  /** Stage m succeeded: the first m + 1 stages have. */
  lemma StepOk(t0: map<string, Table>, mid: map<string, Table>, t1: map<string, Table>, m: nat, dist: Dist, r: Result<()>)
    requires m < |Stages| && r.Ok?
    requires Progress(t0, mid, m, dist)
    requires StageDone(m, mid, t1, dist, r)
    ensures Progress(t0, t1, m + 1, dist)
  {
    StepExtends(t0, mid, t1, m);
    StepProduced(t0, mid, t1, m, dist, r);
    StepOutcome(mid, t1, m, dist, r);
  }

  /** Stage m failed: the run ends with its failure. */
  lemma StepErr(t0: map<string, Table>, mid: map<string, Table>, t1: map<string, Table>, m: nat, dist: Dist, r: Result<()>)
    requires m < |Stages| && r.Err?
    requires Progress(t0, mid, m, dist)
    requires StageDone(m, mid, t1, dist, r)
    ensures Outcome(t0, t1, dist, r)
  {
    StepExtends(t0, mid, t1, m);
    StepProduced(t0, mid, t1, m, dist, r);
    StepOutcome(mid, t1, m, dist, r);
    ExtendsPrefix(t0, t1, m + 1);
  }

  /** Stage m of the fixed order, whatever ran before it. */
  method RunOne(store: Store, m: nat, dist: Dist) returns (r: Result<()>)
    requires m < |Stages|
    modifies store
    ensures StageDone(m, old(store.tables), store.tables, dist, r)
  {
    if m == 0 {
      r := WeatherStage(store, dist);
    } else if m <= 3 {
      r := NearbyStage(store, m - 1, dist);
    } else if m == 4 {
      r := CrashStage(store, dist);
    } else if m <= 7 {
      r := ViewStage(store, m - 4, dist);
    } else if m == 8 {
      r := CombineStage(store, dist);
    } else {
      r := PerRouteStage(store, dist);
    }
  }

  /** Stage m, run after the first m succeeded: it extends the progress or ends the run. */
  method RunStage(store: Store, m: nat, ghost t0: map<string, Table>, dist: Dist) returns (r: Result<()>)
    requires m < |Stages| && Progress(t0, store.tables, m, dist)
    modifies store
    ensures r.Ok? ==> Progress(t0, store.tables, m + 1, dist)
    ensures r.Err? ==> Outcome(t0, store.tables, dist, r)
  {
    ghost var mid := store.tables;
    r := RunOne(store, m, dist);
    Step(t0, mid, store.tables, m, dist, r);
  }

  /**
   * transform: the stages in their fixed order, each guarded by the absence
   * of its output; a failing stage ends the run.
   */
  method Transform(store: Store, dist: Dist) returns (r: Result<()>)
    modifies store
    ensures Outcome(old(store.tables), store.tables, dist, r)
  {
    ghost var t0 := store.tables;
    assert Stages[..0] == [];
    r := RunStage(store, 0, t0, dist);
    if r.Err? {
      return;
    }
    for k := 0 to 3
      invariant r.Ok? && Progress(t0, store.tables, k + 1, dist)
    {
      r := RunStage(store, k + 1, t0, dist);
      if r.Err? {
        return;
      }
    }
    r := RunStage(store, 4, t0, dist);
    if r.Err? {
      return;
    }
    for code := 1 to 4
      invariant r.Ok? && Progress(t0, store.tables, code + 4, dist)
    {
      r := RunStage(store, code + 4, t0, dist);
      if r.Err? {
        return;
      }
    }
    r := RunStage(store, 8, t0, dist);
    if r.Err? {
      return;
    }
    r := RunStage(store, 9, t0, dist);
    if r.Err? {
      return;
    }
    Completed(t0, store.tables, dist);
  }

  /** All ten stages have succeeded: the run ends with success. */
  lemma Completed(t0: map<string, Table>, t: map<string, Table>, dist: Dist)
    requires Progress(t0, t, |Stages|, dist)
    ensures Outcome(t0, t, dist, Ok(()))
  {
    assert Stages[..|Stages|] == Stages;
  }
}
