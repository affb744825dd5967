/**
 * Spatial: matching accidents with weather points. The distance between two
 * coordinate pairs is a parameter of every operation (the haversine formula
 * of the pipeline is not part of this model), so every fact below holds for
 * any distance function.
 *
 * Two modes exist. The filter mode keeps the accidents whose nearest weather
 * point is within the threshold. The assign mode labels every accident with
 * the route and route point of the first nearest weather point, or with null
 * when even that one is beyond the threshold.
 */
module Spatial {
  import opened Tables

  /** A coordinate pair as a row holds it: the cells of Latitude and Longitude. */
  datatype Point = Point(lat: Value, lon: Value)

  function PointOf(r: Row): Point {
    Point(Cell(r, "Latitude"), Cell(r, "Longitude"))
  }

  /** df[['Latitude', 'Longitude']].values: the coordinates of every row, in order. */
  function Points(t: Table): (ps: seq<Point>)
    ensures |ps| == |t.rows|
    ensures forall j :: 0 <= j < |ps| ==> ps[j] == PointOf(t.rows[j])
  {
    seq(|t.rows|, j requires 0 <= j < |t.rows| => PointOf(t.rows[j]))
  }

  /** calculate_distance of one point against many: the distance to each of them, in order. */
  function Distances(p: Point, ws: seq<Point>, dist: (Point, Point) -> real): (ds: seq<real>)
    ensures |ds| == |ws|
    ensures forall j :: 0 <= j < |ws| ==> ds[j] == dist(p, ws[j])
  {
    seq(|ws|, j requires 0 <= j < |ws| => dist(p, ws[j]))
  }

  // ---------------------------------------------------------------------------
  // np.min and np.argmin
  // ---------------------------------------------------------------------------

  /** np.argmin: the first index at which the minimum is attained. */
  function ArgMin(s: seq<real>): (k: nat)
    requires |s| > 0
    ensures k < |s| && s[k] == MinOf(s)
    ensures forall j :: 0 <= j < k ==> s[j] > s[k]
  {
    if |s| == 1 then 0
    else
      var k0 := ArgMin(s[..|s| - 1]);
      if s[|s| - 1] < s[k0] then |s| - 1 else k0
  }

  /** The minimum is within a bound exactly when some element is. */
  lemma MinAtMost(s: seq<real>, bound: real)
    requires |s| > 0
    ensures MinOf(s) <= bound <==> exists j :: 0 <= j < |s| && s[j] <= bound
  {
  }

  // ---------------------------------------------------------------------------
  // Filter mode: connect_crash_data_with_weather_data
  // ---------------------------------------------------------------------------

  /** The nearest of the points ws is at most threshold away from the row's coordinates. */
  predicate Near(r: Row, ws: seq<Point>, dist: (Point, Point) -> real, threshold: real) {
    |ws| > 0 && MinOf(Distances(PointOf(r), ws, dist)) <= threshold
  }

  function NearBy(ws: seq<Point>, dist: (Point, Point) -> real, threshold: real): Row -> bool {
    r => Near(r, ws, dist, threshold)
  }

  /**
   * What the filter mode returns: an empty accident batch makes the
   * concatenation of no distance rows fail; a missing coordinate column is a
   * KeyError (the accident's first, then the weather table's); no weather
   * points leave nothing to take the minimum over; otherwise the accidents
   * near some weather point, in order.
   */
  function Nearby(crash: Table, weather: Table, dist: (Point, Point) -> real, threshold: real): Result<Table> {
    if |crash.rows| == 0 then Err(EmptyConcat)
    else
      var c :- NeedColumns(crash, ["Latitude", "Longitude"]);
      var w :- NeedColumns(weather, ["Latitude", "Longitude"]);
      if |weather.rows| == 0 then Err(EmptyReduction)
      else Ok(Where(crash, NearBy(Points(weather), dist, threshold)))
  }

  /** The loop of the filter mode: one row of distances per accident, then the mask np.min(...) <= threshold. */
  method ConnectNearby(crash: Table, weather: Table, dist: (Point, Point) -> real, threshold: real)
    returns (r: Result<Table>)
    ensures r == Nearby(crash, weather, dist, threshold)
  {
    var ws := Points(weather);
    var distances: seq<seq<real>> := [];
    for i := 0 to |crash.rows|
      invariant |distances| == i
      invariant i > 0 ==> "Latitude" in crash.columns && "Longitude" in crash.columns
      invariant i > 0 ==> NeedColumns(weather, ["Latitude", "Longitude"]).Ok?
      invariant forall k :: 0 <= k < i ==> distances[k] == Distances(PointOf(crash.rows[k]), ws, dist)
    {
      if "Latitude" !in crash.columns {
        return Err(KeyError("Latitude"));
      }
      if "Longitude" !in crash.columns {
        return Err(KeyError("Longitude"));
      }
      var w :- NeedColumns(weather, ["Latitude", "Longitude"]);
      distances := distances + [Distances(PointOf(crash.rows[i]), ws, dist)];
    }
    if |distances| == 0 {
      return Err(EmptyConcat);
    }
    if |ws| == 0 {
      return Err(EmptyReduction);
    }
    var mask := seq(|distances|, k requires 0 <= k < |distances| && |distances[k]| > 0 => MinOf(distances[k]) <= threshold);
    SelectIsFilter(crash.rows, mask, NearBy(ws, dist, threshold));
    r := Ok(Table(crash.columns, Select(crash.rows, mask)));
  }

  /**
   * The filter mode keeps the columns and exactly the accidents that have a
   * weather point within the threshold, in their original order.
   */
  lemma NearbyKeeps(crash: Table, weather: Table, dist: (Point, Point) -> real, threshold: real)
    requires Nearby(crash, weather, dist, threshold).Ok?
    ensures Nearby(crash, weather, dist, threshold).value.columns == crash.columns
    ensures Nearby(crash, weather, dist, threshold).value.rows == Filter(crash.rows, NearBy(Points(weather), dist, threshold))
    ensures forall x :: x in Nearby(crash, weather, dist, threshold).value.rows <==>
              x in crash.rows && exists j :: 0 <= j < |weather.rows| && dist(PointOf(x), PointOf(weather.rows[j])) <= threshold
  {
    var ws := Points(weather);
    var p := NearBy(ws, dist, threshold);
    FilterMembers(crash.rows, p);
    forall x ensures p(x) <==> exists j :: 0 <= j < |weather.rows| && dist(PointOf(x), PointOf(weather.rows[j])) <= threshold {
      var ds := Distances(PointOf(x), ws, dist);
      MinAtMost(ds, threshold);
      if p(x) {
        var j :| 0 <= j < |ds| && ds[j] <= threshold;
        assert dist(PointOf(x), PointOf(weather.rows[j])) <= threshold;
      }
      if exists j :: 0 <= j < |weather.rows| && dist(PointOf(x), PointOf(weather.rows[j])) <= threshold {
        var j :| 0 <= j < |weather.rows| && dist(PointOf(x), PointOf(weather.rows[j])) <= threshold;
        assert ds[j] <= threshold;
      }
    }
  }

  /** The filter mode fails exactly in the cases the code cannot handle. */
  lemma NearbyFails(crash: Table, weather: Table, dist: (Point, Point) -> real, threshold: real)
    ensures |crash.rows| == 0 ==> Nearby(crash, weather, dist, threshold) == Err(EmptyConcat)
    ensures |crash.rows| > 0 && "Latitude" !in crash.columns ==> Nearby(crash, weather, dist, threshold) == Err(KeyError("Latitude"))
    ensures Nearby(crash, weather, dist, threshold).Err? <==>
              || |crash.rows| == 0 || |weather.rows| == 0
              || (exists c :: c in ["Latitude", "Longitude"] && (c !in crash.columns || c !in weather.columns))
  {
  }

  // ---------------------------------------------------------------------------
  // Assign mode: assign_crash_to_weather_data
  // ---------------------------------------------------------------------------

  /** The nearest weather point is within the threshold. */
  predicate Within(p: Point, weather: Table, dist: (Point, Point) -> real, threshold: real) {
    |weather.rows| > 0 && MinOf(Distances(p, Points(weather), dist)) <= threshold
  }

  /**
   * The value of column c of the first nearest weather point when that point
   * is within the threshold, and null (None) otherwise.
   */
  function Label(p: Point, weather: Table, dist: (Point, Point) -> real, threshold: real, c: string): Value {
    if |weather.rows| == 0 then Null
    else
      var ds := Distances(p, Points(weather), dist);
      var k := ArgMin(ds);
      if ds[k] <= threshold then Cell(weather.rows[k], c) else Null
  }

  function Labels(crash: Table, weather: Table, dist: (Point, Point) -> real, threshold: real, c: string): (vs: seq<Value>)
    ensures |vs| == |crash.rows|
    ensures forall i :: 0 <= i < |vs| ==> vs[i] == Label(PointOf(crash.rows[i]), weather, dist, threshold, c)
  {
    seq(|crash.rows|, i requires 0 <= i < |crash.rows| => Label(PointOf(crash.rows[i]), weather, dist, threshold, c))
  }

  /** Some accident lies within the threshold of its nearest weather point. */
  predicate AnyWithin(crash: Table, weather: Table, dist: (Point, Point) -> real, threshold: real) {
    exists i :: 0 <= i < |crash.rows| && Within(PointOf(crash.rows[i]), weather, dist, threshold)
  }

  /**
   * What the assign mode returns: a missing coordinate column is a KeyError
   * (the accidents' first); an accident but no weather point leaves argmin
   * nothing to choose from; the first accident within the threshold reads
   * Strecke and then StreckeID of the weather table; otherwise the accidents
   * with the two label columns set.
   */
  function Assign(crash: Table, weather: Table, dist: (Point, Point) -> real, threshold: real): Result<Table> {
    var c :- NeedColumns(crash, ["Latitude", "Longitude"]);
    var w :- NeedColumns(weather, ["Latitude", "Longitude"]);
    if |crash.rows| > 0 && |weather.rows| == 0 then Err(EmptyArgmin)
    else if AnyWithin(crash, weather, dist, threshold) && "Strecke" !in weather.columns then Err(KeyError("Strecke"))
    else if AnyWithin(crash, weather, dist, threshold) && "StreckeID" !in weather.columns then Err(KeyError("StreckeID"))
    else
      Ok(SetColumn(SetColumn(crash, "Strecke", Labels(crash, weather, dist, threshold, "Strecke")),
                   "StreckeID", Labels(crash, weather, dist, threshold, "StreckeID")))
  }

  /**
   * One turn of the assign loop: the distances from p to every weather point,
   * the first nearest one, and its Strecke and StreckeID when it is within the
   * threshold (looking up a column the weather table lacks is a KeyError).
   */
  method LabelCrash(p: Point, ws: seq<Point>, weather: Table, dist: (Point, Point) -> real, threshold: real)
    returns (r: Result<(Value, Value)>)
    requires |ws| > 0 && ws == Points(weather)
    ensures r.Ok? <==> Found(p, weather, dist, threshold)
    ensures r.Err? ==> r.error == if "Strecke" !in weather.columns then KeyError("Strecke") else KeyError("StreckeID")
    ensures r.Ok? ==> r.value.0 == Label(p, weather, dist, threshold, "Strecke")
    ensures r.Ok? ==> r.value.1 == Label(p, weather, dist, threshold, "StreckeID")
  {
    var ds := Distances(p, ws, dist);
    var k := ArgMin(ds);
    var closest := ds[k];
    if closest <= threshold {
      if "Strecke" !in weather.columns {
        return Err(KeyError("Strecke"));
      }
      var s := Cell(weather.rows[k], "Strecke");
      if "StreckeID" !in weather.columns {
        return Err(KeyError("StreckeID"));
      }
      var d := Cell(weather.rows[k], "StreckeID");
      return Ok((s, d));
    }
    return Ok((Null, Null));
  }

  /** An accident at p finds its labels: it is beyond the threshold, or the weather table has both label columns. */
  predicate Found(p: Point, weather: Table, dist: (Point, Point) -> real, threshold: real) {
    !Within(p, weather, dist, threshold) || ("Strecke" in weather.columns && "StreckeID" in weather.columns)
  }

  /** The first n accidents find their labels. */
  predicate FoundUpTo(crash: Table, weather: Table, dist: (Point, Point) -> real, threshold: real, n: nat)
    requires n <= |crash.rows|
  {
    forall k :: 0 <= k < n ==> Found(PointOf(crash.rows[k]), weather, dist, threshold)
  }

  /** Every accident finds its labels. */
  predicate LabelsFound(crash: Table, weather: Table, dist: (Point, Point) -> real, threshold: real) {
    FoundUpTo(crash, weather, dist, threshold, |crash.rows|)
  }

  /** A prefix one longer is the shorter prefix and the next element. */
  lemma PrefixStep<T>(s: seq<T>, i: nat)
    requires i < |s|
    ensures s[..i + 1] == s[..i] + [s[i]]
  {
  }

  /**
   * One turn of the assign loop: the labels of accident i appended to the
   * label columns collected so far, or the KeyError its lookup raises.
   */
  method LabelNext(crash: Table, weather: Table, ws: seq<Point>, dist: (Point, Point) -> real, threshold: real,
                   i: nat, strecke: seq<Value>, ids: seq<Value>)
    returns (r: Result<(seq<Value>, seq<Value>)>)
    requires |ws| > 0 && ws == Points(weather)
    requires i < |crash.rows|
    requires strecke == Labels(crash, weather, dist, threshold, "Strecke")[..i]
    requires ids == Labels(crash, weather, dist, threshold, "StreckeID")[..i]
    ensures r.Ok? <==> Found(PointOf(crash.rows[i]), weather, dist, threshold)
    ensures r.Err? ==> r.error == if "Strecke" !in weather.columns then KeyError("Strecke") else KeyError("StreckeID")
    ensures r.Ok? ==> r.value.0 == Labels(crash, weather, dist, threshold, "Strecke")[..i + 1]
    ensures r.Ok? ==> r.value.1 == Labels(crash, weather, dist, threshold, "StreckeID")[..i + 1]
  {
    var l := LabelCrash(PointOf(crash.rows[i]), ws, weather, dist, threshold);
    if l.Err? {
      return Err(l.error);
    }
    PrefixStep(Labels(crash, weather, dist, threshold, "Strecke"), i);
    PrefixStep(Labels(crash, weather, dist, threshold, "StreckeID"), i);
    return Ok((strecke + [l.value.0], ids + [l.value.1]));
  }

  /** The loop of the assign mode: one turn per accident, collecting the two label columns. */
  method LabelAll(crash: Table, weather: Table, ws: seq<Point>, dist: (Point, Point) -> real, threshold: real)
    returns (r: Result<(seq<Value>, seq<Value>)>)
    requires |ws| > 0 && ws == Points(weather)
    ensures r.Ok? <==> LabelsFound(crash, weather, dist, threshold)
    ensures r.Err? ==> r.error == if "Strecke" !in weather.columns then KeyError("Strecke") else KeyError("StreckeID")
    ensures r.Ok? ==> r.value.0 == Labels(crash, weather, dist, threshold, "Strecke")
    ensures r.Ok? ==> r.value.1 == Labels(crash, weather, dist, threshold, "StreckeID")
  {
    ghost var names := Labels(crash, weather, dist, threshold, "Strecke");
    ghost var keys := Labels(crash, weather, dist, threshold, "StreckeID");
    var strecke: seq<Value> := [];
    var ids: seq<Value> := [];
    for i := 0 to |crash.rows|
      invariant strecke == names[..i] && ids == keys[..i]
      invariant FoundUpTo(crash, weather, dist, threshold, i)
    {
      var next := LabelNext(crash, weather, ws, dist, threshold, i, strecke, ids);
      if next.Err? {
        return Err(next.error);
      }
      strecke, ids := next.value.0, next.value.1;
    }
    assert names[..|crash.rows|] == names && keys[..|crash.rows|] == keys;
    return Ok((strecke, ids));
  }

  /** assign_crash_to_weather_data after the crash table is assembled. */
  method AssignRoutes(crash: Table, weather: Table, dist: (Point, Point) -> real, threshold: real)
    returns (r: Result<Table>)
    ensures r == Assign(crash, weather, dist, threshold)
  {
    var c := NeedColumns(crash, ["Latitude", "Longitude"]);
    var w := NeedColumns(weather, ["Latitude", "Longitude"]);
    if c.Err? || w.Err? {
      AssignCoordinates(crash, weather, dist, threshold);
      return Err(if c.Err? then c.error else w.error);
    }
    var ws := Points(weather);
    if |ws| == 0 {
      // with an accident, the first turn of the loop finds no weather point to take the argmin over
      if |crash.rows| > 0 {
        AssignNoWeather(crash, weather, dist, threshold);
        return Err(EmptyArgmin);
      }
      AssignDone(crash, weather, dist, threshold);
      return Ok(SetColumn(SetColumn(crash, "Strecke", []), "StreckeID", []));
    }
    var labels := LabelAll(crash, weather, ws, dist, threshold);
    if labels.Err? {
      var i :| 0 <= i < |crash.rows| && Within(PointOf(crash.rows[i]), weather, dist, threshold);
      AssignMissingLabel(crash, weather, dist, threshold, i);
      return Err(labels.error);
    }
    AssignDone(crash, weather, dist, threshold);
    r := Ok(SetColumn(SetColumn(crash, "Strecke", labels.value.0), "StreckeID", labels.value.1));
  }

  lemma AssignNoWeather(crash: Table, weather: Table, dist: (Point, Point) -> real, threshold: real)
    requires NeedColumns(crash, ["Latitude", "Longitude"]).Ok? && NeedColumns(weather, ["Latitude", "Longitude"]).Ok?
    requires |crash.rows| > 0 && |weather.rows| == 0
    ensures Assign(crash, weather, dist, threshold) == Err(EmptyArgmin)
  {
  }

  lemma AssignCoordinates(crash: Table, weather: Table, dist: (Point, Point) -> real, threshold: real)
    requires NeedColumns(crash, ["Latitude", "Longitude"]).Err? || NeedColumns(weather, ["Latitude", "Longitude"]).Err?
    ensures Assign(crash, weather, dist, threshold) ==
              Err(if NeedColumns(crash, ["Latitude", "Longitude"]).Err? then NeedColumns(crash, ["Latitude", "Longitude"]).error
                  else NeedColumns(weather, ["Latitude", "Longitude"]).error)
  {
  }

  lemma AssignMissingLabel(crash: Table, weather: Table, dist: (Point, Point) -> real, threshold: real, i: nat)
    requires NeedColumns(crash, ["Latitude", "Longitude"]).Ok? && NeedColumns(weather, ["Latitude", "Longitude"]).Ok?
    requires i < |crash.rows| && Within(PointOf(crash.rows[i]), weather, dist, threshold)
    requires !("Strecke" in weather.columns && "StreckeID" in weather.columns)
    ensures Assign(crash, weather, dist, threshold) ==
              Err(if "Strecke" !in weather.columns then KeyError("Strecke") else KeyError("StreckeID"))
  {
    assert AnyWithin(crash, weather, dist, threshold);
  }

  lemma AssignDone(crash: Table, weather: Table, dist: (Point, Point) -> real, threshold: real)
    requires NeedColumns(crash, ["Latitude", "Longitude"]).Ok? && NeedColumns(weather, ["Latitude", "Longitude"]).Ok?
    requires |crash.rows| > 0 ==> |weather.rows| > 0
    requires LabelsFound(crash, weather, dist, threshold)
    ensures Assign(crash, weather, dist, threshold) ==
              Ok(SetColumn(SetColumn(crash, "Strecke", Labels(crash, weather, dist, threshold, "Strecke")),
                           "StreckeID", Labels(crash, weather, dist, threshold, "StreckeID")))
  {
  }

  /**
   * The assign mode keeps every accident, in order, with every other cell
   * unchanged; an accident beyond the threshold gets null for both labels,
   * and one within it gets Strecke and StreckeID of the same weather point:
   * one at minimum distance, with every earlier weather point strictly farther.
   */
  lemma AssignLabels(crash: Table, weather: Table, dist: (Point, Point) -> real, threshold: real, i: nat)
    requires Assign(crash, weather, dist, threshold).Ok?
    requires i < |crash.rows|
    ensures |Assign(crash, weather, dist, threshold).value.rows| == |crash.rows|
    ensures forall c :: c != "Strecke" && c != "StreckeID" ==>
              Cell(Assign(crash, weather, dist, threshold).value.rows[i], c) == Cell(crash.rows[i], c)
    ensures !Within(PointOf(crash.rows[i]), weather, dist, threshold) ==>
              && Cell(Assign(crash, weather, dist, threshold).value.rows[i], "Strecke") == Null
              && Cell(Assign(crash, weather, dist, threshold).value.rows[i], "StreckeID") == Null
    ensures Within(PointOf(crash.rows[i]), weather, dist, threshold) ==>
              exists k :: 0 <= k < |weather.rows| && NearestFirst(PointOf(crash.rows[i]), weather, dist, k)
                && dist(PointOf(crash.rows[i]), PointOf(weather.rows[k])) <= threshold
                && Cell(Assign(crash, weather, dist, threshold).value.rows[i], "Strecke") == Cell(weather.rows[k], "Strecke")
                && Cell(Assign(crash, weather, dist, threshold).value.rows[i], "StreckeID") == Cell(weather.rows[k], "StreckeID")
  {
    var out := Assign(crash, weather, dist, threshold).value;
    var p := PointOf(crash.rows[i]);
    assert |weather.rows| > 0;
    var ds := Distances(p, Points(weather), dist);
    var k := ArgMin(ds);
    if Within(p, weather, dist, threshold) {
      assert NearestFirst(p, weather, dist, k);
      assert dist(p, PointOf(weather.rows[k])) <= threshold;
    }
  }

  /** Weather point k is at minimum distance from p, and every earlier one is strictly farther. */
  predicate NearestFirst(p: Point, weather: Table, dist: (Point, Point) -> real, k: nat)
    requires k < |weather.rows|
  {
    && (forall j :: 0 <= j < |weather.rows| ==> dist(p, PointOf(weather.rows[k])) <= dist(p, PointOf(weather.rows[j])))
    && (forall j :: 0 <= j < k ==> dist(p, PointOf(weather.rows[j])) > dist(p, PointOf(weather.rows[k])))
  }
}
