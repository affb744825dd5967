/**
 * Aggregate: the road-condition views of the labelled accident table and the
 * crash counts joined onto the weather points.
 *
 * A view keeps the accidents of one road condition (STRZUSTAND 1 wet, 2 snow,
 * anything but 0 for wet or snow). A count column holds, for every weather
 * point, the number of accidents of a view labelled with its route and route
 * point; groupby discards accidents without a label, and the left join keeps
 * every weather point once, null where no accident was counted.
 */
module Aggregate {
  import opened Tables
  import Normalize

  // ---------------------------------------------------------------------------
  // filter_wet_snow_crash_data
  // ---------------------------------------------------------------------------

  /** The rows a view keeps: by the road-condition code compared as pandas compares a cell with an integer. */
  function ConditionKeeps(code: int): Row -> bool {
    r => var v := Cell(r, "STRZUSTAND");
      if code == 1 then v == Num(1.0)
      else if code == 2 then v == Num(2.0)
      else if code == 3 then v != Num(0.0)
      else true
  }

  /**
   * The view of one road-condition code: codes 1, 2 and 3 compare the
   * STRZUSTAND column (a KeyError when it is missing), any other code returns
   * the table itself.
   */
  function ConditionView(crash: Table, code: int): (r: Result<Table>)
    ensures r.Err? <==> (code == 1 || code == 2 || code == 3) && "STRZUSTAND" !in crash.columns
    ensures r.Err? ==> r.error == KeyError("STRZUSTAND")
    ensures r.Ok? ==> r.value == Where(crash, ConditionKeeps(code))
  {
    if (code == 1 || code == 2 || code == 3) && "STRZUSTAND" !in crash.columns then Err(KeyError("STRZUSTAND"))
    else Ok(Where(crash, ConditionKeeps(code)))
  }

  /**
   * A view holds exactly the accidents of its condition, in their original
   * order: every kept row has the code, every row with the code is kept; a
   * code other than 1, 2 and 3 keeps every row.
   */
  lemma ViewSelects(crash: Table, code: int)
    requires ConditionView(crash, code).Ok?
    ensures var v := ConditionView(crash, code).value;
      && v.columns == crash.columns
      && (forall k :: 0 <= k < |v.rows| ==> v.rows[k] in crash.rows && ConditionKeeps(code)(v.rows[k]))
      && (forall i :: 0 <= i < |crash.rows| && ConditionKeeps(code)(crash.rows[i]) ==> crash.rows[i] in v.rows)
      && (code != 1 && code != 2 && code != 3 ==> v == crash)
  {
    FilterMembers(crash.rows, ConditionKeeps(code));
    if code != 1 && code != 2 && code != 3 {
      FilterTrue(crash.rows, ConditionKeeps(code));
    }
  }

  /** The wet view and the snow view are views of the wet-or-snow view. */
  lemma WetAndSnowWithinWetSnow(crash: Table, code: int)
    requires code == 1 || code == 2
    requires "STRZUSTAND" in crash.columns
    ensures ConditionView(ConditionView(crash, 3).value, code) == ConditionView(crash, code)
  {
    var p, q := ConditionKeeps(3), ConditionKeeps(code);
    FilterNarrower(crash.rows, p, q);
  }

  // ---------------------------------------------------------------------------
  // combine_weather_and_crash_data
  // ---------------------------------------------------------------------------

  const Keys: seq<string> := ["Strecke", "StreckeID"]

  /** The join key of a row: its route and its route point. */
  function Key(r: Row): (Value, Value) {
    (Cell(r, "Strecke"), Cell(r, "StreckeID"))
  }

  /** A row groupby counts: both key cells hold a value. */
  predicate Labelled(r: Row) {
    !Cell(r, "Strecke").Null? && !Cell(r, "StreckeID").Null?
  }

  /** The number of rows whose key is k. */
  function CountKey(rows: seq<Row>, k: (Value, Value)): nat {
    if rows == [] then 0 else CountKey(rows[..|rows| - 1], k) + (if Key(rows[|rows| - 1]) == k then 1 else 0)
  }

  /** The count a weather point receives from a view: null when its key has a null part or no accident of the view has its key. */
  function CountCell(view: seq<Row>, w: Row): Value {
    if !Labelled(w) then Null
    else
      var n := CountKey(view, Key(w));
      if n == 0 then Null else Num(n as real)
  }

  /**
   * weather.merge(view.groupby(keys).size(), how='left') under the name n: one
   * row per weather row, in order, with the count appended. A count column
   * that the weather table has already is reported as a duplicate.
   */
  function CountJoin(weather: Table, view: Table, n: string): (r: Result<Table>)
    ensures r.Err? <==> n in weather.columns
    ensures r.Err? ==> r.error == DuplicateColumn(n)
    ensures r.Ok? ==> r.value.columns == weather.columns + [n] && |r.value.rows| == |weather.rows|
    ensures r.Ok? ==> forall i :: 0 <= i < |weather.rows| ==> r.value.rows[i] == weather.rows[i][n := CountCell(view.rows, weather.rows[i])]
  {
    if n in weather.columns then Err(DuplicateColumn(n))
    else Ok(SetColumn(weather, n, seq(|weather.rows|, i requires 0 <= i < |weather.rows| => CountCell(view.rows, weather.rows[i]))))
  }

  /** A weather row with its four counts, one from each view. */
  function CombinedRow(w: Row, crash: seq<Row>, wet: seq<Row>, snow: seq<Row>, wetSnow: seq<Row>): Row {
    w["CrashCount" := CountCell(crash, w)]["CrashCountWet" := CountCell(wet, w)]
     ["CrashCountSnow" := CountCell(snow, w)]["CrashCountWetSnow" := CountCell(wetSnow, w)]
  }

  /** The views and the weather table all have both key columns. */
  predicate HasKeys(weather: Table, crash: Table, wet: Table, snow: Table, wetSnow: Table) {
    forall c :: c in Keys ==>
      c in crash.columns && c in wet.columns && c in snow.columns && c in wetSnow.columns && c in weather.columns
  }

  /**
   * combine_weather_and_crash_data: the four groupbys need the key columns
   * in their views, the first merge needs them in the weather table, then the
   * four count columns are joined on in order.
   */
  function Combine(weather: Table, crash: Table, wet: Table, snow: Table, wetSnow: Table): (r: Result<Table>)
    ensures r.Ok? <==> HasKeys(weather, crash, wet, snow, wetSnow) && forall c :: c in Normalize.CountColumns ==> c !in weather.columns
    ensures r.Err? ==> (r.error.KeyError? && r.error.column in Keys) || (r.error.DuplicateColumn? && r.error.column in Normalize.CountColumns)
    ensures r.Ok? ==> r.value.columns == weather.columns + Normalize.CountColumns
    ensures r.Ok? ==> |r.value.rows| == |weather.rows|
    ensures r.Ok? ==> forall i :: 0 <= i < |weather.rows| ==>
      r.value.rows[i] == CombinedRow(weather.rows[i], crash.rows, wet.rows, snow.rows, wetSnow.rows)
  {
    var _ :- NeedColumns(crash, Keys);
    var _ :- NeedColumns(wet, Keys);
    var _ :- NeedColumns(snow, Keys);
    var _ :- NeedColumns(wetSnow, Keys);
    var _ :- NeedColumns(weather, Keys);
    var c1 :- CountJoin(weather, crash, "CrashCount");
    var c2 :- CountJoin(c1, wet, "CrashCountWet");
    var c3 :- CountJoin(c2, snow, "CrashCountSnow");
    var c4 :- CountJoin(c3, wetSnow, "CrashCountWetSnow");
    JoinedRows(weather, crash, wet, snow, wetSnow, c1, c2, c3, c4);
    Ok(c4)
  }

  /** A cell outside the keys does not change a row's count. */
  lemma CountCellIgnores(view: seq<Row>, w: Row, n: string, v: Value)
    requires n !in Keys
    ensures CountCell(view, w[n := v]) == CountCell(view, w)
  {
    assert Key(w[n := v]) == Key(w);
  }

  /** The four joins in a row give every weather row its combined row. */
  lemma JoinedRows(weather: Table, crash: Table, wet: Table, snow: Table, wetSnow: Table, c1: Table, c2: Table, c3: Table, c4: Table)
    requires CountJoin(weather, crash, "CrashCount") == Ok(c1)
    requires CountJoin(c1, wet, "CrashCountWet") == Ok(c2)
    requires CountJoin(c2, snow, "CrashCountSnow") == Ok(c3)
    requires CountJoin(c3, wetSnow, "CrashCountWetSnow") == Ok(c4)
    ensures forall i :: 0 <= i < |weather.rows| ==>
      c4.rows[i] == CombinedRow(weather.rows[i], crash.rows, wet.rows, snow.rows, wetSnow.rows)
  {
    forall i | 0 <= i < |weather.rows|
      ensures c4.rows[i] == CombinedRow(weather.rows[i], crash.rows, wet.rows, snow.rows, wetSnow.rows)
    {
      var w := weather.rows[i];
      var w1 := w["CrashCount" := CountCell(crash.rows, w)];
      var w2 := w1["CrashCountWet" := CountCell(wet.rows, w)];
      CountCellIgnores(wet.rows, w, "CrashCount", CountCell(crash.rows, w));
      CountCellIgnores(snow.rows, w, "CrashCount", CountCell(crash.rows, w));
      CountCellIgnores(snow.rows, w1, "CrashCountWet", CountCell(wet.rows, w));
      CountCellIgnores(wetSnow.rows, w, "CrashCount", CountCell(crash.rows, w));
      CountCellIgnores(wetSnow.rows, w1, "CrashCountWet", CountCell(wet.rows, w));
      CountCellIgnores(wetSnow.rows, w2, "CrashCountSnow", CountCell(snow.rows, w));
    }
  }

  /** The combined row keeps every weather cell and holds the four counts. */
  lemma CombinedRowCells(w: Row, crash: seq<Row>, wet: seq<Row>, snow: seq<Row>, wetSnow: seq<Row>)
    ensures var r := CombinedRow(w, crash, wet, snow, wetSnow);
      && (forall c :: c !in Normalize.CountColumns ==> Cell(r, c) == Cell(w, c))
      && Cell(r, "CrashCount") == CountCell(crash, w)
      && Cell(r, "CrashCountWet") == CountCell(wet, w)
      && Cell(r, "CrashCountSnow") == CountCell(snow, w)
      && Cell(r, "CrashCountWetSnow") == CountCell(wetSnow, w)
  {
  }

  // ---------------------------------------------------------------------------
  // The counts add up
  // ---------------------------------------------------------------------------

  /** The filled count of a weather point: its count, 0 where the join left it null. */
  function CountOf(view: seq<Row>, w: Row): nat {
    if Labelled(w) then CountKey(view, Key(w)) else 0
  }

  /** The sum of the filled counts over the weather rows. */
  function TotalCount(ws: seq<Row>, view: seq<Row>): nat {
    if ws == [] then 0 else TotalCount(ws[..|ws| - 1], view) + CountOf(view, ws[|ws| - 1])
  }

  /** The number of accidents groupby counts. */
  function LabelledCount(view: seq<Row>): nat {
    if view == [] then 0 else LabelledCount(view[..|view| - 1]) + (if Labelled(view[|view| - 1]) then 1 else 0)
  }

  /** The number of labelled weather rows that have the key of r. */
  function Hits(ws: seq<Row>, r: Row): nat {
    if ws == [] then 0 else Hits(ws[..|ws| - 1], r) + (if Labelled(ws[|ws| - 1]) && Key(ws[|ws| - 1]) == Key(r) then 1 else 0)
  }

  /** No two labelled weather rows share a key. */
  predicate UniqueKeys(ws: seq<Row>) {
    forall i, j :: 0 <= i < j < |ws| && Labelled(ws[i]) && Labelled(ws[j]) ==> Key(ws[i]) != Key(ws[j])
  }

  /** Every labelled accident carries the key of some weather row. */
  predicate Covered(ws: seq<Row>, view: seq<Row>) {
    forall k :: 0 <= k < |view| && Labelled(view[k]) ==> exists i :: 0 <= i < |ws| && Key(ws[i]) == Key(view[k])
  }

  /** The value the join writes, filled with 0 as fillna(0) does, is the filled count. */
  lemma FilledCountCell(view: seq<Row>, w: Row)
    ensures Normalize.Filled(CountCell(view, w)) == Num(CountOf(view, w) as real)
  {
  }

  /** Adding one accident to a view adds its hits to the total. */
  lemma {:induction false} TotalSnoc(ws: seq<Row>, view: seq<Row>, r: Row)
    ensures TotalCount(ws, view + [r]) == TotalCount(ws, view) + Hits(ws, r)
  {
    if ws != [] {
      var w := ws[|ws| - 1];
      TotalSnoc(ws[..|ws| - 1], view, r);
      assert (view + [r])[..|view|] == view;
      if Labelled(w) {
        assert CountKey(view + [r], Key(w)) == CountKey(view, Key(w)) + (if Key(r) == Key(w) then 1 else 0);
      }
    }
  }

  /** A key no labelled row has gets no hits. */
  lemma {:induction false} HitsNone(ws: seq<Row>, r: Row)
    requires forall i :: 0 <= i < |ws| && Labelled(ws[i]) ==> Key(ws[i]) != Key(r)
    ensures Hits(ws, r) == 0
  {
    if ws != [] {
      HitsNone(ws[..|ws| - 1], r);
    }
  }

  /** A labelled accident whose key a weather row has gets exactly one hit when the keys are unique. */
  lemma {:induction false} HitsOne(ws: seq<Row>, r: Row, i0: nat)
    requires UniqueKeys(ws)
    requires i0 < |ws| && Labelled(r) && Key(ws[i0]) == Key(r)
    ensures Hits(ws, r) == 1
  {
    var init, w := ws[..|ws| - 1], ws[|ws| - 1];
    assert Labelled(ws[i0]);
    if i0 == |ws| - 1 {
      forall i | 0 <= i < |init| && Labelled(init[i])
        ensures Key(init[i]) != Key(r)
      {
        assert Key(ws[i]) != Key(ws[i0]);
      }
      HitsNone(init, r);
    } else {
      assert Key(w) != Key(r) by {
        assert Key(ws[i0]) != Key(ws[|ws| - 1]);
      }
      HitsOne(init, r, i0);
    }
  }

  /**
   * With one weather row per key and every labelled accident at some weather
   * row, the filled counts sum to the number of labelled accidents: the join
   * neither loses nor repeats an accident.
   */
  lemma {:induction false} CountsAddUp(ws: seq<Row>, view: seq<Row>)
    requires UniqueKeys(ws) && Covered(ws, view)
    ensures TotalCount(ws, view) == LabelledCount(view)
    decreases |view|
  {
    if view == [] {
      TotalEmpty(ws);
    } else {
      var init, r := view[..|view| - 1], view[|view| - 1];
      assert view == init + [r];
      assert Covered(ws, init) by {
        forall k | 0 <= k < |init| && Labelled(init[k])
          ensures exists i :: 0 <= i < |ws| && Key(ws[i]) == Key(init[k])
        {
          assert init[k] == view[k];
        }
      }
      CountsAddUp(ws, init);
      TotalSnoc(ws, init, r);
      if Labelled(r) {
        var i0 :| 0 <= i0 < |ws| && Key(ws[i0]) == Key(view[|view| - 1]);
        HitsOne(ws, r, i0);
      } else {
        HitsNone(ws, r);
      }
    }
  }

  /** An empty view counts nothing anywhere. */
  lemma {:induction false} TotalEmpty(ws: seq<Row>)
    ensures TotalCount(ws, []) == 0
  {
    if ws != [] {
      TotalEmpty(ws[..|ws| - 1]);
    }
  }

  /** The sum of column c over rows, nulls counted as 0. */
  function ColumnSum(rows: seq<Row>, c: string): real {
    if rows == [] then 0.0 else ColumnSum(rows[..|rows| - 1], c) + Normalize.NumOf(Normalize.Filled(Cell(rows[|rows| - 1], c)))
  }

  /** A column of join counts sums to the total of the filled counts. */
  lemma {:induction false} ColumnSumCounts(rs: seq<Row>, ws: seq<Row>, view: seq<Row>, c: string)
    requires |rs| == |ws|
    requires forall i :: 0 <= i < |rs| ==> Cell(rs[i], c) == CountCell(view, ws[i])
    ensures ColumnSum(rs, c) == TotalCount(ws, view) as real
  {
    if rs != [] {
      ColumnSumCounts(rs[..|rs| - 1], ws[..|ws| - 1], view, c);
      FilledCountCell(view, ws[|ws| - 1]);
    }
  }

  /**
   * Over the combined table, each count column sums to the number of labelled
   * accidents of its view, when the weather keys are unique and every
   * labelled accident is at a weather point.
   */
  lemma CombineTotals(weather: Table, crash: Table, wet: Table, snow: Table, wetSnow: Table)
    requires Combine(weather, crash, wet, snow, wetSnow).Ok?
    requires UniqueKeys(weather.rows)
    requires Covered(weather.rows, crash.rows) && Covered(weather.rows, wet.rows)
    requires Covered(weather.rows, snow.rows) && Covered(weather.rows, wetSnow.rows)
    ensures var rs := Combine(weather, crash, wet, snow, wetSnow).value.rows;
      && ColumnSum(rs, "CrashCount") == LabelledCount(crash.rows) as real
      && ColumnSum(rs, "CrashCountWet") == LabelledCount(wet.rows) as real
      && ColumnSum(rs, "CrashCountSnow") == LabelledCount(snow.rows) as real
      && ColumnSum(rs, "CrashCountWetSnow") == LabelledCount(wetSnow.rows) as real
  {
    var rs := Combine(weather, crash, wet, snow, wetSnow).value.rows;
    forall i | 0 <= i < |rs|
      ensures Cell(rs[i], "CrashCount") == CountCell(crash.rows, weather.rows[i])
      ensures Cell(rs[i], "CrashCountWet") == CountCell(wet.rows, weather.rows[i])
      ensures Cell(rs[i], "CrashCountSnow") == CountCell(snow.rows, weather.rows[i])
      ensures Cell(rs[i], "CrashCountWetSnow") == CountCell(wetSnow.rows, weather.rows[i])
    {
      CombinedRowCells(weather.rows[i], crash.rows, wet.rows, snow.rows, wetSnow.rows);
    }
    ColumnSumCounts(rs, weather.rows, crash.rows, "CrashCount");
    ColumnSumCounts(rs, weather.rows, wet.rows, "CrashCountWet");
    ColumnSumCounts(rs, weather.rows, snow.rows, "CrashCountSnow");
    ColumnSumCounts(rs, weather.rows, wetSnow.rows, "CrashCountWetSnow");
    CountsAddUp(weather.rows, crash.rows);
    CountsAddUp(weather.rows, wet.rows);
    CountsAddUp(weather.rows, snow.rows);
    CountsAddUp(weather.rows, wetSnow.rows);
  }
}
