/**
 * Legacy: the older script data/dataDownloadFilterPipeline.py, which does the
 * work of the pipeline in two long functions. filterData cleans the three
 * accident years, reindexes 2018 and 2019 to the columns of 2017, keeps the
 * accidents near a weather point, numbers the weather points of every route
 * and labels every accident with its nearest point; connectData counts the
 * accidents per point and scales the counts to [0, 100].
 */
module Legacy {
  import opened Tables
  import opened Storage
  import RouteIndex
  import Harmonize
  import Spatial
  import Aggregate
  import Normalize

  type Dist = (Spatial.Point, Spatial.Point) -> real

  /** 600 m: the weather points lie 1 km apart. */
  const ThresholdDistance: real := 600.0

  // ---------------------------------------------------------------------------
  // The cleaning of one accident year
  // ---------------------------------------------------------------------------

  predicate IsYear(year: int) { year == 2017 || year == 2018 || year == 2019 }

  /** The columns each year drops in one go: the bookkeeping, IstRad and IstFuss. */
  function LegacyDrops(year: int): seq<string> {
    if year == 2017 then ["LINREFX", "LINREFY", "IstRad", "IstFuss", "OBJECTID", "UIDENTSTLA"]
    else if year == 2018 then ["LINREFX", "LINREFY", "IstRad", "IstFuss", "OBJECTID_1"]
    else ["LINREFX", "LINREFY", "IstRad", "IstFuss", "OBJECTID"]
  }

  /**
   * What the script does to the table of one year, in the order it does it:
   * the month filter (2017 and 2019), the four exclusions, the flag merge on
   * the filtered rows (2018 and 2019), the renaming of IstSonstige (2019) and
   * the drop of the year's list.
   */
  function LegacyYear(raw: Table, year: int): (r: Result<Table>)
    requires IsYear(year)
  {
    if year == 2017 then
      var m :- Harmonize.KeepWhere(raw, "UMONAT", Harmonize.Is(12.0));
      var e :- Harmonize.Exclusions(m);
      DropColumns(e, LegacyDrops(2017))
    else if year == 2018 then
      var e :- Harmonize.Exclusions(raw);
      var o :- Harmonize.OrColumn(e, "IstSonstig", "IstGkfz");
      DropColumns(o, LegacyDrops(2018))
    else
      var m :- Harmonize.KeepWhere(raw, "UMONAT", Harmonize.IsNot(12.0));
      var e :- Harmonize.Exclusions(m);
      var o :- Harmonize.OrColumn(e, "IstSonstige", "IstGkfz");
      var n :- Rename(o, "IstSonstige", "IstSonstig");
      DropColumns(n, LegacyDrops(2019))
  }

  /** What the script does to one surviving row of a year. */
  function LegacyBy(year: int): Row -> Row {
    if year == 2017 then Harmonize.DropBy(LegacyDrops(2017))
    else if year == 2018 then Compose(Harmonize.OrBy("IstSonstig", "IstGkfz"), Harmonize.DropBy(LegacyDrops(2018)))
    else Compose(Compose(Harmonize.OrBy("IstSonstige", "IstGkfz"), Harmonize.RenameBy("IstSonstige", "IstSonstig")),
                 Harmonize.DropBy(LegacyDrops(2019)))
  }

  function Identity<T>(): T -> T { x => x }

  lemma DerivedIdentity(src: seq<Row>)
    ensures Derived(src, src, Always(), Identity())
  {
    DerivedStart(src, src, Identity());
  }

  /** The month filter of a year, as a chain of identity transformations. */
  lemma MonthChain(raw: Table, year: int, m: Table)
    requires IsYear(year)
    requires year != 2018 ==> Harmonize.KeepWhere(raw, "UMONAT", if year == 2017 then Harmonize.Is(12.0) else Harmonize.IsNot(12.0)) == Ok(m)
    requires year == 2018 ==> m == raw
    ensures Derived(m.rows, raw.rows, Harmonize.MonthBy(year), Identity())
  {
    DerivedIdentity(raw.rows);
    if year == 2018 {
      DerivedRecondition(raw.rows, raw.rows, Always(), Identity(), Harmonize.MonthBy(2018));
    } else {
      var p := if year == 2017 then Harmonize.Is(12.0) else Harmonize.IsNot(12.0);
      DerivedWhere(raw.rows, raw.rows, Always(), Identity(), Harmonize.CellIs("UMONAT", p));
      DerivedRecondition(m.rows, raw.rows, Both(Always(), Compose(Identity(), Harmonize.CellIs("UMONAT", p))),
                         Identity(), Harmonize.MonthBy(year));
    }
  }

  /** The month filter and the exclusions keep exactly the rows Kept, untransformed. */
  lemma FilteredChain(raw: Table, year: int, m: Table)
    requires IsYear(year)
    requires Derived(m.rows, raw.rows, Harmonize.MonthBy(year), Identity())
    requires Harmonize.Exclusions(m).Ok?
    ensures Derived(Harmonize.Exclusions(m).value.rows, raw.rows, Harmonize.KeptBy(year), Identity())
  {
    Harmonize.ExclusionsDerived(m, raw.rows, Harmonize.MonthBy(year), Identity());
    Harmonize.KeptCondition(year, raw.rows);
    DerivedRecondition(Harmonize.Exclusions(m).value.rows, raw.rows,
                       Both(Harmonize.MonthBy(year), Harmonize.NotExcludedBy()), Identity(), Harmonize.KeptBy(year));
  }

  /**
   * The cleaned rows of a year are exactly the raw rows that pass the month
   * filter of their year and the four exclusions, in their original order,
   * each transformed by LegacyBy.
   */
  lemma LegacyYearRows(raw: Table, year: int)
    requires IsYear(year) && LegacyYear(raw, year).Ok?
    ensures Derived(LegacyYear(raw, year).value.rows, raw.rows, Harmonize.KeptBy(year), LegacyBy(year))
  {
    var K := Harmonize.KeptBy(year);
    var m := if year == 2018 then raw
             else Harmonize.KeepWhere(raw, "UMONAT", if year == 2017 then Harmonize.Is(12.0) else Harmonize.IsNot(12.0)).value;
    MonthChain(raw, year, m);
    var e := Harmonize.Exclusions(m).value;
    FilteredChain(raw, year, m);
    if year == 2017 {
      Harmonize.DropRows(e, LegacyDrops(2017));
      DerivedThen(e.rows, raw.rows, K, Identity(), Harmonize.DropBy(LegacyDrops(2017)));
      DerivedCongruent(LegacyYear(raw, year).value.rows, raw.rows, K, Compose(Identity(), Harmonize.DropBy(LegacyDrops(2017))),
                       K, LegacyBy(2017));
    } else if year == 2018 {
      var o := Harmonize.OrColumn(e, "IstSonstig", "IstGkfz").value;
      Harmonize.OrRows(e, "IstSonstig", "IstGkfz");
      Harmonize.DropRows(o, LegacyDrops(2018));
      DerivedThen(e.rows, raw.rows, K, Identity(), Harmonize.OrBy("IstSonstig", "IstGkfz"));
      var F1 := Compose(Identity(), Harmonize.OrBy("IstSonstig", "IstGkfz"));
      DerivedThen(o.rows, raw.rows, K, F1, Harmonize.DropBy(LegacyDrops(2018)));
      DerivedCongruent(LegacyYear(raw, year).value.rows, raw.rows, K, Compose(F1, Harmonize.DropBy(LegacyDrops(2018))),
                       K, LegacyBy(2018));
    } else {
      var o := Harmonize.OrColumn(e, "IstSonstige", "IstGkfz").value;
      var n := Rename(o, "IstSonstige", "IstSonstig").value;
      Harmonize.OrRows(e, "IstSonstige", "IstGkfz");
      Harmonize.RenameRows(o, "IstSonstige", "IstSonstig");
      Harmonize.DropRows(n, LegacyDrops(2019));
      DerivedThen(e.rows, raw.rows, K, Identity(), Harmonize.OrBy("IstSonstige", "IstGkfz"));
      var F1 := Compose(Identity(), Harmonize.OrBy("IstSonstige", "IstGkfz"));
      DerivedThen(o.rows, raw.rows, K, F1, Harmonize.RenameBy("IstSonstige", "IstSonstig"));
      var F2 := Compose(F1, Harmonize.RenameBy("IstSonstige", "IstSonstig"));
      DerivedThen(n.rows, raw.rows, K, F2, Harmonize.DropBy(LegacyDrops(2019)));
      DerivedCongruent(LegacyYear(raw, year).value.rows, raw.rows, K, Compose(F2, Harmonize.DropBy(LegacyDrops(2019))),
                       K, LegacyBy(2019));
    }
  }

  /** The names of a year's columns once 2019's IstSonstige is called IstSonstig. */
  function YearNames(year: int, cols: seq<string>): seq<string> {
    if year == 2019 then Replace(cols, "IstSonstige", "IstSonstig") else cols
  }

  /** Before the drop, the filters and the flag merge keep the names of a year's columns, and the renaming renames. */
  lemma LegacyYearNames(raw: Table, year: int)
    requires IsYear(year) && LegacyYear(raw, year).Ok?
    ensures LegacyYear(raw, year).value.columns == Filter(YearNames(year, raw.columns), Excluding(LegacyDrops(year)))
  {
    var m := if year == 2018 then raw
             else Harmonize.KeepWhere(raw, "UMONAT", if year == 2017 then Harmonize.Is(12.0) else Harmonize.IsNot(12.0)).value;
    var e := Harmonize.Exclusions(m).value;
    assert e.columns == raw.columns;
    if year == 2018 {
      var o := Harmonize.OrColumn(e, "IstSonstig", "IstGkfz").value;
      assert LegacyYear(raw, year) == DropColumns(o, LegacyDrops(2018));
    } else if year == 2019 {
      var o := Harmonize.OrColumn(e, "IstSonstige", "IstGkfz").value;
      var n := Rename(o, "IstSonstige", "IstSonstig").value;
      assert LegacyYear(raw, year) == DropColumns(n, LegacyDrops(2019));
      assert n.columns == YearNames(2019, raw.columns);
    }
  }

  /**
   * The cleaned table of a year has exactly the columns of the raw table, with
   * IstSonstige called IstSonstig in 2019, less the year's drop list.
   */
  lemma LegacyYearColumns(raw: Table, year: int)
    requires IsYear(year) && LegacyYear(raw, year).Ok?
    ensures forall c :: c in LegacyYear(raw, year).value.columns <==>
              c in YearNames(year, raw.columns) && c !in LegacyDrops(year)
  {
    ReplaceMembers(raw.columns, "IstSonstige", "IstSonstig");
  }

  /** The drop list of a year is the harmonizer's list of the year together with IstRad and IstFuss. */
  lemma DropListsAgree(year: int)
    requires IsYear(year)
    ensures forall c :: c in LegacyDrops(year) <==> c in Harmonize.YearDrops(year) || c in Harmonize.CommonDrops
  {
  }

  /** A row of a table without the raw coordinate names leaves both harmonizers alike. */
  lemma RowAgrees(year: int, cols: seq<string>, x: Row)
    requires IsYear(year)
    requires "XGCSWGS84" !in cols && "YGCSWGS84" !in cols
    ensures Harmonize.FinishBy(year, cols)(x) == LegacyBy(year)(x)
  {
    assert "YGCSWGS84" != "Longitude";
    ReplaceMembers(cols, "XGCSWGS84", "Longitude");
    assert Harmonize.CoordRow(cols, x) == x;
    DropListsAgree(year);
    var y := Harmonize.YearThen(year, Harmonize.CoordBy(cols))(x);
    if year == 2017 {
      DropKeysTwice(x, Harmonize.YearDrops(2017), Harmonize.CommonDrops, LegacyDrops(2017));
    } else if year == 2018 {
      var o := Harmonize.OrRow(x, "IstSonstig", "IstGkfz");
      DropKeysTwice(o, Harmonize.YearDrops(2018), Harmonize.CommonDrops, LegacyDrops(2018));
    } else {
      var o := RenameKey(Harmonize.OrRow(x, "IstSonstige", "IstGkfz"), "IstSonstige", "IstSonstig");
      DropKeysTwice(o, Harmonize.YearDrops(2019), Harmonize.CommonDrops, LegacyDrops(2019));
    }
  }

  /** The exclusions keep only rows of their input. */
  lemma ExclusionsSubset(m: Table)
    requires Harmonize.Exclusions(m).Ok?
    ensures forall k :: 0 <= k < |Harmonize.Exclusions(m).value.rows| ==> Harmonize.Exclusions(m).value.rows[k] in m.rows
  {
    var f1 := Harmonize.KeepWhere(m, "IstRad", Harmonize.IsNot(1.0)).value;
    var f2 := Harmonize.KeepWhere(f1, "IstFuss", Harmonize.IsNot(1.0)).value;
    var f3 := Harmonize.KeepWhere(f2, "UTYP1", Harmonize.IsNot(3.0)).value;
    FilterMembers(m.rows, Harmonize.CellIs("IstRad", Harmonize.IsNot(1.0)));
    FilterMembers(f1.rows, Harmonize.CellIs("IstFuss", Harmonize.IsNot(1.0)));
    FilterMembers(f2.rows, Harmonize.CellIs("UTYP1", Harmonize.IsNot(3.0)));
    FilterMembers(f3.rows, Harmonize.CellIs("UART", Harmonize.IsNot(6.0)));
  }

  /** A flag column of integers stays one when rows are only removed. */
  lemma AllIntSubset(t: Table, u: Table, c: string)
    requires Harmonize.AllInt(t, c)
    requires forall k :: 0 <= k < |u.rows| ==> u.rows[k] in t.rows
    ensures Harmonize.AllInt(u, c)
  {
    forall k | 0 <= k < |u.rows| ensures Harmonize.IsInt(Cell(u.rows[k], c)) {
      var i :| 0 <= i < |t.rows| && t.rows[i] == u.rows[k];
    }
  }

  /** The harmonizer's coordinate renamings change nothing in a table without the raw coordinate names. */
  lemma NoCoordinates(raw: Table)
    requires "XGCSWGS84" !in raw.columns && "YGCSWGS84" !in raw.columns
    ensures Rename(raw, "XGCSWGS84", "Longitude") == Ok(raw)
    ensures Rename(raw, "YGCSWGS84", "Latitude") == Ok(raw)
  {
  }

  lemma Succeeds2017(raw: Table)
    requires Harmonize.PreprocessCrash(raw, 2017).Ok?
    requires Rename(raw, "XGCSWGS84", "Longitude") == Ok(raw) && Rename(raw, "YGCSWGS84", "Latitude") == Ok(raw)
    ensures LegacyYear(raw, 2017).Ok?
  {
    var m := Harmonize.KeepWhere(raw, "UMONAT", Harmonize.Is(12.0)).value;
    var y := DropColumns(m, Harmonize.YearDrops(2017)).value;
    assert Harmonize.YearStep(raw, 2017) == Ok(y);
    var e := Harmonize.Exclusions(y).value;
    assert DropColumns(e, Harmonize.CommonDrops).Ok?;
    DropListsAgree(2017);
    var e2 := Harmonize.Exclusions(m);
    assert e2.Ok?;
    assert DropColumns(e2.value, LegacyDrops(2017)).Ok?;
  }

  lemma Succeeds2018(raw: Table)
    requires Harmonize.PreprocessCrash(raw, 2018).Ok?
    requires Rename(raw, "XGCSWGS84", "Longitude") == Ok(raw) && Rename(raw, "YGCSWGS84", "Latitude") == Ok(raw)
    ensures LegacyYear(raw, 2018).Ok?
  {
    var o := Harmonize.OrColumn(raw, "IstSonstig", "IstGkfz").value;
    var y := DropColumns(o, Harmonize.YearDrops(2018)).value;
    assert Harmonize.YearStep(raw, 2018) == Ok(y);
    var e := Harmonize.Exclusions(y).value;
    assert DropColumns(e, Harmonize.CommonDrops).Ok?;
    DropListsAgree(2018);
    var e2 := Harmonize.Exclusions(raw);
    assert e2.Ok?;
    ExclusionsSubset(raw);
    AllIntSubset(raw, e2.value, "IstSonstig");
    AllIntSubset(raw, e2.value, "IstGkfz");
    var o2 := Harmonize.OrColumn(e2.value, "IstSonstig", "IstGkfz");
    assert o2.Ok?;
    assert DropColumns(o2.value, LegacyDrops(2018)).Ok?;
  }

  /** What the script's 2019 cleaning needs of the month-filtered table. */
  predicate Ready2019(m: Table) {
    && Harmonize.Exclusions(m).Ok?
    && "IstSonstige" in m.columns && "IstGkfz" in m.columns && "IstSonstig" !in m.columns
    && Harmonize.AllInt(m, "IstSonstige") && Harmonize.AllInt(m, "IstGkfz")
    && forall c :: c in LegacyDrops(2019) ==> c in Replace(m.columns, "IstSonstige", "IstSonstig")
  }

  lemma Ready2019Succeeds(raw: Table, m: Table)
    requires Harmonize.KeepWhere(raw, "UMONAT", Harmonize.IsNot(12.0)) == Ok(m)
    requires Ready2019(m)
    ensures LegacyYear(raw, 2019).Ok?
  {
    var e2 := Harmonize.Exclusions(m).value;
    ExclusionsSubset(m);
    AllIntSubset(m, e2, "IstSonstige");
    AllIntSubset(m, e2, "IstGkfz");
    var o2 := Harmonize.OrColumn(e2, "IstSonstige", "IstGkfz");
    assert o2.Ok?;
    var n2 := Rename(o2.value, "IstSonstige", "IstSonstig");
    assert n2.Ok?;
    assert DropColumns(n2.value, LegacyDrops(2019)).Ok?;
  }

  /** The exclusions succeed on a table that has every exclusion column another table they succeed on has. */
  lemma ExclusionsTransfer(y: Table, m: Table)
    requires Harmonize.Exclusions(y).Ok?
    requires forall c :: c in y.columns && c in Harmonize.ExclusionColumns ==> c in m.columns
    ensures Harmonize.Exclusions(m).Ok?
  {
  }

  lemma Succeeds2019(raw: Table)
    requires Harmonize.PreprocessCrash(raw, 2019).Ok?
    requires Rename(raw, "XGCSWGS84", "Longitude") == Ok(raw) && Rename(raw, "YGCSWGS84", "Latitude") == Ok(raw)
    ensures LegacyYear(raw, 2019).Ok?
  {
    Ready2019FromEtl(raw);
    Ready2019Succeeds(raw, Harmonize.KeepWhere(raw, "UMONAT", Harmonize.IsNot(12.0)).value);
  }

  lemma Ready2019FromEtl(raw: Table)
    requires Harmonize.PreprocessCrash(raw, 2019).Ok?
    requires Rename(raw, "XGCSWGS84", "Longitude") == Ok(raw) && Rename(raw, "YGCSWGS84", "Latitude") == Ok(raw)
    ensures Harmonize.KeepWhere(raw, "UMONAT", Harmonize.IsNot(12.0)).Ok?
    ensures Ready2019(Harmonize.KeepWhere(raw, "UMONAT", Harmonize.IsNot(12.0)).value)
  {
    var y := Harmonize.YearStep(raw, 2019).value;
    var e := Harmonize.Exclusions(y).value;
    assert Harmonize.PreprocessCrash(raw, 2019) == DropColumns(e, Harmonize.CommonDrops);
    var m := Harmonize.KeepWhere(raw, "UMONAT", Harmonize.IsNot(12.0)).value;
    var o := Harmonize.OrColumn(m, "IstSonstige", "IstGkfz").value;
    var n := Rename(o, "IstSonstige", "IstSonstig").value;
    assert y == DropColumns(n, Harmonize.YearDrops(2019)).value;
    ReadyFromSteps(m, o, n, y, e);
  }

  /** The steps of the harmonizer's 2019 cleaning leave the month-filtered table ready for the script's. */
  lemma ReadyFromSteps(m: Table, o: Table, n: Table, y: Table, e: Table)
    requires Harmonize.OrColumn(m, "IstSonstige", "IstGkfz") == Ok(o)
    requires Rename(o, "IstSonstige", "IstSonstig") == Ok(n)
    requires DropColumns(n, Harmonize.YearDrops(2019)) == Ok(y)
    requires Harmonize.Exclusions(y) == Ok(e)
    requires DropColumns(e, Harmonize.CommonDrops).Ok?
    ensures Ready2019(m)
  {
    assert n.columns == Replace(m.columns, "IstSonstige", "IstSonstig");
    DropsPresent2019(n, y, e);
    ExclusionsBeforeRename(m, n, y);
    ExclusionsTransfer(y, m);
  }

  /** The exclusion columns left after the rename and the drops were columns of the merged table. */
  lemma ExclusionsBeforeRename(m: Table, n: Table, y: Table)
    requires n.columns == Replace(m.columns, "IstSonstige", "IstSonstig")
    requires forall c :: c in y.columns ==> c in n.columns
    ensures forall c :: c in y.columns && c in Harmonize.ExclusionColumns ==> c in m.columns
  {
    ReplaceMembers(m.columns, "IstSonstige", "IstSonstig");
  }

  /** The harmonizer's two drops of 2019 succeeding, the script's single drop finds its columns. */
  lemma DropsPresent2019(n: Table, y: Table, e: Table)
    requires DropColumns(n, Harmonize.YearDrops(2019)) == Ok(y)
    requires Harmonize.Exclusions(y) == Ok(e)
    requires DropColumns(e, Harmonize.CommonDrops).Ok?
    ensures forall c :: c in y.columns ==> c in n.columns
    ensures forall c :: c in LegacyDrops(2019) ==> c in n.columns
  {
  }

  /**
   * Where the harmonizer of the pipeline cleans a year, the script cleans it
   * too: its merge checks fewer rows and its single drop the same columns.
   */
  lemma LegacySucceeds(raw: Table, year: int)
    requires IsYear(year) && "XGCSWGS84" !in raw.columns && "YGCSWGS84" !in raw.columns
    requires Harmonize.PreprocessCrash(raw, year).Ok?
    ensures LegacyYear(raw, year).Ok?
  {
    NoCoordinates(raw);
    if year == 2017 {
      Succeeds2017(raw);
    } else if year == 2018 {
      Succeeds2018(raw);
    } else {
      Succeeds2019(raw);
    }
  }

  /** The columns the harmonizer of the pipeline leaves, for a table without the raw coordinate names. */
  lemma EtlNames(raw: Table, year: int)
    requires IsYear(year) && "XGCSWGS84" !in raw.columns && "YGCSWGS84" !in raw.columns
    requires Harmonize.PreprocessCrash(raw, year).Ok?
    ensures Harmonize.PreprocessCrash(raw, year).value.columns ==
            Filter(Filter(YearNames(year, raw.columns), Excluding(Harmonize.YearDrops(year))), Excluding(Harmonize.CommonDrops))
  {
    NoCoordinates(raw);
    var y := Harmonize.YearStep(raw, year).value;
    var e := Harmonize.Exclusions(y).value;
    assert Harmonize.PreprocessCrash(raw, year) == DropColumns(e, Harmonize.CommonDrops);
    assert e.columns == y.columns;
    if year == 2017 {
      var m := Harmonize.KeepWhere(raw, "UMONAT", Harmonize.Is(12.0)).value;
      assert y == DropColumns(m, Harmonize.YearDrops(2017)).value;
    } else if year == 2018 {
      var o := Harmonize.OrColumn(raw, "IstSonstig", "IstGkfz").value;
      assert y == DropColumns(o, Harmonize.YearDrops(2018)).value;
    } else {
      var m := Harmonize.KeepWhere(raw, "UMONAT", Harmonize.IsNot(12.0)).value;
      var o := Harmonize.OrColumn(m, "IstSonstige", "IstGkfz").value;
      var n := Rename(o, "IstSonstige", "IstSonstig").value;
      assert y == DropColumns(n, Harmonize.YearDrops(2019)).value;
    }
  }

  /**
   * The script and the pipeline clean a year alike: on an accident table
   * whose coordinates are already called Latitude and Longitude, wherever the
   * harmonizer of project/ETLPipeline.py succeeds, the script's cleaning gives
   * the same table, columns in the same order and rows alike.
   */
  lemma LegacyMatchesEtl(raw: Table, year: int)
    requires IsYear(year) && "XGCSWGS84" !in raw.columns && "YGCSWGS84" !in raw.columns
    requires Harmonize.PreprocessCrash(raw, year).Ok?
    ensures LegacyYear(raw, year) == Harmonize.PreprocessCrash(raw, year)
  {
    LegacySucceeds(raw, year);
    var etl := Harmonize.PreprocessCrash(raw, year).value;
    var script := LegacyYear(raw, year).value;
    var names := YearNames(year, raw.columns);
    EtlNames(raw, year);
    LegacyYearNames(raw, year);
    DropListsAgree(year);
    FilterBoth(names, Excluding(Harmonize.YearDrops(year)), Excluding(Harmonize.CommonDrops), Excluding(LegacyDrops(year)));
    assert script.columns == etl.columns;
    Harmonize.PreprocessCrashRows(raw, year);
    LegacyYearRows(raw, year);
    var kept := Filter(raw.rows, Harmonize.KeptBy(year));
    forall i | 0 <= i < |kept| ensures Harmonize.FinishBy(year, raw.columns)(kept[i]) == LegacyBy(year)(kept[i]) {
      RowAgrees(year, raw.columns, kept[i]);
    }
    MapCongruent(kept, Harmonize.FinishBy(year, raw.columns), LegacyBy(year));
    assert script.rows == etl.rows;
  }

  // ---------------------------------------------------------------------------
  // The three years, statement by statement, and the reindexing
  // ---------------------------------------------------------------------------

  predicate AllClean(raw17: Table, raw18: Table, raw19: Table) {
    LegacyYear(raw17, 2017).Ok? && LegacyYear(raw18, 2018).Ok? && LegacyYear(raw19, 2019).Ok?
  }

  /** e is what the cleaning of one of the three years fails with. */
  predicate YearFailure(raw17: Table, raw18: Table, raw19: Table, e: Error) {
    LegacyYear(raw17, 2017) == Err(e) || LegacyYear(raw18, 2018) == Err(e) || LegacyYear(raw19, 2019) == Err(e)
  }

  /** The cleaned years, 2018 and 2019 reindexed to the column order of 2017. */
  function Cleaned(raw17: Table, raw18: Table, raw19: Table): (Table, Table, Table)
    requires AllClean(raw17, raw18, raw19)
  {
    var c17 := LegacyYear(raw17, 2017).value;
    (c17, Reindex(LegacyYear(raw18, 2018).value, c17.columns), Reindex(LegacyYear(raw19, 2019).value, c17.columns))
  }

  /**
   * The cleaning statements of filterData in their order: the two month
   * filters, the interleaved exclusions, the flag merges of 2018 and 2019, the
   * renaming of 2019, the three drops and the reindexing; the error is that of
   * the first statement that fails.
   */
  function CleaningOutcome(raw17: Table, raw18: Table, raw19: Table): Result<(Table, Table, Table)> {
    var m17 :- Harmonize.KeepWhere(raw17, "UMONAT", Harmonize.Is(12.0));
    var m19 :- Harmonize.KeepWhere(raw19, "UMONAT", Harmonize.IsNot(12.0));
    var e :- ExcludedYears(m17, raw18, m19);
    CleaningTail(e)
  }

  /**
   * The interleaved cleaning succeeds exactly when each year's own cleaning
   * does, gives the cleaned years, and fails with the error of one of them.
   */
  lemma CleaningMeans(raw17: Table, raw18: Table, raw19: Table)
    ensures var r := CleaningOutcome(raw17, raw18, raw19);
      && (r.Ok? <==> AllClean(raw17, raw18, raw19))
      && (r.Ok? ==> r.value == Cleaned(raw17, raw18, raw19))
      && (r.Err? ==> YearFailure(raw17, raw18, raw19, r.error))
  {
    var k17 := Harmonize.KeepWhere(raw17, "UMONAT", Harmonize.Is(12.0));
    var k19 := Harmonize.KeepWhere(raw19, "UMONAT", Harmonize.IsNot(12.0));
    if k17.Err? {
      assert LegacyYear(raw17, 2017) == Err(k17.error);
    } else if k19.Err? {
      assert LegacyYear(raw19, 2019) == Err(k19.error);
    } else {
      var x := ExcludedYears(k17.value, raw18, k19.value);
      ExcludedYearsMeans(k17.value, raw18, k19.value);
      if x.Err? {
        CleaningExcluded(raw17, raw18, raw19, k17.value, k19.value);
      } else {
        CleaningAfterExclusions(raw17, raw18, raw19, k17.value, k19.value, x.value);
      }
    }
  }

  /** A failure of the interleaved exclusions is a failure of one year's exclusions. */
  lemma CleaningExcluded(raw17: Table, raw18: Table, raw19: Table, m17: Table, m19: Table)
    requires Harmonize.KeepWhere(raw17, "UMONAT", Harmonize.Is(12.0)) == Ok(m17)
    requires Harmonize.KeepWhere(raw19, "UMONAT", Harmonize.IsNot(12.0)) == Ok(m19)
    requires ExcludedYears(m17, raw18, m19).Err?
    ensures var r := CleaningOutcome(raw17, raw18, raw19);
      r.Err? && !AllClean(raw17, raw18, raw19) && YearFailure(raw17, raw18, raw19, r.error)
  {
    var e := ExcludedYears(m17, raw18, m19).error;
    ExcludedYearsMeans(m17, raw18, m19);
    assert CleaningOutcome(raw17, raw18, raw19) == Err(e);
    if Harmonize.Exclusions(m17) == Err(e) {
      assert LegacyYear(raw17, 2017) == Err(e);
    } else if Harmonize.Exclusions(raw18) == Err(e) {
      assert LegacyYear(raw18, 2018) == Err(e);
    } else {
      assert LegacyYear(raw19, 2019) == Err(e);
    }
  }

  /** Once the exclusions succeed, the rest of the cleaning is each year's rest. */
  lemma CleaningAfterExclusions(raw17: Table, raw18: Table, raw19: Table, m17: Table, m19: Table, e: (Table, Table, Table))
    requires Harmonize.KeepWhere(raw17, "UMONAT", Harmonize.Is(12.0)) == Ok(m17)
    requires Harmonize.KeepWhere(raw19, "UMONAT", Harmonize.IsNot(12.0)) == Ok(m19)
    requires ExcludedYears(m17, raw18, m19) == Ok(e)
    requires e == (Harmonize.Exclusions(m17).value, Harmonize.Exclusions(raw18).value, Harmonize.Exclusions(m19).value)
    requires Harmonize.Exclusions(m17).Ok? && Harmonize.Exclusions(raw18).Ok? && Harmonize.Exclusions(m19).Ok?
    ensures var r := CleaningOutcome(raw17, raw18, raw19);
      && (r.Ok? <==> AllClean(raw17, raw18, raw19))
      && (r.Ok? ==> r.value == Cleaned(raw17, raw18, raw19))
      && (r.Err? ==> YearFailure(raw17, raw18, raw19, r.error))
  {
    YearsAfterExclusions(raw17, raw18, raw19, m17, m19, e);
    assert CleaningOutcome(raw17, raw18, raw19) == CleaningTail(e);
    CleaningTailMeans(e);
  }

  /** Each year's cleaning, once its exclusions have succeeded, is the rest of its statements. */
  lemma YearsAfterExclusions(raw17: Table, raw18: Table, raw19: Table, m17: Table, m19: Table, e: (Table, Table, Table))
    requires Harmonize.KeepWhere(raw17, "UMONAT", Harmonize.Is(12.0)) == Ok(m17)
    requires Harmonize.KeepWhere(raw19, "UMONAT", Harmonize.IsNot(12.0)) == Ok(m19)
    requires Harmonize.Exclusions(m17) == Ok(e.0) && Harmonize.Exclusions(raw18) == Ok(e.1) && Harmonize.Exclusions(m19) == Ok(e.2)
    ensures LegacyYear(raw17, 2017) == DropColumns(e.0, LegacyDrops(2017))
    ensures LegacyYear(raw18, 2018) == LegacyTail2018(e.1)
    ensures LegacyYear(raw19, 2019) == LegacyTail2019(e.2)
  {
    Year2019AfterExclusions(raw19, m19, e.2);
  }

  /** The cleaning of 2019, once its exclusions have succeeded, is the rest of its statements. */
  lemma Year2019AfterExclusions(raw19: Table, m19: Table, e19: Table)
    requires Harmonize.KeepWhere(raw19, "UMONAT", Harmonize.IsNot(12.0)) == Ok(m19)
    requires Harmonize.Exclusions(m19) == Ok(e19)
    ensures LegacyYear(raw19, 2019) == LegacyTail2019(e19)
  {
  }

  /** The statements after the exclusions succeed iff each year's rest does, and fail with one year's error. */
  lemma CleaningTailMeans(e: (Table, Table, Table))
    ensures var r := CleaningTail(e);
      var d17, t18, t19 := DropColumns(e.0, LegacyDrops(2017)), LegacyTail2018(e.1), LegacyTail2019(e.2);
      && (r.Ok? <==> d17.Ok? && t18.Ok? && t19.Ok?)
      && (r.Ok? ==> r.value == (d17.value, Reindex(t18.value, d17.value.columns), Reindex(t19.value, d17.value.columns)))
      && (r.Err? ==> d17 == Err(r.error) || t18 == Err(r.error) || t19 == Err(r.error))
  {
  }

  /** What the script does to 2018 after the exclusions. */
  function LegacyTail2018(e: Table): Result<Table> {
    var o :- Harmonize.OrColumn(e, "IstSonstig", "IstGkfz");
    DropColumns(o, LegacyDrops(2018))
  }

  /** What the script does to 2019 after the exclusions. */
  function LegacyTail2019(e: Table): Result<Table> {
    var o :- Harmonize.OrColumn(e, "IstSonstige", "IstGkfz");
    var n :- Rename(o, "IstSonstige", "IstSonstig");
    DropColumns(n, LegacyDrops(2019))
  }

  /** The cleaning statements after the exclusions, in their order. */
  function CleaningTail(e: (Table, Table, Table)): Result<(Table, Table, Table)> {
    var o18 :- Harmonize.OrColumn(e.1, "IstSonstig", "IstGkfz");
    var o19 :- Harmonize.OrColumn(e.2, "IstSonstige", "IstGkfz");
    var n19 :- Rename(o19, "IstSonstige", "IstSonstig");
    var c17 :- DropColumns(e.0, LegacyDrops(2017));
    var c18 :- DropColumns(o18, LegacyDrops(2018));
    var c19 :- DropColumns(n19, LegacyDrops(2019));
    Ok((c17, Reindex(c18, c17.columns), Reindex(c19, c17.columns)))
  }

  /** The cleaning statements of filterData, one after the other. */
  method CleanYears(raw17: Table, raw18: Table, raw19: Table) returns (r: Result<(Table, Table, Table)>)
    ensures r == CleaningOutcome(raw17, raw18, raw19)
    ensures r.Ok? <==> AllClean(raw17, raw18, raw19)
    ensures r.Ok? ==> r.value == Cleaned(raw17, raw18, raw19)
    ensures r.Err? ==> YearFailure(raw17, raw18, raw19, r.error)
  {
    CleaningMeans(raw17, raw18, raw19);
    var crash2017 :- Harmonize.KeepWhere(raw17, "UMONAT", Harmonize.Is(12.0));
    var crash2019 :- Harmonize.KeepWhere(raw19, "UMONAT", Harmonize.IsNot(12.0));
    var crash2018 := raw18;

    var excluded :- ExcludeYears(crash2017, crash2018, crash2019);
    crash2017, crash2018, crash2019 := excluded.0, excluded.1, excluded.2;

    crash2018 :- Harmonize.OrColumn(crash2018, "IstSonstig", "IstGkfz");
    crash2019 :- Harmonize.OrColumn(crash2019, "IstSonstige", "IstGkfz");
    crash2019 :- Rename(crash2019, "IstSonstige", "IstSonstig");

    crash2017 :- DropColumns(crash2017, LegacyDrops(2017));
    crash2018 :- DropColumns(crash2018, LegacyDrops(2018));
    crash2019 :- DropColumns(crash2019, LegacyDrops(2019));

    var columnOrder := crash2017.columns;
    crash2018 := Reindex(crash2018, columnOrder);
    crash2019 := Reindex(crash2019, columnOrder);
    return Ok((crash2017, crash2018, crash2019));
  }

  /** The column names all three tables have, in the order of the first. */
  function SharedColumns(a: seq<string>, b: seq<string>, c: seq<string>): (s: seq<string>)
    ensures forall x :: x in s <==> x in a && x in b && x in c
  {
    var both := x => x in b && x in c;
    FilterMembers(a, both);
    Filter(a, both)
  }

  /**
   * The twelve exclusion filters of filterData, each of the four applied to
   * the three years before the next: as no filter changes the columns, the
   * first to fail reads the first exclusion column, in filter order, that some
   * year lacks; otherwise each year gets its own four exclusions.
   */
  function ExcludedYears(m17: Table, m18: Table, m19: Table): (r: Result<(Table, Table, Table)>)
  {
    var s := SharedColumns(m17.columns, m18.columns, m19.columns);
    if forall c :: c in Harmonize.ExclusionColumns ==> c in s then
      Ok((Harmonize.Exclusions(m17).value, Harmonize.Exclusions(m18).value, Harmonize.Exclusions(m19).value))
    else Err(KeyError(FirstMissing(Harmonize.ExclusionColumns, s)))
  }

  /**
   * The interleaved exclusions succeed exactly when each year's own four do,
   * giving each year's result; a failure is the failure of one year's own.
   */
  lemma ExcludedYearsMeans(m17: Table, m18: Table, m19: Table)
    ensures var r := ExcludedYears(m17, m18, m19);
      && (r.Ok? <==> Harmonize.Exclusions(m17).Ok? && Harmonize.Exclusions(m18).Ok? && Harmonize.Exclusions(m19).Ok?)
      && (r.Ok? ==> r.value == (Harmonize.Exclusions(m17).value, Harmonize.Exclusions(m18).value, Harmonize.Exclusions(m19).value))
      && (r.Err? ==> Harmonize.Exclusions(m17) == Err(r.error) || Harmonize.Exclusions(m18) == Err(r.error)
                     || Harmonize.Exclusions(m19) == Err(r.error))
  {
    var s := SharedColumns(m17.columns, m18.columns, m19.columns);
    Harmonize.ExclusionsFirstMissing(s);
    Harmonize.ExclusionsFirstMissing(m17.columns);
    Harmonize.ExclusionsFirstMissing(m18.columns);
    Harmonize.ExclusionsFirstMissing(m19.columns);
  }

  /** The twelve exclusion filters in the order filterData applies them. */
  method ExcludeYears(m17: Table, m18: Table, m19: Table) returns (r: Result<(Table, Table, Table)>)
    ensures r == ExcludedYears(m17, m18, m19)
  {
    Harmonize.ExclusionsFirstMissing(SharedColumns(m17.columns, m18.columns, m19.columns));
    ExcludedYearsMeans(m17, m18, m19);
    var crash2017 :- Harmonize.KeepWhere(m17, "IstRad", Harmonize.IsNot(1.0));
    var crash2018 :- Harmonize.KeepWhere(m18, "IstRad", Harmonize.IsNot(1.0));
    var crash2019 :- Harmonize.KeepWhere(m19, "IstRad", Harmonize.IsNot(1.0));
    crash2017 :- Harmonize.KeepWhere(crash2017, "IstFuss", Harmonize.IsNot(1.0));
    crash2018 :- Harmonize.KeepWhere(crash2018, "IstFuss", Harmonize.IsNot(1.0));
    crash2019 :- Harmonize.KeepWhere(crash2019, "IstFuss", Harmonize.IsNot(1.0));

    crash2017 :- Harmonize.KeepWhere(crash2017, "UTYP1", Harmonize.IsNot(3.0));
    crash2018 :- Harmonize.KeepWhere(crash2018, "UTYP1", Harmonize.IsNot(3.0));
    crash2019 :- Harmonize.KeepWhere(crash2019, "UTYP1", Harmonize.IsNot(3.0));
    crash2017 :- Harmonize.KeepWhere(crash2017, "UART", Harmonize.IsNot(6.0));
    crash2018 :- Harmonize.KeepWhere(crash2018, "UART", Harmonize.IsNot(6.0));
    crash2019 :- Harmonize.KeepWhere(crash2019, "UART", Harmonize.IsNot(6.0));
    return Ok((crash2017, crash2018, crash2019));
  }

  /** A reindexed row reads its own cell in every column of the new order and null in no other column. */
  lemma AlignedCells(t: Table, cols: seq<string>, i: nat, c: string)
    requires i < |t.rows|
    ensures Cell(Reindex(t, cols).rows[i], c) == if c in cols then Cell(t.rows[i], c) else Null
  {
  }

  // ---------------------------------------------------------------------------
  // The route numbering of filterData
  // ---------------------------------------------------------------------------

  /** Joining a route cell to "_" raises TypeError on a number; null cells give null. */
  predicate HasNumber(t: Table, c: string) {
    exists i :: 0 <= i < |t.rows| && Cell(t.rows[i], c).Num?
  }

  /** The column order after UniqueID and StreckeID are set and StreckeID is moved to position 1. */
  function MovedColumns(cols: seq<string>): seq<string>
    requires "Strecke" in cols
  {
    var withCounter := if "UniqueID" in cols then cols else cols + ["UniqueID"];
    var withId := if "StreckeID" in withCounter then withCounter else withCounter + ["StreckeID"];
    var rest := Without(withId, "StreckeID");
    assert "Strecke" in rest;
    rest[..1] + ["StreckeID"] + rest[1..]
  }

  /** The counter column survives the move, so that it can be dropped. */
  lemma MovedKeepsCounter(cols: seq<string>)
    requires "Strecke" in cols
    ensures "UniqueID" in MovedColumns(cols)
  {
    var withCounter := if "UniqueID" in cols then cols else cols + ["UniqueID"];
    var withId := if "StreckeID" in withCounter then withCounter else withCounter + ["StreckeID"];
    var rest := Without(withId, "StreckeID");
    assert "Strecke" in rest && "UniqueID" in rest;
    var j :| 0 <= j < |rest| && rest[j] == "UniqueID";
    assert MovedColumns(cols)[if j == 0 then 0 else j + 1] == "UniqueID";
  }

  /** The column order after the numbering, the counter column dropped again. */
  function LegacyIndexedColumns(cols: seq<string>): seq<string>
    requires "Strecke" in cols
  {
    Filter(MovedColumns(cols), Excluding(["UniqueID"]))
  }

  /** A weather row after the numbering: no UniqueID, and its identifier cell. */
  function LegacyIndexedRow(r: Row, id: Value): Row {
    (r - {"UniqueID"})["StreckeID" := id]
  }

  /**
   * What the numbering makes of the weather table: grouping needs the Strecke
   * column, and joining a route cell to "_" fails on a number; every row with a
   * route gets the identifier of its route and its running number within the
   * route, every row without one a null identifier.
   */
  function LegacyIndexed(weather: Table): Result<Table> {
    if "Strecke" !in weather.columns then Err(KeyError("Strecke"))
    else if HasNumber(weather, "Strecke") then Err(TypeError("Strecke"))
    else
      var ids := RouteIndex.Ids(Column(weather, "Strecke"));
      Ok(Table(LegacyIndexedColumns(weather.columns),
               seq(|weather.rows|, i requires 0 <= i < |weather.rows| => LegacyIndexedRow(weather.rows[i], ids[i]))))
  }

  lemma DropCounter(r: Row, k: Value, id: Value)
    ensures DropKeys(r["UniqueID" := k]["StreckeID" := id], ["UniqueID"]) == (r - {"UniqueID"})["StreckeID" := id]
  {
    assert (set c | c in ["UniqueID"]) == {"UniqueID"};
  }

  /** Dropping the counter from the numbered rows leaves the rows the numbering promises. */
  lemma NumberedRows(weather: Table, t: Table, counter: seq<Value>, ids: seq<Value>)
    requires |counter| == |ids| == |weather.rows| == |t.rows|
    requires forall i :: 0 <= i < |t.rows| ==> t.rows[i] == weather.rows[i]["UniqueID" := counter[i]]["StreckeID" := ids[i]]
    ensures forall i :: 0 <= i < |t.rows| ==> DropKeys(t.rows[i], ["UniqueID"]) == LegacyIndexedRow(weather.rows[i], ids[i])
  {
    forall i | 0 <= i < |t.rows|
      ensures DropKeys(t.rows[i], ["UniqueID"]) == LegacyIndexedRow(weather.rows[i], ids[i])
    {
      DropCounter(weather.rows[i], counter[i], ids[i]);
    }
  }

  /** The four statements of the numbering: the counter, the identifier, the move to position 1, the drop of the counter. */
  method IndexWeather(weather: Table) returns (r: Result<Table>)
    ensures r == LegacyIndexed(weather)
  {
    if "Strecke" !in weather.columns {
      return Err(KeyError("Strecke"));
    }
    var keys := Column(weather, "Strecke");
    var counted := SetColumn(weather, "UniqueID", RouteIndex.Kms(keys));
    assert Column(counted, "Strecke") == keys;
    if HasNumber(counted, "Strecke") {
      return Err(TypeError("Strecke"));
    }
    var named := SetColumn(counted, "StreckeID", RouteIndex.Ids(keys));
    assert "Strecke" in Without(named.columns, "StreckeID");
    var moved := MoveColumn(named, "StreckeID", 1);
    assert moved.columns == MovedColumns(weather.columns);
    NumberingDropped(weather, counted, named, moved);
    r := DropColumns(moved, ["UniqueID"]);
  }

  /** Dropping the counter from the numbered and moved table gives what the numbering promises. */
  lemma NumberingDropped(weather: Table, counted: Table, named: Table, moved: Table)
    requires "Strecke" in weather.columns && !HasNumber(weather, "Strecke")
    requires counted == SetColumn(weather, "UniqueID", RouteIndex.Kms(Column(weather, "Strecke")))
    requires named == SetColumn(counted, "StreckeID", RouteIndex.Ids(Column(weather, "Strecke")))
    requires moved.rows == named.rows && moved.columns == MovedColumns(weather.columns)
    ensures DropColumns(moved, ["UniqueID"]) == LegacyIndexed(weather)
  {
    var keys := Column(weather, "Strecke");
    MovedKeepsCounter(weather.columns);
    NumberedRows(weather, moved, RouteIndex.Kms(keys), RouteIndex.Ids(keys));
    assert DropColumns(moved, ["UniqueID"]).value.rows == LegacyIndexed(weather).value.rows;
  }

  /** The numbering fails exactly without a Strecke column or with a number in it. */
  lemma LegacyIndexedFails(weather: Table)
    ensures LegacyIndexed(weather).Err? <==> "Strecke" !in weather.columns || HasNumber(weather, "Strecke")
    ensures "Strecke" !in weather.columns ==> LegacyIndexed(weather) == Err(KeyError("Strecke"))
    ensures "Strecke" in weather.columns && HasNumber(weather, "Strecke") ==> LegacyIndexed(weather) == Err(TypeError("Strecke"))
  {
  }

  /**
   * Every numbered row reads, under StreckeID, the identifier of its route and
   * of its running number within the route, or null when it has no route; it
   * has no UniqueID, and every other column, Strecke among them, is as it was.
   */
  lemma LegacyIndexedCells(weather: Table, i: nat)
    requires LegacyIndexed(weather).Ok? && i < |weather.rows|
    ensures var t := LegacyIndexed(weather).value;
            var keys := Column(weather, "Strecke");
            && |t.rows| == |weather.rows|
            && !keys[i].Num?
            && Cell(t.rows[i], "StreckeID")
               == RouteIndex.IdCell(keys[i], RouteIndex.RunningCount(keys)[i], RouteIndex.HasNull(keys))
            && Cell(t.rows[i], "UniqueID") == Null
            && forall c :: c != "UniqueID" && c != "StreckeID" ==> Cell(t.rows[i], c) == Cell(weather.rows[i], c)
  {
  }

  /** No two weather points get the same identifier from the numbering. */
  lemma LegacyIdsUnique(weather: Table)
    requires LegacyIndexed(weather).Ok?
    ensures RouteIndex.UniqueIds(Column(LegacyIndexed(weather).value, "StreckeID"))
  {
    var keys := Column(weather, "Strecke");
    assert Column(LegacyIndexed(weather).value, "StreckeID") == RouteIndex.Ids(keys);
    RouteIndex.IdsUnique(keys);
  }

  /** The identifiers of one route built from a sequence of running numbers. */
  function IdsOf(route: string, ks: seq<nat>, float: bool): (vs: seq<Value>)
    ensures |vs| == |ks| && forall j :: 0 <= j < |ks| ==> vs[j] == Text(RouteIndex.RouteId(route, ks[j], float))
  {
    seq(|ks|, j requires 0 <= j < |ks| => Text(RouteIndex.RouteId(route, ks[j], float)))
  }

  /** Grouping the identifiers of one route is building identifiers from its grouped numbers. */
  lemma {:induction false} GroupedIds(keys: seq<Value>, ks: seq<nat>, route: string, float: bool)
    requires |keys| == |ks|
    ensures RouteIndex.GroupValues(keys, IdsOf(route, ks, float), Text(route))
            == IdsOf(route, RouteIndex.GroupValues(keys, ks, Text(route)), float)
  {
    if keys != [] {
      var n := |keys|;
      assert IdsOf(route, ks, float)[..n - 1] == IdsOf(route, ks[..n - 1], float);
      GroupedIds(keys[..n - 1], ks[..n - 1], route, float);
      var g := RouteIndex.GroupValues(keys[..n - 1], ks[..n - 1], Text(route));
      if keys[n - 1] == Text(route) {
        assert IdsOf(route, g + [ks[n - 1]], float) == IdsOf(route, g, float) + [Text(RouteIndex.RouteId(route, ks[n - 1], float))];
      }
    }
  }

  /**
   * Within each route the numbering gives the identifiers route_1, route_2, ...,
   * route_n in row order, n being the number of points of that route (printed
   * as route_1.0, ... once some point has no route).
   */
  lemma LegacyIdsEnumerateRoute(weather: Table, route: string)
    requires LegacyIndexed(weather).Ok?
    ensures var t := LegacyIndexed(weather).value;
            var keys := Column(t, "Strecke");
            var float := RouteIndex.HasNull(keys);
            RouteIndex.GroupValues(keys, Column(t, "StreckeID"), Text(route))
            == seq(Occurrences(keys, Text(route)), j requires j >= 0 => Text(RouteIndex.RouteId(route, j + 1, float)))
  {
    var keys := Column(weather, "Strecke");
    var ks := RouteIndex.RunningCount(keys);
    var float := RouteIndex.HasNull(keys);
    var t := LegacyIndexed(weather).value;
    assert Column(t, "Strecke") == keys;
    assert Column(t, "StreckeID") == RouteIndex.Ids(keys);
    RouteIndex.GroupValuesAgree(keys, RouteIndex.Ids(keys), IdsOf(route, ks, float), Text(route));
    GroupedIds(keys, ks, route, float);
    RouteIndex.RunningCountEnumeratesGroups(keys, Text(route));
  }

  /**
   * The layout of the numbered weather table when it starts with Strecke and has
   * neither helper column yet: Strecke, then StreckeID, then the other columns
   * in their original order.
   */
  lemma LegacyIndexedLayout(cols: seq<string>)
    requires |cols| > 0 && cols[0] == "Strecke"
    requires "UniqueID" !in cols && "StreckeID" !in cols
    ensures LegacyIndexedColumns(cols) == ["Strecke", "StreckeID"] + cols[1..]
  {
    var withCounter := cols + ["UniqueID"];
    RouteIndex.WithoutLast(withCounter, "StreckeID");
    assert MovedColumns(cols) == ["Strecke", "StreckeID"] + cols[1..] + ["UniqueID"];
    FilterConcat(["Strecke", "StreckeID"] + cols[1..], ["UniqueID"], Excluding(["UniqueID"]));
    FilterTrue(["Strecke", "StreckeID"] + cols[1..], Excluding(["UniqueID"]));
  }

  // ---------------------------------------------------------------------------
  // filterData on the database
  // ---------------------------------------------------------------------------

  /** The per-year tables of accidents near a weather point that filterData writes. */
  const NearbyNames: seq<string> := ["CrashData2017_nearby", "CrashData2018_nearby", "CrashData2019_nearby"]

  /** Every table filterData may write. */
  const FilterOutputs: seq<string> := NearbyNames + ["CrashData", "WeatherDataID"]

  datatype Inputs = Inputs(weather: Table, raw17: Table, raw18: Table, raw19: Table)

  /** The four input tables, or the first of them the database lacks. */
  function ReadInputs(tables: map<string, Table>): (r: Result<Inputs>)
    ensures r.Ok? <==> "WeatherData" in tables && "CrashData2017" in tables && "CrashData2018" in tables && "CrashData2019" in tables
    ensures r.Ok? ==> r.value == Inputs(tables["WeatherData"], tables["CrashData2017"], tables["CrashData2018"], tables["CrashData2019"])
    ensures r.Err? ==> r.error == TableNotFound(
      if "WeatherData" !in tables then "WeatherData"
      else if "CrashData2017" !in tables then "CrashData2017"
      else if "CrashData2018" !in tables then "CrashData2018"
      else "CrashData2019")
  {
    var w :- Lookup(tables, "WeatherData");
    var a :- Lookup(tables, "CrashData2017");
    var b :- Lookup(tables, "CrashData2018");
    var c :- Lookup(tables, "CrashData2019");
    Ok(Inputs(w, a, b, c))
  }

  /** The four read_sql_table calls at the head of filterData. */
  method ReadAll(store: Store) returns (r: Result<Inputs>)
    ensures r == ReadInputs(store.tables)
  {
    var w :- store.Read("WeatherData");
    var a :- store.Read("CrashData2017");
    var b :- store.Read("CrashData2018");
    var c :- store.Read("CrashData2019");
    return Ok(Inputs(w, a, b, c));
  }

  /** The accidents of each cleaned year that lie within the threshold of some weather point. */
  function NearbyYears(c: (Table, Table, Table), weather: Table, dist: Dist): Result<(Table, Table, Table)> {
    var n17 :- Spatial.Nearby(c.0, weather, dist, ThresholdDistance);
    var n18 :- Spatial.Nearby(c.1, weather, dist, ThresholdDistance);
    var n19 :- Spatial.Nearby(c.2, weather, dist, ThresholdDistance);
    Ok((n17, n18, n19))
  }

  /** The accidents of the three years, each labelled with its nearest route point, and the numbered weather table. */
  function Assigned(n: (Table, Table, Table), weather: Table, dist: Dist): Result<(Table, Table)> {
    var indexed :- LegacyIndexed(weather);
    var labelled :- Spatial.Assign(Concat([n.0, n.1, n.2]), indexed, dist, ThresholdDistance);
    Ok((labelled, indexed))
  }

  /**
   * What filterData does to the database: a missing input, a failing year or a
   * failing distance computation writes nothing; once the three nearby tables
   * are written a failure of the numbering or the assignment leaves them
   * written; a success also writes the labelled accidents and the numbered
   * weather points. A failing year is reported with the error of the first
   * cleaning statement that fails.
   */
  ghost predicate FilterOutcome(before: map<string, Table>, after: map<string, Table>, dist: Dist, r: Result<()>) {
    match ReadInputs(before)
    case Err(e) => r == Err(e) && after == before
    case Ok(inp) =>
      if !AllClean(inp.raw17, inp.raw18, inp.raw19) then
        r.Err? && CleaningOutcome(inp.raw17, inp.raw18, inp.raw19) == Err(r.error) && after == before
      else
        match NearbyYears(Cleaned(inp.raw17, inp.raw18, inp.raw19), inp.weather, dist)
        case Err(e) => r == Err(e) && after == before
        case Ok(n) =>
          match Assigned(n, inp.weather, dist)
          case Err(e) => r == Err(e) && after == AfterNearby(before, n)
          case Ok(out) => r == Ok(()) && after == AfterFilter(before, n, out)
  }

  /** A failure of the cleaning is the failure of one year's own cleaning, and nothing is written. */
  lemma FilterYearFailure(before: map<string, Table>, after: map<string, Table>, dist: Dist, r: Result<()>)
    requires FilterOutcome(before, after, dist, r)
    requires ReadInputs(before).Ok?
    requires var inp := ReadInputs(before).value; !AllClean(inp.raw17, inp.raw18, inp.raw19)
    ensures r.Err? && after == before
    ensures var inp := ReadInputs(before).value; YearFailure(inp.raw17, inp.raw18, inp.raw19, r.error)
  {
    var inp := ReadInputs(before).value;
    CleaningMeans(inp.raw17, inp.raw18, inp.raw19);
  }

  /** The database once the three nearby tables are written. */
  function AfterNearby(before: map<string, Table>, n: (Table, Table, Table)): map<string, Table> {
    before[NearbyNames[0] := n.0][NearbyNames[1] := n.1][NearbyNames[2] := n.2]
  }

  /** The database once the labelled accidents and the numbered weather points are written too. */
  function AfterFilter(before: map<string, Table>, n: (Table, Table, Table), out: (Table, Table)): map<string, Table> {
    AfterNearby(before, n)["CrashData" := out.0]["WeatherDataID" := out.1]
  }

  /** Each of the five written tables reads back as written. */
  lemma AfterFilterReads(before: map<string, Table>, n: (Table, Table, Table), out: (Table, Table))
    ensures var after := AfterFilter(before, n, out);
      && NearbyNames[0] in after && after[NearbyNames[0]] == n.0
      && NearbyNames[1] in after && after[NearbyNames[1]] == n.1
      && NearbyNames[2] in after && after[NearbyNames[2]] == n.2
      && "CrashData" in after && after["CrashData"] == out.0
      && "WeatherDataID" in after && after["WeatherDataID"] == out.1
  {
    assert NearbyNames[0] != NearbyNames[1] && NearbyNames[0] != NearbyNames[2] && NearbyNames[1] != NearbyNames[2];
  }

  /** The distance loops of the three years. */
  method NearbyAll(c: (Table, Table, Table), weather: Table, dist: Dist) returns (r: Result<(Table, Table, Table)>)
    ensures r == NearbyYears(c, weather, dist)
  {
    var n17 :- Spatial.ConnectNearby(c.0, weather, dist, ThresholdDistance);
    var n18 :- Spatial.ConnectNearby(c.1, weather, dist, ThresholdDistance);
    var n19 :- Spatial.ConnectNearby(c.2, weather, dist, ThresholdDistance);
    return Ok((n17, n18, n19));
  }

  /** The concatenation, the numbering and the assignment loop. */
  method AssignAll(n: (Table, Table, Table), weather: Table, dist: Dist) returns (r: Result<(Table, Table)>)
    ensures r == Assigned(n, weather, dist)
  {
    var crash := Concat([n.0, n.1, n.2]);
    var indexed :- IndexWeather(weather);
    var labelled :- Spatial.AssignRoutes(crash, indexed, dist, ThresholdDistance);
    return Ok((labelled, indexed));
  }

  /** filterData: its statements in their order, the database writes where the script makes them. */
  method FilterData(store: Store, dist: Dist) returns (r: Result<()>)
    modifies store
    ensures FilterOutcome(old(store.tables), store.tables, dist, r)
  {
    var inp :- ReadAll(store);
    var cleaned :- CleanYears(inp.raw17, inp.raw18, inp.raw19);
    var n :- NearbyAll(cleaned, inp.weather, dist);
    store.Write(NearbyNames[0], n.0);
    store.Write(NearbyNames[1], n.1);
    store.Write(NearbyNames[2], n.2);
    var out :- AssignAll(n, inp.weather, dist);
    store.Write("CrashData", out.0);
    store.Write("WeatherDataID", out.1);
    return Ok(());
  }

  /** Only the tables filterData writes can differ between before and after. */
  ghost predicate OthersKept(before: map<string, Table>, after: map<string, Table>, names: seq<string>) {
    forall n :: n !in names ==> (n in after <==> n in before) && (n in before ==> after[n] == before[n])
  }

  /** filterData touches no table other than the five it writes. */
  lemma FilterKeepsOthers(before: map<string, Table>, after: map<string, Table>, dist: Dist, r: Result<()>)
    requires FilterOutcome(before, after, dist, r)
    ensures OthersKept(before, after, FilterOutputs)
    ensures r.Err? ==> "CrashData" !in after || after["CrashData"] == before["CrashData"]
  {
  }

  /** Every accident that gets a route has the route and identifier of some numbered weather point. */
  lemma AssignedCovered(crash: Table, weather: Table, dist: Dist)
    requires Spatial.Assign(crash, weather, dist, ThresholdDistance).Ok?
    ensures Aggregate.Covered(weather.rows, Spatial.Assign(crash, weather, dist, ThresholdDistance).value.rows)
  {
    var out := Spatial.Assign(crash, weather, dist, ThresholdDistance).value;
    forall k | 0 <= k < |out.rows| && Aggregate.Labelled(out.rows[k])
      ensures exists i :: 0 <= i < |weather.rows| && Aggregate.Key(weather.rows[i]) == Aggregate.Key(out.rows[k])
    {
      Spatial.AssignLabels(crash, weather, dist, ThresholdDistance, k);
    }
  }

  /** Unique identifiers make unique join keys among the labelled weather points. */
  lemma LegacyKeysUnique(weather: Table)
    requires LegacyIndexed(weather).Ok?
    ensures Aggregate.UniqueKeys(LegacyIndexed(weather).value.rows)
  {
    var t := LegacyIndexed(weather).value;
    LegacyIdsUnique(weather);
    forall i, j | 0 <= i < j < |t.rows| && Aggregate.Labelled(t.rows[i]) && Aggregate.Labelled(t.rows[j])
      ensures Aggregate.Key(t.rows[i]) != Aggregate.Key(t.rows[j])
    {
      assert Column(t, "StreckeID")[i] != Column(t, "StreckeID")[j];
    }
  }

  /** The test the distance loops apply: some weather point lies within the threshold. */
  function Near(weather: Table, dist: Dist): Row -> bool {
    Spatial.NearBy(Spatial.Points(weather), dist, ThresholdDistance)
  }

  /** The nearby tables hold the accidents of each year within the threshold of some weather point. */
  lemma NearbyYearsRows(c: (Table, Table, Table), weather: Table, dist: Dist)
    requires NearbyYears(c, weather, dist).Ok?
    ensures var n := NearbyYears(c, weather, dist).value;
      var near := Spatial.NearBy(Spatial.Points(weather), dist, ThresholdDistance);
      && n.0.rows == Filter(c.0.rows, near)
      && n.1.rows == Filter(c.1.rows, near)
      && n.2.rows == Filter(c.2.rows, near)
  {
    Spatial.NearbyKeeps(c.0, weather, dist, ThresholdDistance);
    Spatial.NearbyKeeps(c.1, weather, dist, ThresholdDistance);
    Spatial.NearbyKeeps(c.2, weather, dist, ThresholdDistance);
  }

  /**
   * The assignment keeps one row per nearby accident, routes each one at a
   * numbered weather point, and leaves the numbered table with distinct
   * identifiers and join keys.
   */
  lemma AssignedFacts(n: (Table, Table, Table), weather: Table, dist: Dist)
    requires Assigned(n, weather, dist).Ok?
    ensures var out := Assigned(n, weather, dist).value;
      && out.1 == LegacyIndexed(weather).value
      && RouteIndex.UniqueIds(Column(out.1, "StreckeID"))
      && Aggregate.UniqueKeys(out.1.rows)
      && Aggregate.Covered(out.1.rows, out.0.rows)
      && |out.0.rows| == |n.0.rows| + |n.1.rows| + |n.2.rows|
  {
    var out := Assigned(n, weather, dist).value;
    LegacyIdsUnique(weather);
    LegacyKeysUnique(weather);
    var crash := Concat([n.0, n.1, n.2]);
    assert out.0 == Spatial.Assign(crash, out.1, dist, ThresholdDistance).value;
    AssignedCovered(crash, out.1, dist);
    ConcatThree(n.0, n.1, n.2);
    if |crash.rows| > 0 {
      Spatial.AssignLabels(crash, out.1, dist, ThresholdDistance, 0);
    }
  }

  /**
   * After a successful filterData: the nearby tables hold the cleaned accidents
   * near some weather point, WeatherDataID is the numbered weather table with
   * distinct identifiers and join keys, and CrashData holds one row for each
   * nearby accident, every routed one at a numbered weather point.
   */
  lemma FilterSucceeded(before: map<string, Table>, after: map<string, Table>, dist: Dist)
    requires FilterOutcome(before, after, dist, Ok(()))
    ensures ReadInputs(before).Ok?
    ensures var inp := ReadInputs(before).value; AllClean(inp.raw17, inp.raw18, inp.raw19)
    ensures forall k :: 0 <= k < 3 ==> NearbyNames[k] in after
    ensures var inp := ReadInputs(before).value;
      after[NearbyNames[0]].rows == Filter(Cleaned(inp.raw17, inp.raw18, inp.raw19).0.rows, Near(inp.weather, dist))
    ensures var inp := ReadInputs(before).value;
      after[NearbyNames[1]].rows == Filter(Cleaned(inp.raw17, inp.raw18, inp.raw19).1.rows, Near(inp.weather, dist))
    ensures var inp := ReadInputs(before).value;
      after[NearbyNames[2]].rows == Filter(Cleaned(inp.raw17, inp.raw18, inp.raw19).2.rows, Near(inp.weather, dist))
    ensures "WeatherDataID" in after && "CrashData" in after
    ensures after["WeatherDataID"] == LegacyIndexed(ReadInputs(before).value.weather).value
    ensures RouteIndex.UniqueIds(Column(after["WeatherDataID"], "StreckeID"))
    ensures Aggregate.UniqueKeys(after["WeatherDataID"].rows)
    ensures Aggregate.Covered(after["WeatherDataID"].rows, after["CrashData"].rows)
    ensures |after["CrashData"].rows| == |after[NearbyNames[0]].rows| + |after[NearbyNames[1]].rows| + |after[NearbyNames[2]].rows|
  {
    FilterOkShape(before, after, dist);
    var inp := ReadInputs(before).value;
    var n := NearbyYears(Cleaned(inp.raw17, inp.raw18, inp.raw19), inp.weather, dist).value;
    var out := Assigned(n, inp.weather, dist).value;
    AfterFilterReads(before, n, out);
    WrittenTables(inp, n, out, after, dist);
  }

  /** A successful filterData read its inputs, cleaned, filtered and labelled, and wrote the five results. */
  lemma FilterOkShape(before: map<string, Table>, after: map<string, Table>, dist: Dist)
    requires FilterOutcome(before, after, dist, Ok(()))
    ensures ReadInputs(before).Ok?
    ensures var inp := ReadInputs(before).value; AllClean(inp.raw17, inp.raw18, inp.raw19)
    ensures var inp := ReadInputs(before).value;
      NearbyYears(Cleaned(inp.raw17, inp.raw18, inp.raw19), inp.weather, dist).Ok?
    ensures var inp := ReadInputs(before).value;
      var n := NearbyYears(Cleaned(inp.raw17, inp.raw18, inp.raw19), inp.weather, dist).value;
      Assigned(n, inp.weather, dist).Ok? && after == AfterFilter(before, n, Assigned(n, inp.weather, dist).value)
  {
  }

  /** The facts FilterSucceeded states, from the five tables filterData wrote. */
  lemma WrittenTables(inp: Inputs, n: (Table, Table, Table), out: (Table, Table), after: map<string, Table>, dist: Dist)
    requires AllClean(inp.raw17, inp.raw18, inp.raw19)
    requires NearbyYears(Cleaned(inp.raw17, inp.raw18, inp.raw19), inp.weather, dist) == Ok(n)
    requires Assigned(n, inp.weather, dist) == Ok(out)
    requires NearbyNames[0] in after && after[NearbyNames[0]] == n.0
    requires NearbyNames[1] in after && after[NearbyNames[1]] == n.1
    requires NearbyNames[2] in after && after[NearbyNames[2]] == n.2
    requires "CrashData" in after && after["CrashData"] == out.0
    requires "WeatherDataID" in after && after["WeatherDataID"] == out.1
    ensures after[NearbyNames[0]].rows == Filter(Cleaned(inp.raw17, inp.raw18, inp.raw19).0.rows, Near(inp.weather, dist))
    ensures after[NearbyNames[1]].rows == Filter(Cleaned(inp.raw17, inp.raw18, inp.raw19).1.rows, Near(inp.weather, dist))
    ensures after[NearbyNames[2]].rows == Filter(Cleaned(inp.raw17, inp.raw18, inp.raw19).2.rows, Near(inp.weather, dist))
    ensures after["WeatherDataID"] == LegacyIndexed(inp.weather).value
    ensures RouteIndex.UniqueIds(Column(after["WeatherDataID"], "StreckeID"))
    ensures Aggregate.UniqueKeys(after["WeatherDataID"].rows)
    ensures Aggregate.Covered(after["WeatherDataID"].rows, after["CrashData"].rows)
    ensures |after["CrashData"].rows| == |after[NearbyNames[0]].rows| + |after[NearbyNames[1]].rows| + |after[NearbyNames[2]].rows|
  {
    var c := Cleaned(inp.raw17, inp.raw18, inp.raw19);
    var near := Near(inp.weather, dist);
    NearbyYearsRows(c, inp.weather, dist);
    assert n.0.rows == Filter(c.0.rows, near) && n.1.rows == Filter(c.1.rows, near) && n.2.rows == Filter(c.2.rows, near);
    AssignedFacts(n, inp.weather, dist);
    assert out.1 == LegacyIndexed(inp.weather).value;
    assert RouteIndex.UniqueIds(Column(out.1, "StreckeID")) && Aggregate.UniqueKeys(out.1.rows);
    assert Aggregate.Covered(out.1.rows, out.0.rows);
    assert |out.0.rows| == |n.0.rows| + |n.1.rows| + |n.2.rows|;
  }

  // ---------------------------------------------------------------------------
  // connectData
  // ---------------------------------------------------------------------------

  /** The filled crash count of every weather point. */
  function CrashCounts(crash: Table, weather: Table): (xs: seq<real>)
    ensures |xs| == |weather.rows|
    ensures forall i :: 0 <= i < |xs| ==> xs[i] == Aggregate.CountOf(crash.rows, weather.rows[i]) as real
  {
    seq(|weather.rows|, i requires 0 <= i < |weather.rows| => Aggregate.CountOf(crash.rows, weather.rows[i]) as real)
  }

  /**
   * connectData on its two inputs: the accidents are grouped by route and
   * route point, the counts joined to the weather points, missing counts
   * filled with 0 and scaled from their [min, max] to [0, 100].
   */
  function Connected(crash: Table, weather: Table): (r: Result<Table>)
    ensures r.Ok? <==> && (forall c :: c in Aggregate.Keys ==> c in crash.columns)
                       && (forall c :: c in Aggregate.Keys ==> c in weather.columns)
                       && "CrashCount" !in weather.columns
    ensures r.Err? ==>
              r.error == if "Strecke" !in crash.columns then KeyError("Strecke")
                         else if "StreckeID" !in crash.columns then KeyError("StreckeID")
                         else if "Strecke" !in weather.columns then KeyError("Strecke")
                         else if "StreckeID" !in weather.columns then KeyError("StreckeID")
                         else DuplicateColumn("CrashCount")
    ensures r.Ok? ==> && |r.value.rows| == |weather.rows|
                      && r.value.columns == weather.columns + ["CrashCount"]
                           + (if "NormalizedCrashCount" in weather.columns then [] else ["NormalizedCrashCount"])
  {
    var _ :- NeedColumns(crash, Aggregate.Keys);
    var _ :- NeedColumns(weather, Aggregate.Keys);
    var joined :- Aggregate.CountJoin(weather, crash, "CrashCount");
    var filled := Normalize.FillZero(joined, "CrashCount").value;
    Normalize.NormalizeColumn(filled, "CrashCount", "NormalizedCrashCount")
  }

  /**
   * Every weather point keeps its cells, gets the number of accidents with its
   * route and route point as CrashCount, and that number scaled to [0, 100]
   * and rounded to one decimal as NormalizedCrashCount.
   */
  lemma ConnectedCells(crash: Table, weather: Table, i: nat)
    requires Connected(crash, weather).Ok? && i < |weather.rows|
    ensures var row := Connected(crash, weather).value.rows[i];
      var xs := CrashCounts(crash, weather);
      && Cell(row, "CrashCount") == Num(Aggregate.CountOf(crash.rows, weather.rows[i]) as real)
      && Cell(row, "NormalizedCrashCount") == Normalize.RoundCell(Normalize.Scale(Num(xs[i]), MinOf(xs), MaxOf(xs), 100.0))
      && forall c :: c != "CrashCount" && c != "NormalizedCrashCount" ==> Cell(row, c) == Cell(weather.rows[i], c)
  {
    var joined := Aggregate.CountJoin(weather, crash, "CrashCount").value;
    var filled := Normalize.FillZero(joined, "CrashCount").value;
    Aggregate.FilledCountCell(crash.rows, weather.rows[i]);
    assert Normalize.Counts(filled, "CrashCount") == CrashCounts(crash, weather) by {
      forall k | 0 <= k < |weather.rows|
        ensures Normalize.Counts(filled, "CrashCount")[k] == CrashCounts(crash, weather)[k]
      {
        Aggregate.FilledCountCell(crash.rows, weather.rows[k]);
      }
    }
  }

  /** The normalized counts lie in [0, 100], 0 at the least and 100 at the most count; all null when the counts are all equal. */
  lemma ConnectedRange(crash: Table, weather: Table, i: nat)
    requires Connected(crash, weather).Ok? && i < |weather.rows|
    ensures var v := Cell(Connected(crash, weather).value.rows[i], "NormalizedCrashCount");
      var xs := CrashCounts(crash, weather);
      && (v.Null? <==> MinOf(xs) == MaxOf(xs))
      && (MinOf(xs) != MaxOf(xs) ==> v.Num? && 0.0 <= v.x <= 100.0)
      && (MinOf(xs) != MaxOf(xs) && xs[i] == MinOf(xs) ==> v == Num(0.0))
      && (MinOf(xs) != MaxOf(xs) && xs[i] == MaxOf(xs) ==> v == Num(100.0))
  {
    ConnectedCells(crash, weather, i);
    Normalize.RoundedScaleRange(CrashCounts(crash, weather), i);
  }

  lemma {:induction false} ColumnSumFilled(rs: seq<Row>, ws: seq<Row>, view: seq<Row>, c: string)
    requires |rs| == |ws|
    requires forall i :: 0 <= i < |rs| ==> Cell(rs[i], c) == Num(Aggregate.CountOf(view, ws[i]) as real)
    ensures Aggregate.ColumnSum(rs, c) == Aggregate.TotalCount(ws, view) as real
  {
    if rs != [] {
      ColumnSumFilled(rs[..|rs| - 1], ws[..|ws| - 1], view, c);
    }
  }

  /**
   * The crash counts add up to the number of accidents that have a route,
   * when no two weather points share a key and every routed accident is at
   * a weather point.
   */
  lemma ConnectedTotal(crash: Table, weather: Table)
    requires Connected(crash, weather).Ok?
    requires Aggregate.UniqueKeys(weather.rows) && Aggregate.Covered(weather.rows, crash.rows)
    ensures Aggregate.ColumnSum(Connected(crash, weather).value.rows, "CrashCount") == Aggregate.LabelledCount(crash.rows) as real
  {
    var rs := Connected(crash, weather).value.rows;
    forall i | 0 <= i < |rs| ensures Cell(rs[i], "CrashCount") == Num(Aggregate.CountOf(crash.rows, weather.rows[i]) as real) {
      ConnectedCells(crash, weather, i);
    }
    ColumnSumFilled(rs, weather.rows, crash.rows, "CrashCount");
    Aggregate.CountsAddUp(weather.rows, crash.rows);
  }

  /** What connectData leaves in the database: WeatherCrashData, or nothing new when a read or a step fails. */
  ghost predicate ConnectOutcome(before: map<string, Table>, after: map<string, Table>, r: Result<()>) {
    match ConnectInputs(before)
    case Err(e) => r == Err(e) && after == before
    case Ok(t) => r == Ok(()) && after == before["WeatherCrashData" := t]
  }

  /** The table connectData writes: both inputs read in order, then connected. */
  function ConnectInputs(tables: map<string, Table>): Result<Table> {
    var crash :- Lookup(tables, "CrashData");
    var weather :- Lookup(tables, "WeatherDataID");
    Connected(crash, weather)
  }

  /** connectData: its statements in their order. */
  method ConnectData(store: Store) returns (r: Result<()>)
    modifies store
    ensures ConnectOutcome(old(store.tables), store.tables, r)
  {
    var crash :- store.Read("CrashData");
    var weather :- store.Read("WeatherDataID");
    var _ :- NeedColumns(crash, Aggregate.Keys);
    var _ :- NeedColumns(weather, Aggregate.Keys);
    var joined :- Aggregate.CountJoin(weather, crash, "CrashCount");
    var filled := Normalize.FillZero(joined, "CrashCount").value;
    var normalized :- Normalize.NormalizeColumn(filled, "CrashCount", "NormalizedCrashCount");
    store.Write("WeatherCrashData", normalized);
    return Ok(());
  }

  /**
   * filterData followed by connectData: the crash counts of WeatherCrashData
   * add up to the number of accidents filterData gave a route.
   */
  lemma LegacyCountsAddUp(t0: map<string, Table>, t1: map<string, Table>, t2: map<string, Table>, dist: Dist)
    requires FilterOutcome(t0, t1, dist, Ok(()))
    requires ConnectOutcome(t1, t2, Ok(()))
    ensures "WeatherCrashData" in t2 && "CrashData" in t1
    ensures Aggregate.ColumnSum(t2["WeatherCrashData"].rows, "CrashCount") == Aggregate.LabelledCount(t1["CrashData"].rows) as real
  {
    FilterSucceeded(t0, t1, dist);
    ConnectedTotal(t1["CrashData"], t1["WeatherDataID"]);
  }

  /**
   * main without the download: filterData, then connectData when it
   * succeeds; mid is the database between the two.
   */
  method RunLegacy(store: Store, dist: Dist) returns (r: Result<()>, ghost mid: map<string, Table>)
    modifies store
    ensures r.Ok? ==> FilterOutcome(old(store.tables), mid, dist, Ok(())) && ConnectOutcome(mid, store.tables, Ok(()))
    ensures r.Err? ==> || (FilterOutcome(old(store.tables), store.tables, dist, r) && mid == store.tables)
                       || (FilterOutcome(old(store.tables), mid, dist, Ok(())) && ConnectOutcome(mid, store.tables, r))
  {
    r := FilterData(store, dist);
    mid := store.tables;
    if r.Err? {
      return;
    }
    r := ConnectData(store);
  }
}
