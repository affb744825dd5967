/**
 * Harmonize: the per-year cleaning of the accident tables before they are
 * matched with the weather points. The coordinate columns are renamed, a
 * month filter applies to 2017 and 2019, the "other vehicle" flag absorbs the
 * goods-vehicle flag in 2018 and 2019, accidents with bicycles, pedestrians,
 * turning accidents and accidents of kind 6 are removed, and the per-year
 * bookkeeping columns are dropped.
 */
module Harmonize {
  import opened Tables

  // ---------------------------------------------------------------------------
  // Python's | on integers
  // ---------------------------------------------------------------------------

  function Abs(a: int): nat { if a < 0 then -a else a }

  /** Bitwise or on unbounded two's-complement integers, as Python computes it. */
  function BitOr(a: int, b: int): int
    decreases Abs(a) + Abs(b)
  {
    if a == 0 then b
    else if b == 0 then a
    else if a == -1 || b == -1 then -1
    else 2 * BitOr(a / 2, b / 2) + (if a % 2 == 1 || b % 2 == 1 then 1 else 0)
  }

  /** On 0/1 flags, | is logical or. */
  lemma FlagOr(a: int, b: int)
    requires (a == 0 || a == 1) && (b == 0 || b == 1)
    ensures BitOr(a, b) == if a == 1 || b == 1 then 1 else 0
  {
    if a == 1 && b == 1 {
      assert BitOr(0, 0) == 0;
    }
  }

  /** On non-negative integers, | never clears a bit: the result bounds both operands. */
  lemma {:induction false} BitOrCovers(a: int, b: int)
    requires a >= 0 && b >= 0
    ensures a <= BitOr(a, b) <= a + b && b <= BitOr(a, b)
    decreases a + b
  {
    if a != 0 && b != 0 {
      BitOrCovers(a / 2, b / 2);
    }
  }

  // ---------------------------------------------------------------------------
  // The column operations the harmonizer uses
  // ---------------------------------------------------------------------------

  /** A number without fractional part: what pandas' integer columns hold. */
  predicate IsInt(v: Value) {
    v.Num? && v.x.Floor as real == v.x
  }

  /** The | of two cells; null when the operation is undefined. */
  function OrValue(a: Value, b: Value): Value {
    if IsInt(a) && IsInt(b) then Num(BitOr(a.x.Floor, b.x.Floor) as real) else Null
  }

  function OrRow(r: Row, target: string, other: string): Row {
    r[target := OrValue(Cell(r, target), Cell(r, other))]
  }

  predicate AllInt(t: Table, c: string) {
    forall i :: 0 <= i < |t.rows| ==> IsInt(Cell(t.rows[i], c))
  }

  /**
   * df[target] = df[target] | df[other]: both columns must exist, and every
   * row must hold integers in both, or | raises TypeError. A missing value
   * counts as a non-integer.
   */
  function OrColumn(t: Table, target: string, other: string): (r: Result<Table>)
    ensures r.Err? <==> target !in t.columns || other !in t.columns || !AllInt(t, target) || !AllInt(t, other)
    ensures r.Err? ==> r.error == (if target !in t.columns then KeyError(target)
                                   else if other !in t.columns then KeyError(other)
                                   else TypeError(target))
    ensures r.Ok? ==> r.value.columns == t.columns && |r.value.rows| == |t.rows|
    ensures r.Ok? ==> forall i :: 0 <= i < |t.rows| ==> r.value.rows[i] == OrRow(t.rows[i], target, other)
  {
    if target !in t.columns then Err(KeyError(target))
    else if other !in t.columns then Err(KeyError(other))
    else if !AllInt(t, target) || !AllInt(t, other) then Err(TypeError(target))
    else
      var vs := seq(|t.rows|, i requires 0 <= i < |t.rows| => OrValue(Cell(t.rows[i], target), Cell(t.rows[i], other)));
      Ok(SetColumn(t, target, vs))
  }

  /** The row predicate "the cell of column c satisfies p". */
  function CellIs(c: string, p: Value -> bool): Row -> bool {
    r => p(Cell(r, c))
  }

  function Is(k: real): Value -> bool { v => v == Num(k) }

  function IsNot(k: real): Value -> bool { v => v != Num(k) }

  /** df[df[c] <op> k]: the rows whose cell in c passes, in order; a missing column is a KeyError. */
  function KeepWhere(t: Table, c: string, p: Value -> bool): (r: Result<Table>)
    ensures r.Err? <==> c !in t.columns
    ensures r.Err? ==> r.error == KeyError(c)
    ensures r.Ok? ==> r.value.columns == t.columns && r.value.rows == Filter(t.rows, CellIs(c, p))
  {
    if c !in t.columns then Err(KeyError(c)) else Ok(Where(t, CellIs(c, p)))
  }

  /** The four exclusions every year shares: bicycles, pedestrians, turning accidents, kind 6. */
  function Exclusions(t: Table): (r: Result<Table>)
    ensures r.Err? <==> exists c :: c in ExclusionColumns && c !in t.columns
    ensures r.Err? ==> r.error == KeyError(FirstMissing(ExclusionColumns, t.columns))
    ensures r.Ok? ==> r.value.columns == t.columns
  {
    ExclusionsFirstMissing(t.columns);
    var f1 :- KeepWhere(t, "IstRad", IsNot(1.0));
    var f2 :- KeepWhere(f1, "IstFuss", IsNot(1.0));
    var f3 :- KeepWhere(f2, "UTYP1", IsNot(3.0));
    KeepWhere(f3, "UART", IsNot(6.0))
  }

  const ExclusionColumns: seq<string> := ["IstRad", "IstFuss", "UTYP1", "UART"]

  /** The first exclusion column a table lacks, in the order the filters read them. */
  lemma ExclusionsFirstMissing(cols: seq<string>)
    ensures "IstRad" !in cols ==> FirstMissing(ExclusionColumns, cols) == "IstRad"
    ensures "IstRad" in cols && "IstFuss" !in cols ==> FirstMissing(ExclusionColumns, cols) == "IstFuss"
    ensures "IstRad" in cols && "IstFuss" in cols && "UTYP1" !in cols ==> FirstMissing(ExclusionColumns, cols) == "UTYP1"
    ensures "IstRad" in cols && "IstFuss" in cols && "UTYP1" in cols && "UART" !in cols ==> FirstMissing(ExclusionColumns, cols) == "UART"
  {
    var E := ExclusionColumns;
    if "IstRad" !in cols {
      FirstMissingAt(E, cols, 0);
    } else if "IstFuss" !in cols {
      FirstMissingAt(E, cols, 1);
    } else if "UTYP1" !in cols {
      FirstMissingAt(E, cols, 2);
    } else if "UART" !in cols {
      FirstMissingAt(E, cols, 3);
    }
  }

  /** A row none of the four exclusions removes. */
  predicate NotExcluded(r: Row) {
    && Cell(r, "IstRad") != Num(1.0)
    && Cell(r, "IstFuss") != Num(1.0)
    && Cell(r, "UTYP1") != Num(3.0)
    && Cell(r, "UART") != Num(6.0)
  }

  /** The month filter: December only in 2017, everything but December in 2019. */
  predicate MonthKept(year: int, month: Value) {
    if year == 2017 then month == Num(12.0)
    else if year == 2019 then month != Num(12.0)
    else true
  }

  /** The raw rows that survive the harmonization of their year. */
  predicate Kept(year: int, r: Row) {
    MonthKept(year, Cell(r, "UMONAT")) && NotExcluded(r)
  }

  function KeptBy(year: int): Row -> bool {
    r => Kept(year, r)
  }

  /** The bookkeeping columns each year drops. */
  function YearDrops(year: int): seq<string> {
    if year == 2017 then ["LINREFX", "LINREFY", "OBJECTID", "UIDENTSTLA"]
    else if year == 2018 then ["LINREFX", "LINREFY", "OBJECTID_1"]
    else ["LINREFX", "LINREFY", "OBJECTID"]
  }

  const CommonDrops: seq<string> := ["IstRad", "IstFuss"]

  // ---------------------------------------------------------------------------
  // preprocess_crash_data
  // ---------------------------------------------------------------------------

  /** The year-specific part: month filter, flag merge, column drops. */
  function YearStep(t: Table, year: int): Result<Table> {
    if year == 2017 then
      var m :- KeepWhere(t, "UMONAT", Is(12.0));
      DropColumns(m, YearDrops(2017))
    else if year == 2018 then
      var o :- OrColumn(t, "IstSonstig", "IstGkfz");
      DropColumns(o, YearDrops(2018))
    else if year == 2019 then
      var m :- KeepWhere(t, "UMONAT", IsNot(12.0));
      var o :- OrColumn(m, "IstSonstige", "IstGkfz");
      var n :- Rename(o, "IstSonstige", "IstSonstig");
      DropColumns(n, YearDrops(2019))
    else Err(UnknownYear(year))
  }

  /** preprocess_crash_data on the raw table of one year. */
  function PreprocessCrash(raw: Table, year: int): Result<Table> {
    var t1 :- Rename(raw, "XGCSWGS84", "Longitude");
    var t2 :- Rename(t1, "YGCSWGS84", "Latitude");
    var y :- YearStep(t2, year);
    var e :- Exclusions(y);
    DropColumns(e, CommonDrops)
  }

  // ---------------------------------------------------------------------------
  // What preprocess_crash_data does to one surviving row
  // ---------------------------------------------------------------------------

  /** The coordinate renaming of a raw row of a table with columns cols. */
  function CoordRow(cols: seq<string>, r: Row): Row {
    RenameIf(Replace(cols, "XGCSWGS84", "Longitude"), RenameIf(cols, r, "XGCSWGS84", "Longitude"), "YGCSWGS84", "Latitude")
  }

  function CoordBy(cols: seq<string>): Row -> Row { r => CoordRow(cols, r) }

  function DropBy(cs: seq<string>): Row -> Row { r => DropKeys(r, cs) }

  function OrBy(target: string, other: string): Row -> Row { r => OrRow(r, target, other) }

  function RenameBy(from: string, to: string): Row -> Row { r => RenameKey(r, from, to) }

  /** The rows of a flag merge are the table's rows, each merged by OrBy. */
  lemma OrRows(t: Table, target: string, other: string)
    requires OrColumn(t, target, other).Ok?
    ensures OrColumn(t, target, other).value.rows == Map(t.rows, OrBy(target, other))
  {
  }

  /** The rows left by dropping columns are the table's rows, each cut down by DropBy. */
  lemma DropRows(t: Table, cs: seq<string>)
    requires DropColumns(t, cs).Ok?
    ensures DropColumns(t, cs).value.rows == Map(t.rows, DropBy(cs))
  {
  }

  /** Renaming a present column renames the key in every row. */
  lemma RenameRows(t: Table, from: string, to: string)
    requires Rename(t, from, to).Ok? && from in t.columns
    ensures Rename(t, from, to).value.rows == Map(t.rows, RenameBy(from, to))
  {
  }

  /** F followed by the year-specific transformation of a row: flag merge, renaming, column drops. */
  function YearThen(year: int, F: Row -> Row): Row -> Row {
    if year == 2017 then Compose(F, DropBy(YearDrops(2017)))
    else if year == 2018 then Compose(Compose(F, OrBy("IstSonstig", "IstGkfz")), DropBy(YearDrops(2018)))
    else Compose(Compose(Compose(F, OrBy("IstSonstige", "IstGkfz")), RenameBy("IstSonstige", "IstSonstig")), DropBy(YearDrops(2019)))
  }

  /** A raw row as it leaves the harmonizer. */
  function FinishBy(year: int, cols: seq<string>): Row -> Row {
    Compose(YearThen(year, CoordBy(cols)), DropBy(CommonDrops))
  }

  function MonthBy(year: int): Row -> bool { r => MonthKept(year, Cell(r, "UMONAT")) }

  function NotExcludedBy(): Row -> bool { r => NotExcluded(r) }

  // ---------------------------------------------------------------------------
  // Facts about the column names involved
  // ---------------------------------------------------------------------------

  /** The columns the filters read are never renamed, merged into or dropped before they are read. */
  lemma FilterColumnsUntouched()
    ensures forall c :: c in ["UMONAT"] + ExclusionColumns ==>
              && c != "XGCSWGS84" && c != "YGCSWGS84" && c != "Longitude" && c != "Latitude"
              && c != "IstSonstig" && c != "IstSonstige"
              && c !in YearDrops(2017) && c !in YearDrops(2018) && c !in YearDrops(2019)
  {
    assert "IstFuss"[0] != "LINREFX"[0] && "IstFuss"[0] != "LINREFY"[0];
    assert "UMONAT"[0] != "LINREFX"[0];
  }

  lemma DropKeysCell(r: Row, cs: seq<string>, c: string)
    requires c !in cs
    ensures Cell(DropKeys(r, cs), c) == Cell(r, c)
  {
  }

  /** A filter column reads the same in a raw row and after the coordinate renaming. */
  lemma CoordCell(cols: seq<string>, r: Row, c: string)
    requires c in ["UMONAT"] + ExclusionColumns
    ensures Cell(CoordBy(cols)(r), c) == Cell(r, c)
  {
    FilterColumnsUntouched();
    var r1 := RenameIf(cols, r, "XGCSWGS84", "Longitude");
    RenameKeyCell(r, "XGCSWGS84", "Longitude", c);
    RenameKeyCell(r1, "YGCSWGS84", "Latitude", c);
  }

  /** A filter column reads the same before and after the year's transformation. */
  lemma YearCell(year: int, F: Row -> Row, r: Row, c: string)
    requires c in ["UMONAT"] + ExclusionColumns
    ensures Cell(YearThen(year, F)(r), c) == Cell(F(r), c)
  {
    FilterColumnsUntouched();
    var x := F(r);
    if year == 2017 {
      DropKeysCell(x, YearDrops(2017), c);
    } else if year == 2018 {
      var o := OrBy("IstSonstig", "IstGkfz")(x);
      assert Cell(o, c) == Cell(x, c);
      DropKeysCell(o, YearDrops(2018), c);
    } else {
      var o := OrBy("IstSonstige", "IstGkfz")(x);
      assert Cell(o, c) == Cell(x, c);
      var n := RenameBy("IstSonstige", "IstSonstig")(o);
      RenameKeyCell(o, "IstSonstige", "IstSonstig", c);
      DropKeysCell(n, YearDrops(2019), c);
    }
  }

  // ---------------------------------------------------------------------------
  // The harmonized rows
  // ---------------------------------------------------------------------------

  /** In 2018 every row is kept; the flags are merged and the bookkeeping columns dropped. */
  lemma Year2018Derived(t: Table, src: seq<Row>, F: Row -> Row)
    requires Derived(t.rows, src, Always(), F)
    requires YearStep(t, 2018).Ok?
    ensures Derived(YearStep(t, 2018).value.rows, src, Always(), YearThen(2018, F))
  {
    var o := OrColumn(t, "IstSonstig", "IstGkfz").value;
    var y := DropColumns(o, YearDrops(2018)).value;
    assert YearStep(t, 2018).value == y;
    OrRows(t, "IstSonstig", "IstGkfz");
    DropRows(o, YearDrops(2018));
    DerivedThen(t.rows, src, Always(), F, OrBy("IstSonstig", "IstGkfz"));
    DerivedThen(o.rows, src, Always(), Compose(F, OrBy("IstSonstig", "IstGkfz")), DropBy(YearDrops(2018)));
  }

  /** In 2017 the December rows are kept and the bookkeeping columns dropped. */
  lemma Year2017Derived(t: Table, src: seq<Row>, F: Row -> Row)
    requires Derived(t.rows, src, Always(), F)
    requires YearStep(t, 2017).Ok?
    ensures Derived(YearStep(t, 2017).value.rows, src, Both(Always(), Compose(F, CellIs("UMONAT", Is(12.0)))), YearThen(2017, F))
  {
    var m := KeepWhere(t, "UMONAT", Is(12.0)).value;
    var y := DropColumns(m, YearDrops(2017)).value;
    assert YearStep(t, 2017).value == y;
    DropRows(m, YearDrops(2017));
    DerivedWhere(t.rows, src, Always(), F, CellIs("UMONAT", Is(12.0)));
    DerivedThen(m.rows, src, Both(Always(), Compose(F, CellIs("UMONAT", Is(12.0)))), F, DropBy(YearDrops(2017)));
  }

  /** In 2019 the rows outside December are kept, the flags merged, IstSonstige renamed and the bookkeeping dropped. */
  lemma Year2019Derived(t: Table, src: seq<Row>, F: Row -> Row)
    requires Derived(t.rows, src, Always(), F)
    requires YearStep(t, 2019).Ok?
    ensures Derived(YearStep(t, 2019).value.rows, src, Both(Always(), Compose(F, CellIs("UMONAT", IsNot(12.0)))), YearThen(2019, F))
  {
    var K := Both(Always(), Compose(F, CellIs("UMONAT", IsNot(12.0))));
    var m := KeepWhere(t, "UMONAT", IsNot(12.0)).value;
    var o := OrColumn(m, "IstSonstige", "IstGkfz").value;
    var n := Rename(o, "IstSonstige", "IstSonstig").value;
    var y := DropColumns(n, YearDrops(2019)).value;
    assert YearStep(t, 2019).value == y;
    OrRows(m, "IstSonstige", "IstGkfz");
    RenameRows(o, "IstSonstige", "IstSonstig");
    DropRows(n, YearDrops(2019));
    DerivedWhere(t.rows, src, Always(), F, CellIs("UMONAT", IsNot(12.0)));
    DerivedThen(m.rows, src, K, F, OrBy("IstSonstige", "IstGkfz"));
    var F1 := Compose(F, OrBy("IstSonstige", "IstGkfz"));
    DerivedThen(o.rows, src, K, F1, RenameBy("IstSonstige", "IstSonstig"));
    DerivedThen(n.rows, src, K, Compose(F1, RenameBy("IstSonstige", "IstSonstig")), DropBy(YearDrops(2019)));
  }

  /** The month condition, read through the coordinate renaming, is the month condition on the raw row. */
  lemma MonthDerived<U>(rows: seq<U>, src: seq<Row>, year: int, p: Value -> bool, cols: seq<string>, F: Row -> U)
    requires year == 2017 || year == 2019
    requires p == (if year == 2017 then Is(12.0) else IsNot(12.0))
    requires Derived(rows, src, Both(Always(), Compose(CoordBy(cols), CellIs("UMONAT", p))), F)
    ensures Derived(rows, src, MonthBy(year), F)
  {
    forall i | 0 <= i < |src|
      ensures Both(Always(), Compose(CoordBy(cols), CellIs("UMONAT", p)))(src[i]) == MonthBy(year)(src[i])
    {
      CoordCell(cols, src[i], "UMONAT");
    }
    DerivedRecondition(rows, src, Both(Always(), Compose(CoordBy(cols), CellIs("UMONAT", p))), F, MonthBy(year));
  }

  /** 2018 has no month filter. */
  lemma NoMonthDerived<U>(rows: seq<U>, src: seq<Row>, F: Row -> U)
    requires Derived(rows, src, Always(), F)
    ensures Derived(rows, src, MonthBy(2018), F)
  {
    DerivedRecondition(rows, src, Always(), F, MonthBy(2018));
  }

  /** The year step keeps the rows of the right months and transforms each by YearThen. */
  lemma YearStepDerived(t: Table, year: int, src: seq<Row>, cols: seq<string>)
    requires Derived(t.rows, src, Always(), CoordBy(cols))
    requires YearStep(t, year).Ok?
    ensures Derived(YearStep(t, year).value.rows, src, MonthBy(year), YearThen(year, CoordBy(cols)))
  {
    var F := CoordBy(cols);
    if year == 2018 {
      Year2018Derived(t, src, F);
      NoMonthDerived(YearStep(t, 2018).value.rows, src, YearThen(2018, F));
    } else if year == 2017 {
      Year2017Derived(t, src, F);
      MonthDerived(YearStep(t, 2017).value.rows, src, 2017, Is(12.0), cols, YearThen(2017, F));
    } else {
      assert year == 2019;
      Year2019Derived(t, src, F);
      MonthDerived(YearStep(t, 2019).value.rows, src, 2019, IsNot(12.0), cols, YearThen(2019, F));
    }
  }

  /** The condition the four exclusion filters build up, read through F. */
  function ExclusionChain(K: Row -> bool, F: Row -> Row): Row -> bool {
    Both(Both(Both(Both(K, Compose(F, CellIs("IstRad", IsNot(1.0)))),
                   Compose(F, CellIs("IstFuss", IsNot(1.0)))),
              Compose(F, CellIs("UTYP1", IsNot(3.0)))),
         Compose(F, CellIs("UART", IsNot(6.0))))
  }

  /** Where F leaves the exclusion columns alone, the chain is K and NotExcluded. */
  lemma ExclusionChainMeans(K: Row -> bool, F: Row -> Row, x: Row)
    requires forall c :: c in ExclusionColumns ==> Cell(F(x), c) == Cell(x, c)
    ensures ExclusionChain(K, F)(x) == Both(K, NotExcludedBy())(x)
  {
    ChainUnfold(K, F, x);
    assert Cell(F(x), "IstRad") == Cell(x, "IstRad");
    assert Cell(F(x), "IstFuss") == Cell(x, "IstFuss");
    assert Cell(F(x), "UTYP1") == Cell(x, "UTYP1");
    assert Cell(F(x), "UART") == Cell(x, "UART");
    assert Both(K, NotExcludedBy())(x) == (K(x) && NotExcluded(x));
  }

  /** The chain keeps x when K does and none of the four exclusions holds of F(x). */
  lemma ChainUnfold(K: Row -> bool, F: Row -> Row, x: Row)
    ensures ExclusionChain(K, F)(x) == (K(x) && NotExcluded(F(x)))
  {
    var a := Compose(F, CellIs("IstRad", IsNot(1.0)));
    var b := Compose(F, CellIs("IstFuss", IsNot(1.0)));
    var c := Compose(F, CellIs("UTYP1", IsNot(3.0)));
    var d := Compose(F, CellIs("UART", IsNot(6.0)));
    assert a(x) == (Cell(F(x), "IstRad") != Num(1.0));
    assert b(x) == (Cell(F(x), "IstFuss") != Num(1.0));
    assert c(x) == (Cell(F(x), "UTYP1") != Num(3.0));
    assert d(x) == (Cell(F(x), "UART") != Num(6.0));
    assert ExclusionChain(K, F)(x) == (K(x) && a(x) && b(x) && c(x) && d(x));
  }

  /** The four exclusion filters of a chain, one after the other. */
  lemma ExclusionFilters(t: Table, src: seq<Row>, K: Row -> bool, F: Row -> Row)
    requires Derived(t.rows, src, K, F)
    requires Exclusions(t).Ok?
    ensures Derived(Exclusions(t).value.rows, src, ExclusionChain(K, F), F)
  {
    var f1 := KeepWhere(t, "IstRad", IsNot(1.0)).value;
    var f2 := KeepWhere(f1, "IstFuss", IsNot(1.0)).value;
    var f3 := KeepWhere(f2, "UTYP1", IsNot(3.0)).value;
    assert Exclusions(t).value.rows == Filter(f3.rows, CellIs("UART", IsNot(6.0)));
    DerivedWhere(t.rows, src, K, F, CellIs("IstRad", IsNot(1.0)));
    var K1 := Both(K, Compose(F, CellIs("IstRad", IsNot(1.0))));
    DerivedWhere(f1.rows, src, K1, F, CellIs("IstFuss", IsNot(1.0)));
    var K2 := Both(K1, Compose(F, CellIs("IstFuss", IsNot(1.0))));
    DerivedWhere(f2.rows, src, K2, F, CellIs("UTYP1", IsNot(3.0)));
    var K3 := Both(K2, Compose(F, CellIs("UTYP1", IsNot(3.0))));
    DerivedWhere(f3.rows, src, K3, F, CellIs("UART", IsNot(6.0)));
  }

  /** The four exclusions add NotExcluded to the condition of a chain that leaves their columns alone. */
  lemma ExclusionsDerived(t: Table, src: seq<Row>, K: Row -> bool, F: Row -> Row)
    requires Derived(t.rows, src, K, F)
    requires forall i, c :: 0 <= i < |src| && c in ExclusionColumns ==> Cell(F(src[i]), c) == Cell(src[i], c)
    requires Exclusions(t).Ok?
    ensures Derived(Exclusions(t).value.rows, src, Both(K, NotExcludedBy()), F)
  {
    ExclusionFilters(t, src, K, F);
    forall i | 0 <= i < |src| ensures ExclusionChain(K, F)(src[i]) == Both(K, NotExcludedBy())(src[i]) {
      ExclusionChainMeans(K, F, src[i]);
    }
    DerivedRecondition(Exclusions(t).value.rows, src, ExclusionChain(K, F), F, Both(K, NotExcludedBy()));
  }

  /** The two coordinate renamings transform every raw row by CoordBy. */
  lemma CoordDerived(raw: Table)
    requires Rename(raw, "XGCSWGS84", "Longitude").Ok?
    requires Rename(Rename(raw, "XGCSWGS84", "Longitude").value, "YGCSWGS84", "Latitude").Ok?
    ensures Derived(Rename(Rename(raw, "XGCSWGS84", "Longitude").value, "YGCSWGS84", "Latitude").value.rows,
                    raw.rows, Always(), CoordBy(raw.columns))
  {
    var t1 := Rename(raw, "XGCSWGS84", "Longitude").value;
    var t2 := Rename(t1, "YGCSWGS84", "Latitude").value;
    assert t2.rows == Map(raw.rows, CoordBy(raw.columns));
    DerivedStart(t2.rows, raw.rows, CoordBy(raw.columns));
  }

  /** Neither the coordinate renaming nor the year's transformation touches an exclusion column. */
  lemma ExclusionColumnsKept(year: int, cols: seq<string>, src: seq<Row>)
    ensures forall i, c :: 0 <= i < |src| && c in ExclusionColumns ==>
              Cell(YearThen(year, CoordBy(cols))(src[i]), c) == Cell(src[i], c)
  {
    forall i, c | 0 <= i < |src| && c in ExclusionColumns
      ensures Cell(YearThen(year, CoordBy(cols))(src[i]), c) == Cell(src[i], c)
    {
      YearCell(year, CoordBy(cols), src[i], c);
      CoordCell(cols, src[i], c);
    }
  }

  /** Passing the month filter and the exclusions is Kept. */
  lemma KeptCondition(year: int, src: seq<Row>)
    ensures forall i :: 0 <= i < |src| ==> Both(MonthBy(year), NotExcludedBy())(src[i]) == KeptBy(year)(src[i])
  {
  }

  /** The closing drop of IstRad and IstFuss turns the chain's transformation into FinishBy. */
  lemma FinishDerived(e: Table, year: int, src: seq<Row>, cols: seq<string>)
    requires Derived(e.rows, src, Both(MonthBy(year), NotExcludedBy()), YearThen(year, CoordBy(cols)))
    requires DropColumns(e, CommonDrops).Ok?
    ensures Derived(DropColumns(e, CommonDrops).value.rows, src, KeptBy(year), FinishBy(year, cols))
  {
    var K := Both(MonthBy(year), NotExcludedBy());
    var rows := DropColumns(e, CommonDrops).value.rows;
    DropRows(e, CommonDrops);
    DerivedThen(e.rows, src, K, YearThen(year, CoordBy(cols)), DropBy(CommonDrops));
    assert Derived(rows, src, K, FinishBy(year, cols));
    KeptCondition(year, src);
    DerivedRecondition(rows, src, K, FinishBy(year, cols), KeptBy(year));
  }

  /**
   * The harmonized rows are exactly the raw rows that pass the month filter of
   * their year and the four exclusions, in their original order, each
   * transformed by FinishBy.
   */
  lemma PreprocessCrashRows(raw: Table, year: int)
    requires PreprocessCrash(raw, year).Ok?
    ensures Derived(PreprocessCrash(raw, year).value.rows, raw.rows, KeptBy(year), FinishBy(year, raw.columns))
  {
    var cols := raw.columns;
    var t1 := Rename(raw, "XGCSWGS84", "Longitude").value;
    var t2 := Rename(t1, "YGCSWGS84", "Latitude").value;
    var y := YearStep(t2, year).value;
    var e := Exclusions(y).value;
    assert PreprocessCrash(raw, year).value == DropColumns(e, CommonDrops).value;
    CoordDerived(raw);
    YearStepDerived(t2, year, raw.rows, cols);
    ExclusionColumnsKept(year, cols, raw.rows);
    ExclusionsDerived(y, raw.rows, MonthBy(year), YearThen(year, CoordBy(cols)));
    FinishDerived(e, year, raw.rows, cols);
  }

  // ---------------------------------------------------------------------------
  // What a harmonized row holds
  // ---------------------------------------------------------------------------

  /** The column whose flag absorbs IstGkfz: its 2018 and its 2019 name. */
  function FlagSource(year: int): string {
    if year == 2018 then "IstSonstig" else "IstSonstige"
  }

  /** Every column name the harmonizer renames, merges into or drops in a year. */
  function Touched(year: int): seq<string> {
    ["XGCSWGS84", "YGCSWGS84", "Longitude", "Latitude", "IstSonstig", "IstSonstige"] + YearDrops(year) + CommonDrops
  }

  /** The year's transformation ends by dropping the year's bookkeeping columns. */
  lemma YearDropsGone(year: int, F: Row -> Row, r: Row, c: string)
    requires c in YearDrops(year)
    ensures Cell(YearThen(year, F)(r), c) == Null
  {
    var x := F(r);
    if year == 2017 {
      assert c !in DropBy(YearDrops(2017))(x);
    } else if year == 2018 {
      var o := OrBy("IstSonstig", "IstGkfz")(x);
      assert c !in DropBy(YearDrops(2018))(o);
    } else {
      var o := OrBy("IstSonstige", "IstGkfz")(x);
      var n := RenameBy("IstSonstige", "IstSonstig")(o);
      assert c !in DropBy(YearDrops(2019))(n);
    }
  }

  /** The dropped columns are gone from every harmonized row. */
  lemma DroppedCell(year: int, cols: seq<string>, r: Row, c: string)
    requires c in YearDrops(year) || c in CommonDrops
    ensures Cell(FinishBy(year, cols)(r), c) == Null
  {
    var y := YearThen(year, CoordBy(cols))(r);
    if c in CommonDrops {
      assert c !in DropBy(CommonDrops)(y);
    } else {
      YearDropsGone(year, CoordBy(cols), r, c);
      DropKeysCell(y, CommonDrops, c);
      assert Cell(FinishBy(year, cols)(r), c) == Cell(DropBy(CommonDrops)(y), c);
    }
  }

  /** In 2018 and 2019 IstSonstig holds the | of the year's flag column and IstGkfz. */
  lemma FlagCell(year: int, cols: seq<string>, r: Row)
    requires year == 2018 || year == 2019
    ensures Cell(FinishBy(year, cols)(r), "IstSonstig") == OrValue(Cell(r, FlagSource(year)), Cell(r, "IstGkfz"))
  {
    var x := CoordBy(cols)(r);
    CoordFlagCells(year, cols, r);
    var o := OrRow(x, FlagSource(year), "IstGkfz");
    var n := if year == 2018 then o else RenameKey(o, "IstSonstige", "IstSonstig");
    assert Cell(n, "IstSonstig") == OrValue(Cell(x, FlagSource(year)), Cell(x, "IstGkfz"));
    assert "IstSonstig" !in YearDrops(year) + CommonDrops by {
      assert "IstSonstig"[0] != "LINREFX"[0] && "IstSonstig"[0] != "OBJECTID"[0];
    }
    DropKeysCell(n, YearDrops(year), "IstSonstig");
    DropKeysCell(DropKeys(n, YearDrops(year)), CommonDrops, "IstSonstig");
  }

  /** The coordinate renaming leaves the two flag columns merged in 2018 and 2019 alone. */
  lemma CoordFlagCells(year: int, cols: seq<string>, r: Row)
    requires year == 2018 || year == 2019
    ensures Cell(CoordBy(cols)(r), FlagSource(year)) == Cell(r, FlagSource(year))
    ensures Cell(CoordBy(cols)(r), "IstGkfz") == Cell(r, "IstGkfz")
  {
    var r1 := RenameIf(cols, r, "XGCSWGS84", "Longitude");
    RenameKeyCell(r, "XGCSWGS84", "Longitude", FlagSource(year));
    RenameKeyCell(r1, "YGCSWGS84", "Latitude", FlagSource(year));
    RenameKeyCell(r, "XGCSWGS84", "Longitude", "IstGkfz");
    RenameKeyCell(r1, "YGCSWGS84", "Latitude", "IstGkfz");
  }

  /** A column the year's transformation neither merges into, renames nor drops keeps its value. */
  lemma YearKeptCell(year: int, F: Row -> Row, r: Row, c: string)
    requires c != "IstSonstig" && c != "IstSonstige" && c !in YearDrops(year)
    ensures Cell(YearThen(year, F)(r), c) == Cell(F(r), c)
  {
    var x := F(r);
    if year == 2017 {
      DropKeysCell(x, YearDrops(2017), c);
    } else if year == 2018 {
      var o := OrBy("IstSonstig", "IstGkfz")(x);
      assert Cell(o, c) == Cell(x, c);
      DropKeysCell(o, YearDrops(2018), c);
    } else {
      var o := OrBy("IstSonstige", "IstGkfz")(x);
      assert Cell(o, c) == Cell(x, c);
      var n := RenameBy("IstSonstige", "IstSonstig")(o);
      RenameKeyCell(o, "IstSonstige", "IstSonstig", c);
      DropKeysCell(n, YearDrops(2019), c);
    }
  }

  /** A column the harmonizer does not touch keeps its value. */
  lemma KeptCell(year: int, cols: seq<string>, r: Row, c: string)
    requires c !in Touched(year)
    ensures Cell(FinishBy(year, cols)(r), c) == Cell(r, c)
  {
    assert c != "XGCSWGS84" && c != "YGCSWGS84" && c != "Longitude" && c != "Latitude";
    assert c != "IstSonstig" && c != "IstSonstige" && c !in YearDrops(year) && c !in CommonDrops;
    var r1 := RenameIf(cols, r, "XGCSWGS84", "Longitude");
    RenameKeyCell(r, "XGCSWGS84", "Longitude", c);
    RenameKeyCell(r1, "YGCSWGS84", "Latitude", c);
    YearKeptCell(year, CoordBy(cols), r, c);
    var y := YearThen(year, CoordBy(cols))(r);
    DropKeysCell(y, CommonDrops, c);
    assert Cell(FinishBy(year, cols)(r), c) == Cell(DropBy(CommonDrops)(y), c);
  }

  /** The raw coordinates reappear as Longitude and Latitude. */
  lemma CoordinateCells(year: int, cols: seq<string>, r: Row)
    requires "XGCSWGS84" in cols && "XGCSWGS84" in r && "YGCSWGS84" in cols && "YGCSWGS84" in r
    ensures Cell(FinishBy(year, cols)(r), "Longitude") == r["XGCSWGS84"]
    ensures Cell(FinishBy(year, cols)(r), "Latitude") == r["YGCSWGS84"]
  {
    var r1 := RenameIf(cols, r, "XGCSWGS84", "Longitude");
    RenameKeyCell(r, "XGCSWGS84", "Longitude", "YGCSWGS84");
    assert "YGCSWGS84" in r1;
    var x := CoordBy(cols)(r);
    RenameKeyCell(r1, "YGCSWGS84", "Latitude", "Longitude");
    RenameKeyCell(r1, "YGCSWGS84", "Latitude", "Latitude");
    assert Cell(x, "Longitude") == r["XGCSWGS84"] && Cell(x, "Latitude") == r["YGCSWGS84"];
    CoordinateKept(year, CoordBy(cols), r, "Longitude");
    CoordinateKept(year, CoordBy(cols), r, "Latitude");
  }

  /** Longitude and Latitude are neither flag nor dropped columns in any year. */
  lemma CoordinatesNotDropped(c: string)
    requires c == "Longitude" || c == "Latitude"
    ensures c != "IstSonstig" && c != "IstSonstige" && c !in CommonDrops
    ensures c !in YearDrops(2017) && c !in YearDrops(2018) && c !in YearDrops(2019)
  {
    assert c[1] != "LINREFX"[1] && c[1] != "LINREFY"[1];
  }

  /** The coordinate columns pass the year's transformation and the closing drop unchanged. */
  lemma CoordinateKept(year: int, F: Row -> Row, r: Row, c: string)
    requires c == "Longitude" || c == "Latitude"
    ensures Cell(Compose(YearThen(year, F), DropBy(CommonDrops))(r), c) == Cell(F(r), c)
  {
    CoordinatesNotDropped(c);
    assert c !in YearDrops(year);
    YearKeptCell(year, F, r, c);
    DropKeysCell(YearThen(year, F)(r), CommonDrops, c);
  }

  // ---------------------------------------------------------------------------
  // The harmonized columns and the error cases
  // ---------------------------------------------------------------------------

  /** A column name present after the year step of a table with columns cols. */
  predicate YearHas(year: int, cols: seq<string>, c: string) {
    && c !in YearDrops(year)
    && if year == 2019 then (c in cols && c != "IstSonstige") || (c == "IstSonstig" && "IstSonstige" in cols)
       else c in cols
  }

  lemma YearStepColumns(t: Table, year: int)
    requires YearStep(t, year).Ok?
    ensures forall c :: c in YearStep(t, year).value.columns <==> YearHas(year, t.columns, c)
    ensures year == 2018 ==> "IstSonstig" in t.columns
    ensures year == 2019 ==> "IstSonstige" in t.columns
  {
    if year == 2017 {
      var m := KeepWhere(t, "UMONAT", Is(12.0)).value;
      assert YearStep(t, year) == DropColumns(m, YearDrops(2017));
    } else if year == 2018 {
      var o := OrColumn(t, "IstSonstig", "IstGkfz").value;
      assert YearStep(t, year) == DropColumns(o, YearDrops(2018));
    } else {
      var m := KeepWhere(t, "UMONAT", IsNot(12.0)).value;
      var o := OrColumn(m, "IstSonstige", "IstGkfz").value;
      var n := Rename(o, "IstSonstige", "IstSonstig").value;
      assert YearStep(t, year) == DropColumns(n, YearDrops(2019));
      ReplaceMembers(o.columns, "IstSonstige", "IstSonstig");
    }
  }

  /** The column names after the coordinate renaming. */
  function CoordNames(cols: seq<string>): seq<string> {
    Replace(Replace(cols, "XGCSWGS84", "Longitude"), "YGCSWGS84", "Latitude")
  }

  lemma CoordNamesMembers(cols: seq<string>)
    ensures forall c :: c in CoordNames(cols) <==>
              || (c in cols && c != "XGCSWGS84" && c != "YGCSWGS84")
              || (c == "Longitude" && "XGCSWGS84" in cols)
              || (c == "Latitude" && "YGCSWGS84" in cols)
  {
    ReplaceMembers(cols, "XGCSWGS84", "Longitude");
    ReplaceMembers(Replace(cols, "XGCSWGS84", "Longitude"), "YGCSWGS84", "Latitude");
  }

  /** The two coordinate renamings rename the columns as CoordNames says. */
  lemma CoordStepColumns(raw: Table)
    requires Rename(raw, "XGCSWGS84", "Longitude").Ok?
    requires Rename(Rename(raw, "XGCSWGS84", "Longitude").value, "YGCSWGS84", "Latitude").Ok?
    ensures Rename(Rename(raw, "XGCSWGS84", "Longitude").value, "YGCSWGS84", "Latitude").value.columns == CoordNames(raw.columns)
  {
    var t1 := Rename(raw, "XGCSWGS84", "Longitude").value;
    if "XGCSWGS84" !in raw.columns {
      assert Replace(raw.columns, "XGCSWGS84", "Longitude") == raw.columns;
    }
    if "YGCSWGS84" !in t1.columns {
      assert Replace(t1.columns, "YGCSWGS84", "Latitude") == t1.columns;
    }
  }

  /** The columns of a harmonized table: renamed, merged, without the dropped ones. */
  lemma PreprocessCrashNames(raw: Table, year: int)
    requires PreprocessCrash(raw, year).Ok?
    ensures forall c :: c in PreprocessCrash(raw, year).value.columns <==> c !in CommonDrops && YearHas(year, CoordNames(raw.columns), c)
  {
    var t1 := Rename(raw, "XGCSWGS84", "Longitude").value;
    var t2 := Rename(t1, "YGCSWGS84", "Latitude").value;
    var y := YearStep(t2, year).value;
    var e := Exclusions(y).value;
    assert PreprocessCrash(raw, year) == DropColumns(e, CommonDrops);
    CoordStepColumns(raw);
    YearStepColumns(t2, year);
  }

  /** The dropped columns are not in the harmonized table. */
  lemma DroppedNames(raw: Table, year: int)
    requires PreprocessCrash(raw, year).Ok?
    ensures forall c :: c in YearDrops(year) + CommonDrops ==> c !in PreprocessCrash(raw, year).value.columns
  {
    PreprocessCrashNames(raw, year);
  }

  /** The columns the harmonizer does not touch are there exactly when the raw table has them. */
  lemma KeptNames(raw: Table, year: int)
    requires PreprocessCrash(raw, year).Ok?
    ensures forall c :: c !in Touched(year) ==> (c in PreprocessCrash(raw, year).value.columns <==> c in raw.columns)
  {
    PreprocessCrashNames(raw, year);
    CoordNamesMembers(raw.columns);
    forall c | c !in Touched(year)
      ensures c in PreprocessCrash(raw, year).value.columns <==> c in raw.columns
    {
      assert c !in YearDrops(year) && c !in CommonDrops;
      assert c != "XGCSWGS84" && c != "YGCSWGS84" && c != "Longitude" && c != "Latitude";
      assert c != "IstSonstig" && c != "IstSonstige";
    }
  }

  /** The raw coordinate columns are replaced by Longitude and Latitude. */
  lemma CoordinateNames(raw: Table, year: int)
    requires PreprocessCrash(raw, year).Ok?
    ensures "XGCSWGS84" in raw.columns ==> "Longitude" in PreprocessCrash(raw, year).value.columns
    ensures "YGCSWGS84" in raw.columns ==> "Latitude" in PreprocessCrash(raw, year).value.columns
    ensures "XGCSWGS84" !in PreprocessCrash(raw, year).value.columns && "YGCSWGS84" !in PreprocessCrash(raw, year).value.columns
  {
    PreprocessCrashNames(raw, year);
    CoordNamesMembers(raw.columns);
    CoordinatesNotDropped("Longitude");
    CoordinatesNotDropped("Latitude");
    assert "XGCSWGS84" != "IstSonstig" && "YGCSWGS84" != "IstSonstig";
  }

  /** IstSonstig is dropped in no year. */
  lemma FlagNotDropped()
    ensures "IstSonstig" !in YearDrops(2018) + CommonDrops && "IstSonstig" !in YearDrops(2019) + CommonDrops
  {
    assert "IstSonstig"[0] != "LINREFX"[0] && "IstSonstig"[0] != "OBJECTID"[0];
    assert "IstSonstig"[3] != "IstRad"[3] && "IstSonstig"[3] != "IstFuss"[3];
  }

  /** In 2018 and 2019 the merged flag column is called IstSonstig. */
  lemma FlagNames(raw: Table, year: int)
    requires PreprocessCrash(raw, year).Ok?
    ensures year == 2018 || year == 2019 ==> "IstSonstig" in PreprocessCrash(raw, year).value.columns
    ensures year == 2019 ==> "IstSonstige" !in PreprocessCrash(raw, year).value.columns
  {
    if year == 2018 || year == 2019 {
      PreprocessCrashNames(raw, year);
      YearInputFlags(raw, year);
      FlagYearHas(year, CoordNames(raw.columns));
    }
  }

  /** A harmonized 2018 table had IstSonstig after the renaming, a 2019 one IstSonstige. */
  lemma YearInputFlags(raw: Table, year: int)
    requires PreprocessCrash(raw, year).Ok?
    ensures year == 2018 ==> "IstSonstig" in CoordNames(raw.columns)
    ensures year == 2019 ==> "IstSonstige" in CoordNames(raw.columns)
  {
    var t1 := Rename(raw, "XGCSWGS84", "Longitude").value;
    var t2 := Rename(t1, "YGCSWGS84", "Latitude").value;
    assert YearStep(t2, year).Ok?;
    CoordStepColumns(raw);
    YearStepColumns(t2, year);
  }

  /** The year step of 2018 and 2019 leaves IstSonstig, which no drop names, and 2019's leaves no IstSonstige. */
  lemma FlagYearHas(year: int, cols: seq<string>)
    requires year == 2018 || year == 2019
    requires year == 2018 ==> "IstSonstig" in cols
    requires year == 2019 ==> "IstSonstige" in cols
    ensures YearHas(year, cols, "IstSonstig") && "IstSonstig" !in CommonDrops
    ensures year == 2019 ==> !YearHas(year, cols, "IstSonstige")
  {
    FlagNotDropped();
    assert "IstSonstige"[..10] == "IstSonstig";
  }

  /**
   * What the column list of a harmonized table holds: none of the dropped
   * columns, the coordinates under their new names, IstSonstig in 2018 and
   * 2019 (2019's IstSonstige under its new name), and every other column the
   * raw table had.
   */
  lemma PreprocessCrashColumns(raw: Table, year: int)
    requires PreprocessCrash(raw, year).Ok?
    ensures forall c :: c in YearDrops(year) + CommonDrops ==> c !in PreprocessCrash(raw, year).value.columns
    ensures forall c :: c !in Touched(year) ==> (c in PreprocessCrash(raw, year).value.columns <==> c in raw.columns)
    ensures "XGCSWGS84" in raw.columns ==> "Longitude" in PreprocessCrash(raw, year).value.columns
    ensures "YGCSWGS84" in raw.columns ==> "Latitude" in PreprocessCrash(raw, year).value.columns
    ensures "XGCSWGS84" !in PreprocessCrash(raw, year).value.columns && "YGCSWGS84" !in PreprocessCrash(raw, year).value.columns
    ensures year == 2018 || year == 2019 ==> "IstSonstig" in PreprocessCrash(raw, year).value.columns
    ensures year == 2019 ==> "IstSonstige" !in PreprocessCrash(raw, year).value.columns
  {
    DroppedNames(raw, year);
    KeptNames(raw, year);
    CoordinateNames(raw, year);
    FlagNames(raw, year);
  }


  /**
   * Any other year is rejected; the error is UnknownYear unless a coordinate
   * rename already failed because the new name was taken.
   */
  lemma UnknownYearFails(raw: Table, year: int)
    requires year != 2017 && year != 2018 && year != 2019
    ensures PreprocessCrash(raw, year).Err?
    ensures !("XGCSWGS84" in raw.columns && "Longitude" in raw.columns)
         && !("YGCSWGS84" in raw.columns && "Latitude" in raw.columns)
         ==> PreprocessCrash(raw, year).error == UnknownYear(year)
  {
    var r1 := Rename(raw, "XGCSWGS84", "Longitude");
    if r1.Ok? {
      ReplaceMembers(raw.columns, "XGCSWGS84", "Longitude");
      assert "YGCSWGS84" in r1.value.columns <==> "YGCSWGS84" in raw.columns;
      assert "Latitude" in r1.value.columns <==> "Latitude" in raw.columns;
      var r2 := Rename(r1.value, "YGCSWGS84", "Latitude");
      if r2.Ok? {
        assert YearStep(r2.value, year) == Err(UnknownYear(year));
      }
    }
  }
}
