/**
 * Normalize: the two scaling passes over the joined weather/crash table.
 *
 * The global pass (add_column_with_normalized_crash_values) fills missing
 * crash counts with 0 and writes, next to each count column, its min-max
 * scaling to 0..100 rounded to one decimal. The per-route pass
 * (normalize_per_Route) rescales a fixed list of columns to 0..1 within each
 * route. Where a range has zero width the pipeline divides 0 by 0; the model
 * keeps that outcome, a null cell (pandas' NaN), rather than excluding it.
 */
module Normalize {
  import opened Tables

  // ---------------------------------------------------------------------------
  // numpy's round(decimals=1): scale by ten, round half to even, scale back
  // ---------------------------------------------------------------------------

  /** The nearest integer to y; a tie goes to the even neighbour. */
  function RoundHalfEven(y: real): (n: int)
    ensures y - 0.5 <= n as real <= y + 0.5
  {
    var f := y.Floor;
    var frac := y - f as real;
    if frac < 0.5 then f
    else if frac > 0.5 then f + 1
    else if f % 2 == 0 then f else f + 1
  }

  lemma RoundHalfEvenMonotone(a: real, b: real)
    requires a <= b
    ensures RoundHalfEven(a) <= RoundHalfEven(b)
  {
    var fa, fb := a.Floor, b.Floor;
    if fa < fb {
      assert RoundHalfEven(a) <= fa + 1 <= fb <= RoundHalfEven(b);
    } else {
      assert fa == fb;
      assert a - fa as real <= b - fb as real;
    }
  }

  /** An integer is its own rounding. */
  lemma RoundHalfEvenInteger(k: int)
    ensures RoundHalfEven(k as real) == k
  {
    assert (k as real).Floor == k;
  }

  function Round1(x: real): (y: real)
    ensures x - 0.05 <= y <= x + 0.05
  {
    RoundHalfEven(x * 10.0) as real / 10.0
  }

  lemma Round1Monotone(a: real, b: real)
    requires a <= b
    ensures Round1(a) <= Round1(b)
  {
    RoundHalfEvenMonotone(a * 10.0, b * 10.0);
  }

  /** A number with at most one decimal is unchanged by rounding. */
  lemma Round1Keeps(k: int)
    ensures Round1(k as real / 10.0) == k as real / 10.0
  {
    assert (k as real / 10.0) * 10.0 == k as real;
    RoundHalfEvenInteger(k);
  }

  /** Rounding keeps a number between two bounds that have at most one decimal. */
  lemma Round1Between(x: real, lo: int, hi: int)
    requires lo as real / 10.0 <= x <= hi as real / 10.0
    ensures lo as real / 10.0 <= Round1(x) <= hi as real / 10.0
  {
    Round1Monotone(lo as real / 10.0, x);
    Round1Monotone(x, hi as real / 10.0);
    Round1Keeps(lo);
    Round1Keeps(hi);
  }

  // ---------------------------------------------------------------------------
  // Cell arithmetic
  // ---------------------------------------------------------------------------

  /** fillna(0) on one cell. */
  function Filled(v: Value): Value {
    if v.Null? then Num(0.0) else v
  }

  function NumOf(v: Value): real {
    if v.Num? then v.x else 0.0
  }

  /** A column pandas can take the min and max of: it holds no text. */
  predicate Numeric(t: Table, c: string) {
    forall i :: 0 <= i < |t.rows| ==> !Cell(t.rows[i], c).Text?
  }

  /** The first column of cs that holds a text cell. */
  function FirstText(t: Table, cs: seq<string>): (c: string)
    requires exists c :: c in cs && !Numeric(t, c)
    ensures c in cs && !Numeric(t, c)
  {
    if !Numeric(t, cs[0]) then cs[0] else FirstText(t, cs[1..])
  }

  /** The first column holding text is the one at the first position whose column holds text. */
  lemma {:induction false} FirstTextAt(t: Table, cs: seq<string>, k: nat)
    requires k < |cs| && !Numeric(t, cs[k])
    requires forall j :: 0 <= j < k ==> Numeric(t, cs[j])
    ensures FirstText(t, cs) == cs[k]
  {
    if k > 0 {
      assert Numeric(t, cs[0]);
      assert cs[1..][k - 1] == cs[k];
      FirstTextAt(t, cs[1..], k - 1);
    }
  }

  /**
   * (x - lo) / (hi - lo) * factor: null for a null cell and for a zero-width
   * range, where the division is 0/0.
   */
  function Scale(v: Value, lo: real, hi: real, factor: real): Value {
    if v.Num? && lo != hi then Num((v.x - lo) / (hi - lo) * factor) else Null
  }

  /** Series.round(decimals=1) on one cell; null stays null. */
  function RoundCell(v: Value): Value {
    if v.Num? then Num(Round1(v.x)) else v
  }

  /** Scaling maps the low end to 0, the high end to factor and everything between into [0, factor]. */
  lemma ScaleBounds(v: Value, lo: real, hi: real, factor: real)
    requires v.Num? && lo <= v.x <= hi && lo < hi && factor >= 0.0
    ensures Scale(v, lo, hi, factor).Num?
    ensures 0.0 <= Scale(v, lo, hi, factor).x <= factor
    ensures v.x == lo ==> Scale(v, lo, hi, factor).x == 0.0
    ensures v.x == hi ==> Scale(v, lo, hi, factor).x == factor
  {
    var w := hi - lo;
    var q := (v.x - lo) / w;
    assert q * w == v.x - lo;
    if q < 0.0 {
      MulPositive(-q, w);
    }
    if q > 1.0 {
      MulPositive(q - 1.0, w);
    }
    MulNonNegative(1.0 - q, factor);
    MulNonNegative(q, factor);
  }

  /** The steps of real arithmetic the scaling bounds rest on, one product at a time. */
  lemma MulNonNegative(a: real, b: real)
    requires 0.0 <= a && 0.0 <= b
    ensures 0.0 <= a * b
  {
  }

  lemma MulPositive(a: real, b: real)
    requires 0.0 < a && 0.0 < b
    ensures 0.0 < a * b
  {
  }

  // ---------------------------------------------------------------------------
  // The global pass: add_column_with_normalized_crash_values
  // ---------------------------------------------------------------------------

  const CountColumns: seq<string> := ["CrashCount", "CrashCountWet", "CrashCountSnow", "CrashCountWetSnow"]
  const NormalizedColumns: seq<string> :=
    ["NormalizedCrash", "NormalizedCrashWet", "NormalizedCrashSnow", "NormalizedCrashWetSnow"]

  /** The filled counts of column c, in row order. */
  function Counts(t: Table, c: string): (xs: seq<real>)
    ensures |xs| == |t.rows|
    ensures forall i :: 0 <= i < |t.rows| ==> xs[i] == NumOf(Filled(Cell(t.rows[i], c)))
  {
    seq(|t.rows|, i requires 0 <= i < |t.rows| => NumOf(Filled(Cell(t.rows[i], c))))
  }

  /**
   * The normalized value of row i for count column c: the filled count scaled
   * from the column's [min, max] to [0, 100] and rounded to one decimal.
   */
  function Normalized(t: Table, c: string, i: nat): Value
    requires i < |t.rows|
  {
    var xs := Counts(t, c);
    RoundCell(Scale(Filled(Cell(t.rows[i], c)), MinOf(xs), MaxOf(xs), 100.0))
  }

  /** df[c] = df[c].fillna(0). */
  function FillZero(t: Table, c: string): (r: Result<Table>)
    ensures r.Err? <==> c !in t.columns
    ensures r.Err? ==> r.error == KeyError(c)
    ensures r.Ok? ==> r.value.columns == t.columns && |r.value.rows| == |t.rows|
    ensures r.Ok? ==> forall i :: 0 <= i < |t.rows| ==> r.value.rows[i] == t.rows[i][c := Filled(Cell(t.rows[i], c))]
  {
    if c !in t.columns then Err(KeyError(c))
    else Ok(SetColumn(t, c, seq(|t.rows|, i requires 0 <= i < |t.rows| => Filled(Cell(t.rows[i], c)))))
  }

  /**
   * df[n] = ((df[c] - min) / (max - min) * 100).round(1) on a filled column c:
   * a column holding text cannot be reduced.
   */
  function NormalizeColumn(t: Table, c: string, n: string): (r: Result<Table>)
    ensures r.Err? <==> !Numeric(t, c)
    ensures r.Err? ==> r.error == TypeError(c)
    ensures r.Ok? ==> r.value.columns == (if n in t.columns then t.columns else t.columns + [n])
    ensures r.Ok? ==> |r.value.rows| == |t.rows|
    ensures r.Ok? ==> forall i, x :: 0 <= i < |t.rows| && x != n ==> Cell(r.value.rows[i], x) == Cell(t.rows[i], x)
    ensures r.Ok? ==> forall i :: 0 <= i < |t.rows| ==> Cell(r.value.rows[i], n) == Normalized(t, c, i)
  {
    if !Numeric(t, c) then Err(TypeError(c))
    else Ok(SetColumn(t, n, seq(|t.rows|, i requires 0 <= i < |t.rows| => Normalized(t, c, i))))
  }

  /** Two tables whose column c fills to the same cells have the same counts, type and normalized values for c. */
  lemma SameCounts(t: Table, u: Table, c: string)
    requires |t.rows| == |u.rows|
    requires forall i :: 0 <= i < |t.rows| ==> Filled(Cell(t.rows[i], c)) == Filled(Cell(u.rows[i], c))
    ensures Counts(t, c) == Counts(u, c)
    ensures Numeric(t, c) == Numeric(u, c)
    ensures forall i :: 0 <= i < |t.rows| ==> Normalized(t, c, i) == Normalized(u, c, i)
  {
    assert Numeric(t, c) == Numeric(u, c) by {
      forall i | 0 <= i < |t.rows| ensures Cell(t.rows[i], c).Text? == Cell(u.rows[i], c).Text? {
        assert Filled(Cell(t.rows[i], c)) == Filled(Cell(u.rows[i], c));
      }
    }
  }

  /** The first missing count column, spelled out in the order of the fills. */
  lemma FirstMissingCount(cols: seq<string>)
    requires exists c :: c in CountColumns && c !in cols
    ensures FirstMissing(CountColumns, cols) ==
      if "CrashCount" !in cols then "CrashCount"
      else if "CrashCountWet" !in cols then "CrashCountWet"
      else if "CrashCountSnow" !in cols then "CrashCountSnow"
      else "CrashCountWetSnow"
  {
    var cs := CountColumns;
    var cs1, cs2, cs3 := cs[1..], cs[2..], cs[3..];
    assert cs1 == ["CrashCountWet", "CrashCountSnow", "CrashCountWetSnow"] && cs1[1..] == cs2;
    assert cs2 == ["CrashCountSnow", "CrashCountWetSnow"] && cs2[1..] == cs3;
    assert cs3 == ["CrashCountWetSnow"];
    if "CrashCount" in cols {
      assert FirstMissing(cs, cols) == FirstMissing(cs1, cols);
      if "CrashCountWet" in cols {
        assert FirstMissing(cs1, cols) == FirstMissing(cs2, cols);
        if "CrashCountSnow" in cols {
          assert FirstMissing(cs2, cols) == FirstMissing(cs3, cols);
        }
      }
    }
  }

  /** The first count column holding text, spelled out in the order of the min computations. */
  lemma FirstTextCount(t: Table)
    requires exists c :: c in CountColumns && !Numeric(t, c)
    ensures FirstText(t, CountColumns) ==
      if !Numeric(t, "CrashCount") then "CrashCount"
      else if !Numeric(t, "CrashCountWet") then "CrashCountWet"
      else if !Numeric(t, "CrashCountSnow") then "CrashCountSnow"
      else "CrashCountWetSnow"
  {
    var cs := CountColumns;
    var cs1, cs2, cs3 := cs[1..], cs[2..], cs[3..];
    assert cs1 == ["CrashCountWet", "CrashCountSnow", "CrashCountWetSnow"] && cs1[1..] == cs2;
    assert cs2 == ["CrashCountSnow", "CrashCountWetSnow"] && cs2[1..] == cs3;
    assert cs3 == ["CrashCountWetSnow"];
    if Numeric(t, "CrashCount") {
      assert FirstText(t, cs) == FirstText(t, cs1);
      if Numeric(t, "CrashCountWet") {
        assert FirstText(t, cs1) == FirstText(t, cs2);
        if Numeric(t, "CrashCountSnow") {
          assert FirstText(t, cs2) == FirstText(t, cs3);
        }
      }
    }
  }

  /** After the four fills every count cell is filled and every other cell is kept. */
  lemma FilledCounts(t: Table, u: Table)
    requires |u.rows| == |t.rows|
    requires forall i, x :: 0 <= i < |t.rows| ==>
               Cell(u.rows[i], x) == if x in CountColumns then Filled(Cell(t.rows[i], x)) else Cell(t.rows[i], x)
    ensures forall c :: c in CountColumns ==> Numeric(u, c) == Numeric(t, c)
    ensures forall c, i :: c in CountColumns && 0 <= i < |t.rows| ==> Normalized(u, c, i) == Normalized(t, c, i)
  {
    forall c | c in CountColumns
      ensures Numeric(u, c) == Numeric(t, c)
      ensures forall i :: 0 <= i < |t.rows| ==> Normalized(u, c, i) == Normalized(t, c, i)
    {
      SameCounts(u, t, c);
    }
  }

  /** The cells of row i after the global pass. */
  ghost predicate NormalizedRow(t: Table, i: nat, r: Row)
    requires i < |t.rows|
  {
    && (forall x :: x !in CountColumns && x !in NormalizedColumns ==> Cell(r, x) == Cell(t.rows[i], x))
    && (forall k :: 0 <= k < |CountColumns| ==> Cell(r, CountColumns[k]) == Filled(Cell(t.rows[i], CountColumns[k])))
    && (forall k :: 0 <= k < |NormalizedColumns| ==> Cell(r, NormalizedColumns[k]) == Normalized(t, CountColumns[k], i))
  }

  /** The four fillna statements: a missing count column is a KeyError; otherwise only the count cells change, to their filled values. */
  method FillCounts(t: Table) returns (r: Result<Table>)
    ensures r.Err? <==> exists c :: c in CountColumns && c !in t.columns
    ensures r.Err? ==> r.error == KeyError(FirstMissing(CountColumns, t.columns))
    ensures r.Ok? ==> r.value.columns == t.columns && |r.value.rows| == |t.rows|
    ensures r.Ok? ==> forall i, x :: 0 <= i < |t.rows| ==>
              Cell(r.value.rows[i], x) == if x in CountColumns then Filled(Cell(t.rows[i], x)) else Cell(t.rows[i], x)
  {
    if exists c :: c in CountColumns && c !in t.columns {
      FirstMissingCount(t.columns);
    }
    var d := t;
    d :- FillZero(d, "CrashCount");
    d :- FillZero(d, "CrashCountWet");
    d :- FillZero(d, "CrashCountSnow");
    d :- FillZero(d, "CrashCountWetSnow");
    r := Ok(d);
  }

  /** The table after the first k normalization statements on the filled table f. */
  ghost predicate WrittenUpTo(f: Table, d: Table, k: nat)
    requires k <= |NormalizedColumns|
  {
    && d.columns == AddNew(f.columns, NormalizedColumns[..k])
    && |d.rows| == |f.rows|
    && (forall i, x :: 0 <= i < |f.rows| && x !in NormalizedColumns[..k] ==> Cell(d.rows[i], x) == Cell(f.rows[i], x))
    && (forall i, j :: 0 <= i < |f.rows| && 0 <= j < k ==> Cell(d.rows[i], NormalizedColumns[j]) == Normalized(f, CountColumns[j], i))
  }

  /** No count column is a normalized column. */
  lemma CountsNotNormalized()
    ensures forall j, k :: 0 <= j < |CountColumns| && 0 <= k < |NormalizedColumns| ==> CountColumns[j] != NormalizedColumns[k]
  {
  }

  lemma WriteStepColumns(f: Table, d: Table, u: Table, k: nat)
    requires k < |NormalizedColumns|
    requires d.columns == AddNew(f.columns, NormalizedColumns[..k])
    requires u.columns == if NormalizedColumns[k] in d.columns then d.columns else d.columns + [NormalizedColumns[k]]
    ensures u.columns == AddNew(f.columns, NormalizedColumns[..k + 1])
  {
    assert NormalizedColumns[..k + 1] == NormalizedColumns[..k] + [NormalizedColumns[k]];
    AddNewSnoc(f.columns, NormalizedColumns[..k], NormalizedColumns[k]);
  }

  lemma WriteStepKept(f: Table, d: Table, u: Table, k: nat)
    requires k < |NormalizedColumns| && |d.rows| == |f.rows| && |u.rows| == |f.rows|
    requires forall i, x :: 0 <= i < |f.rows| && x !in NormalizedColumns[..k] ==> Cell(d.rows[i], x) == Cell(f.rows[i], x)
    requires forall i, x :: 0 <= i < |f.rows| && x != NormalizedColumns[k] ==> Cell(u.rows[i], x) == Cell(d.rows[i], x)
    ensures forall i, x :: 0 <= i < |f.rows| && x !in NormalizedColumns[..k + 1] ==> Cell(u.rows[i], x) == Cell(f.rows[i], x)
  {
    assert NormalizedColumns[..k + 1] == NormalizedColumns[..k] + [NormalizedColumns[k]];
  }

  lemma WriteStepWritten(f: Table, d: Table, u: Table, k: nat)
    requires k < |NormalizedColumns| && |d.rows| == |f.rows| && |u.rows| == |f.rows|
    requires forall i, j :: 0 <= i < |f.rows| && 0 <= j < k ==> Cell(d.rows[i], NormalizedColumns[j]) == Normalized(f, CountColumns[j], i)
    requires forall i, x :: 0 <= i < |f.rows| && x != NormalizedColumns[k] ==> Cell(u.rows[i], x) == Cell(d.rows[i], x)
    requires forall i :: 0 <= i < |f.rows| ==> Cell(u.rows[i], NormalizedColumns[k]) == Normalized(f, CountColumns[k], i)
    ensures forall i, j :: 0 <= i < |f.rows| && 0 <= j < k + 1 ==> Cell(u.rows[i], NormalizedColumns[j]) == Normalized(f, CountColumns[j], i)
  {
    forall i, j | 0 <= i < |f.rows| && 0 <= j < k + 1
      ensures Cell(u.rows[i], NormalizedColumns[j]) == Normalized(f, CountColumns[j], i)
    {
      if j < k {
        assert NormalizedColumns[j] != NormalizedColumns[k];
      }
    }
  }

  /** A property of each of the four count columns is a property of every count column. */
  lemma EveryCount(f: Table)
    requires Numeric(f, CountColumns[0]) && Numeric(f, CountColumns[1])
    requires Numeric(f, CountColumns[2]) && Numeric(f, CountColumns[3])
    ensures forall c :: c in CountColumns ==> Numeric(f, c)
  {
    forall c | c in CountColumns ensures Numeric(f, c) {
      var j :| 0 <= j < |CountColumns| && CountColumns[j] == c;
    }
  }

  /** Statement k + 1 fails on a count column holding text and otherwise extends the written prefix. */
  lemma WriteStep(f: Table, d: Table, k: nat)
    requires k < |NormalizedColumns| && WrittenUpTo(f, d, k)
    ensures NormalizeColumn(d, CountColumns[k], NormalizedColumns[k]).Err? <==> !Numeric(f, CountColumns[k])
    ensures !Numeric(f, CountColumns[k]) ==> NormalizeColumn(d, CountColumns[k], NormalizedColumns[k]).error == TypeError(CountColumns[k])
    ensures Numeric(f, CountColumns[k]) ==> WrittenUpTo(f, NormalizeColumn(d, CountColumns[k], NormalizedColumns[k]).value, k + 1)
  {
    var c, n := CountColumns[k], NormalizedColumns[k];
    CountsNotNormalized();
    assert c !in NormalizedColumns[..k];
    SameCounts(d, f, c);
    if Numeric(f, c) {
      var u := NormalizeColumn(d, c, n).value;
      WriteStepColumns(f, d, u, k);
      WriteStepKept(f, d, u, k);
      WriteStepWritten(f, d, u, k);
    }
  }

  /** One normalization statement, for the count column k, on a table holding the first k results. */
  method NormalizeStep(f: Table, d: Table, k: nat) returns (r: Result<Table>)
    requires k < |NormalizedColumns| && WrittenUpTo(f, d, k)
    ensures r.Err? <==> !Numeric(f, CountColumns[k])
    ensures r.Err? ==> r.error == TypeError(CountColumns[k])
    ensures r.Ok? ==> WrittenUpTo(f, r.value, k + 1)
  {
    WriteStep(f, d, k);
    r := NormalizeColumn(d, CountColumns[k], NormalizedColumns[k]);
  }

  /**
   * The four normalization statements on filled counts, one per count
   * column in the order of the source: a count column holding text is a
   * TypeError; otherwise only the normalized columns change, each to the
   * scaled values of its count column.
   */
  method WriteNormalized(f: Table) returns (r: Result<Table>)
    ensures r.Err? <==> exists c :: c in CountColumns && !Numeric(f, c)
    ensures r.Err? ==> r.error == TypeError(FirstText(f, CountColumns))
    ensures r.Ok? ==> WrittenUpTo(f, r.value, |NormalizedColumns|)
  {
    assert NormalizedColumns[..0] == [];
    var d := f;
    for k := 0 to |NormalizedColumns|
      invariant WrittenUpTo(f, d, k)
      invariant forall j :: 0 <= j < k ==> Numeric(f, CountColumns[j])
    {
      var step := NormalizeStep(f, d, k);
      if step.Err? {
        FirstTextAt(f, CountColumns, k);
        return Err(step.error);
      }
      d := step.value;
    }
    EveryCount(f);
    r := Ok(d);
  }

  /** Filling changes neither which count column holds text nor which one is the first. */
  lemma FilledTypes(t: Table, f: Table)
    requires |f.rows| == |t.rows|
    requires forall i, x :: 0 <= i < |t.rows| ==>
               Cell(f.rows[i], x) == if x in CountColumns then Filled(Cell(t.rows[i], x)) else Cell(t.rows[i], x)
    ensures (exists c :: c in CountColumns && !Numeric(f, c)) <==> (exists c :: c in CountColumns && !Numeric(t, c))
    ensures (exists c :: c in CountColumns && !Numeric(t, c)) ==> FirstText(f, CountColumns) == FirstText(t, CountColumns)
  {
    FilledCounts(t, f);
    if exists c :: c in CountColumns && !Numeric(t, c) {
      FirstTextCount(t);
      FirstTextCount(f);
    }
  }

  /** Filling and then writing the normalized columns leaves every row as the global pass promises. */
  lemma FilledThenWritten(t: Table, f: Table, w: Table)
    requires |f.rows| == |t.rows|
    requires forall i, x :: 0 <= i < |t.rows| ==>
               Cell(f.rows[i], x) == if x in CountColumns then Filled(Cell(t.rows[i], x)) else Cell(t.rows[i], x)
    requires f.columns == t.columns && WrittenUpTo(f, w, |NormalizedColumns|)
    ensures w.columns == AddNew(t.columns, NormalizedColumns) && |w.rows| == |t.rows|
    ensures forall i :: 0 <= i < |t.rows| ==> NormalizedRow(t, i, w.rows[i])
  {
    assert NormalizedColumns[..|NormalizedColumns|] == NormalizedColumns;
    forall i | 0 <= i < |t.rows| ensures NormalizedRow(t, i, w.rows[i]) {
      FilledThenWrittenRow(t, f, w, i);
    }
  }

  /** One row of the global pass: filled in the count columns, then written in the normalized ones. */
  lemma FilledThenWrittenRow(t: Table, f: Table, w: Table, i: nat)
    requires |f.rows| == |t.rows| && i < |t.rows|
    requires forall i, x :: 0 <= i < |t.rows| ==>
               Cell(f.rows[i], x) == if x in CountColumns then Filled(Cell(t.rows[i], x)) else Cell(t.rows[i], x)
    requires WrittenUpTo(f, w, |NormalizedColumns|)
    ensures NormalizedRow(t, i, w.rows[i])
  {
    assert NormalizedColumns[..|NormalizedColumns|] == NormalizedColumns;
    var r, filled := w.rows[i], f.rows[i];
    forall x | x !in CountColumns && x !in NormalizedColumns ensures Cell(r, x) == Cell(t.rows[i], x) {
      assert Cell(r, x) == Cell(filled, x);
    }
    WrittenCountsFilled(t, filled, r, i);
    FilledCounts(t, f);
    forall k | 0 <= k < |NormalizedColumns| ensures Cell(r, NormalizedColumns[k]) == Normalized(t, CountColumns[k], i) {
      assert Cell(r, NormalizedColumns[k]) == Normalized(f, CountColumns[k], i);
    }
  }

  /** Writing the normalized columns leaves the filled count cells of a row as they are. */
  lemma WrittenCountsFilled(t: Table, filled: Row, r: Row, i: nat)
    requires i < |t.rows|
    requires forall x :: x in CountColumns ==> Cell(filled, x) == Filled(Cell(t.rows[i], x))
    requires forall x :: x !in NormalizedColumns ==> Cell(r, x) == Cell(filled, x)
    ensures forall k :: 0 <= k < |CountColumns| ==> Cell(r, CountColumns[k]) == Filled(Cell(t.rows[i], CountColumns[k]))
  {
    CountsNotNormalized();
    forall k | 0 <= k < |CountColumns| ensures Cell(r, CountColumns[k]) == Filled(Cell(t.rows[i], CountColumns[k])) {
      assert CountColumns[k] !in NormalizedColumns;
    }
  }

  /**
   * add_column_with_normalized_crash_values: fill, then normalize. A missing
   * count column is a KeyError at its fillna; a count column holding text is
   * a TypeError at its min. Otherwise every other cell is kept, every count is
   * filled and every normalized column holds its count's scaled value.
   */
  method AddNormalizedCrashValues(combined: Table) returns (r: Result<Table>)
    ensures r.Err? <==> (exists c :: c in CountColumns && c !in combined.columns)
                        || (exists c :: c in CountColumns && !Numeric(combined, c))
    ensures r.Err? && (exists c :: c in CountColumns && c !in combined.columns) ==>
              r.error == KeyError(FirstMissing(CountColumns, combined.columns))
    ensures r.Err? && (forall c :: c in CountColumns ==> c in combined.columns) ==>
              r.error == TypeError(FirstText(combined, CountColumns))
    ensures r.Ok? ==> r.value.columns == AddNew(combined.columns, NormalizedColumns)
    ensures r.Ok? ==> |r.value.rows| == |combined.rows|
    ensures r.Ok? ==> forall i :: 0 <= i < |combined.rows| ==> NormalizedRow(combined, i, r.value.rows[i])
  {
    var f :- FillCounts(combined);
    FilledTypes(combined, f);
    r := WriteNormalized(f);
    if r.Ok? {
      FilledThenWritten(combined, f, r.value);
    }
  }

  /** For each count column with a non-zero range: the minimum becomes 0, the maximum 100, everything lies in [0, 100]; a zero range gives null everywhere. */
  lemma NormalizedRange(t: Table, c: string, i: nat)
    requires Numeric(t, c) && i < |t.rows|
    ensures var xs := Counts(t, c);
      && (Normalized(t, c, i).Null? <==> MinOf(xs) == MaxOf(xs))
      && (MinOf(xs) != MaxOf(xs) ==> 0.0 <= Normalized(t, c, i).x <= 100.0)
      && (MinOf(xs) != MaxOf(xs) && xs[i] == MinOf(xs) ==> Normalized(t, c, i) == Num(0.0))
      && (MinOf(xs) != MaxOf(xs) && xs[i] == MaxOf(xs) ==> Normalized(t, c, i) == Num(100.0))
  {
    var xs := Counts(t, c);
    assert Filled(Cell(t.rows[i], c)) == Num(xs[i]);
    RoundedScaleRange(xs, i);
  }

  /** One count of a column scaled by its minimum and maximum to [0, 100] and rounded: null exactly when the range is zero. */
  lemma RoundedScaleRange(xs: seq<real>, i: nat)
    requires i < |xs|
    ensures var v := RoundCell(Scale(Num(xs[i]), MinOf(xs), MaxOf(xs), 100.0));
      && (v.Null? <==> MinOf(xs) == MaxOf(xs))
      && (MinOf(xs) != MaxOf(xs) ==> v.Num? && 0.0 <= v.x <= 100.0)
      && (MinOf(xs) != MaxOf(xs) && xs[i] == MinOf(xs) ==> v == Num(0.0))
      && (MinOf(xs) != MaxOf(xs) && xs[i] == MaxOf(xs) ==> v == Num(100.0))
  {
    if MinOf(xs) != MaxOf(xs) {
      assert MinOf(xs) <= xs[i] <= MaxOf(xs);
      ScaleBounds(Num(xs[i]), MinOf(xs), MaxOf(xs), 100.0);
      var y := Scale(Num(xs[i]), MinOf(xs), MaxOf(xs), 100.0).x;
      Round1Between(y, 0, 1000);
      Round1Keeps(0);
      Round1Keeps(1000);
    }
  }

  // ---------------------------------------------------------------------------
  // The per-route pass: normalize_per_Route
  // ---------------------------------------------------------------------------

  const RouteColumns: seq<string> :=
    ["Nebel", "Black Ice", "Neuschnee", "Gesamtschnee", "Niederschlag", "Wind", "Windböen", "Gesamt",
     "NormalizedCrash", "NormalizedCrashWet", "NormalizedCrashSnow", "NormalizedCrashWetSnow"]

  /** The twelve scaled columns are distinct and none of them is the route column. */
  lemma RouteColumnsDistinct()
    ensures Distinct(RouteColumns)
    ensures "Strecke" !in RouteColumns
  {
    assert "Black Ice"[0] != "Neuschnee"[0];
    assert "Gesamtschnee"[0] != "Niederschlag"[0];
  }

  /** The smallest number among the cells vals[j] of the rows j of route s; null when that route has no number. */
  function RouteMin(keys: seq<Value>, vals: seq<Value>, s: Value): (m: Value)
    requires |keys| == |vals|
    ensures m.Null? <==> forall j :: 0 <= j < |keys| && keys[j] == s ==> !vals[j].Num?
    ensures m.Num? ==> forall j :: 0 <= j < |keys| && keys[j] == s && vals[j].Num? ==> m.x <= vals[j].x
    ensures m.Num? ==> exists j :: 0 <= j < |keys| && keys[j] == s && vals[j] == m
    ensures !m.Text?
  {
    if |keys| == 0 then Null
    else
      var n := |keys| - 1;
      var m := RouteMin(keys[..n], vals[..n], s);
      assert forall j :: 0 <= j < n ==> keys[..n][j] == keys[j] && vals[..n][j] == vals[j];
      if keys[n] != s || !vals[n].Num? then m
      else if m.Num? && m.x <= vals[n].x then m
      else vals[n]
  }

  /** The largest number among the cells vals[j] of the rows j of route s; null when that route has no number. */
  function RouteMax(keys: seq<Value>, vals: seq<Value>, s: Value): (m: Value)
    requires |keys| == |vals|
    ensures m.Null? <==> forall j :: 0 <= j < |keys| && keys[j] == s ==> !vals[j].Num?
    ensures m.Num? ==> forall j :: 0 <= j < |keys| && keys[j] == s && vals[j].Num? ==> vals[j].x <= m.x
    ensures m.Num? ==> exists j :: 0 <= j < |keys| && keys[j] == s && vals[j] == m
    ensures !m.Text?
  {
    if |keys| == 0 then Null
    else
      var n := |keys| - 1;
      var m := RouteMax(keys[..n], vals[..n], s);
      assert forall j :: 0 <= j < n ==> keys[..n][j] == keys[j] && vals[..n][j] == vals[j];
      if keys[n] != s || !vals[n].Num? then m
      else if m.Num? && vals[n].x <= m.x then m
      else vals[n]
  }

  /**
   * (x - min) / (max - min) with min and max taken over the route of row i:
   * null for a row without a route (groupby leaves it out), for a null cell
   * and for a route whose values are all equal.
   */
  function RouteScaled(keys: seq<Value>, vals: seq<Value>, i: nat): Value
    requires |keys| == |vals| && i < |keys|
  {
    if keys[i].Null? || !vals[i].Num? then Null
    else Scale(vals[i], RouteMin(keys, vals, keys[i]).x, RouteMax(keys, vals, keys[i]).x, 1.0)
  }

  /** Within a route of distinct values the minimum becomes 0, the maximum 1 and everything lies in [0, 1]. */
  lemma RouteScaledRange(keys: seq<Value>, vals: seq<Value>, i: nat)
    requires |keys| == |vals| && i < |keys| && !keys[i].Null? && vals[i].Num?
    ensures var lo, hi := RouteMin(keys, vals, keys[i]), RouteMax(keys, vals, keys[i]);
      && lo.Num? && hi.Num? && lo.x <= vals[i].x <= hi.x
      && (RouteScaled(keys, vals, i).Null? <==> lo == hi)
      && (lo != hi ==> 0.0 <= RouteScaled(keys, vals, i).x <= 1.0)
      && (lo != hi && vals[i] == lo ==> RouteScaled(keys, vals, i) == Num(0.0))
      && (lo != hi && vals[i] == hi ==> RouteScaled(keys, vals, i) == Num(1.0))
  {
    var lo, hi := RouteMin(keys, vals, keys[i]), RouteMax(keys, vals, keys[i]);
    assert lo.Num? && hi.Num?;
    if lo != hi {
      ScaleBounds(vals[i], lo.x, hi.x, 1.0);
    }
  }

  /** The scaled values of one column, row by row. */
  function ScaleWithinRoutes(keys: seq<Value>, vals: seq<Value>): (out: seq<Value>)
    requires |keys| == |vals|
    ensures |out| == |vals| && forall i :: 0 <= i < |vals| ==> out[i] == RouteScaled(keys, vals, i)
  {
    seq(|vals|, i requires 0 <= i < |vals| => RouteScaled(keys, vals, i))
  }

  /** The cell of column x in row i once the route scaling has reached column x: scaled when numeric, otherwise kept. */
  function ScaledCell(t: Table, x: string, i: nat): Value
    requires i < |t.rows|
  {
    if Numeric(t, x) then RouteScaled(Column(t, "Strecke"), Column(t, x), i) else Cell(t.rows[i], x)
  }

  /** The table after the first k turns of the scaling loop. */
  ghost predicate ScaledUpTo(t: Table, d: Table, k: nat)
    requires k <= |RouteColumns|
  {
    && d.columns == t.columns && |d.rows| == |t.rows|
    && (forall i, x :: 0 <= i < |t.rows| && x !in RouteColumns[..k] ==> Cell(d.rows[i], x) == Cell(t.rows[i], x))
    && (forall i, j :: 0 <= i < |t.rows| && 0 <= j < k ==> Cell(d.rows[i], RouteColumns[j]) == ScaledCell(t, RouteColumns[j], i))
  }

  /** Column x of d and of t agree when the loop has not touched x. */
  lemma UntouchedColumn(t: Table, d: Table, k: nat, x: string)
    requires k <= |RouteColumns| && ScaledUpTo(t, d, k) && x !in RouteColumns[..k]
    ensures Column(d, x) == Column(t, x) && Numeric(d, x) == Numeric(t, x)
  {
    assert forall i :: 0 <= i < |t.rows| ==> Cell(d.rows[i], x) == Cell(t.rows[i], x);
  }

  /** Turn k of the loop scales column k when it is numeric, and the first k + 1 columns are then done. */
  lemma ScaleStep(t: Table, d: Table, k: nat, u: Table)
    requires k < |RouteColumns| && ScaledUpTo(t, d, k) && RouteColumns[k] in t.columns
    requires u == if Numeric(d, RouteColumns[k])
                  then SetColumn(d, RouteColumns[k], ScaleWithinRoutes(Column(d, "Strecke"), Column(d, RouteColumns[k])))
                  else d
    ensures ScaledUpTo(t, u, k + 1)
  {
    var col := RouteColumns[k];
    RouteColumnsDistinct();
    assert "Strecke" !in RouteColumns[..k];
    assert col !in RouteColumns[..k];
    UntouchedColumn(t, d, k, "Strecke");
    UntouchedColumn(t, d, k, col);
    assert RouteColumns[..k + 1] == RouteColumns[..k] + [col];
    assert |u.rows| == |t.rows| && u.columns == t.columns;
    forall i, x | 0 <= i < |t.rows| && x !in RouteColumns[..k + 1]
      ensures Cell(u.rows[i], x) == Cell(t.rows[i], x)
    {
      assert x !in RouteColumns[..k] + [col];
      assert x != col;
      assert x !in RouteColumns[..k];
    }
    forall i | 0 <= i < |t.rows|
      ensures Cell(u.rows[i], col) == ScaledCell(t, col, i)
    {
      assert Cell(d.rows[i], col) == Cell(t.rows[i], col);
    }
    forall i, j | 0 <= i < |t.rows| && 0 <= j < k + 1
      ensures Cell(u.rows[i], RouteColumns[j]) == ScaledCell(t, RouteColumns[j], i)
    {
      if j < k {
        assert RouteColumns[j] != col;
      }
    }
  }

  /** One turn of the scaling loop: a numeric column is replaced by its per-route scaling, any other is left alone. */
  method ScaleColumn(t: Table, d: Table, k: nat) returns (u: Table)
    requires k < |RouteColumns| && ScaledUpTo(t, d, k) && RouteColumns[k] in t.columns
    ensures ScaledUpTo(t, u, k + 1)
  {
    var col := RouteColumns[k];
    u := d;
    if Numeric(d, col) {
      u := SetColumn(d, col, ScaleWithinRoutes(Column(d, "Strecke"), Column(d, col)));
    }
    ScaleStep(t, d, k, u);
  }

  /**
   * The scaling loop of normalize_per_Route: a table without a route column
   * fails at the groupby, a missing listed column at its turn; otherwise every
   * numeric listed column is replaced by its per-route scaling and every
   * other cell is kept.
   */
  method ScaleRoutes(t: Table) returns (r: Result<Table>)
    ensures r.Err? <==> "Strecke" !in t.columns || exists c :: c in RouteColumns && c !in t.columns
    ensures r.Err? ==> r.error == if "Strecke" !in t.columns then KeyError("Strecke")
                                  else KeyError(FirstMissing(RouteColumns, t.columns))
    ensures r.Ok? ==> ScaledUpTo(t, r.value, |RouteColumns|)
  {
    if "Strecke" !in t.columns {
      return Err(KeyError("Strecke"));
    }
    var d := t;
    assert RouteColumns[..0] == [];
    for k := 0 to |RouteColumns|
      invariant ScaledUpTo(t, d, k)
      invariant forall j :: 0 <= j < k ==> RouteColumns[j] in t.columns
    {
      var col := RouteColumns[k];
      if col !in d.columns {
        FirstMissingAt(RouteColumns, t.columns, k);
        return Err(KeyError(col));
      }
      d := ScaleColumn(t, d, k);
    }
    assert forall c :: c in RouteColumns ==> c in t.columns;
    r := Ok(d);
  }

  // ---------------------------------------------------------------------------
  // smooth_crash_data, applied to every route: a centred rolling mean of
  // window 3 with min_periods=1
  // ---------------------------------------------------------------------------

  const SmoothedColumns: seq<string> :=
    ["SmoothedCrash", "SmoothedCrashWet", "SmoothedCrashSnow", "SmoothedCrashWetSnow"]

  /** The last position at or before j whose route is s, or -1 when there is none. */
  function PrevOf(keys: seq<Value>, s: Value, j: int): (p: int)
    requires -1 <= j < |keys|
    ensures -1 <= p <= j
    ensures p >= 0 ==> keys[p] == s
    ensures forall q :: p < q <= j ==> keys[q] != s
    decreases j + 1
  {
    if j < 0 then -1 else if keys[j] == s then j else PrevOf(keys, s, j - 1)
  }

  /** The first position at or after j whose route is s, or |keys| when there is none. */
  function NextOf(keys: seq<Value>, s: Value, j: int): (n: int)
    requires 0 <= j <= |keys|
    ensures j <= n <= |keys|
    ensures n < |keys| ==> keys[n] == s
    ensures forall q :: j <= q < n ==> keys[q] != s
    decreases |keys| - j
  {
    if j == |keys| then |keys| else if keys[j] == s then j else NextOf(keys, s, j + 1)
  }

  /** The rolling window of row i: the previous row of its route, itself and the next row of its route, where they exist. */
  function Window(keys: seq<Value>, vals: seq<Value>, i: nat): seq<Value>
    requires |keys| == |vals| && i < |keys|
  {
    var p := PrevOf(keys, keys[i], i - 1);
    var n := NextOf(keys, keys[i], i + 1);
    (if p >= 0 then [vals[p]] else []) + [vals[i]] + (if n < |keys| then [vals[n]] else [])
  }

  function SumOf(vs: seq<Value>): real {
    if vs == [] then 0.0 else SumOf(vs[..|vs| - 1]) + NumOf(vs[|vs| - 1])
  }

  function NumCount(vs: seq<Value>): nat {
    if vs == [] then 0 else NumCount(vs[..|vs| - 1]) + (if vs[|vs| - 1].Num? then 1 else 0)
  }

  /** The mean of the numbers among vs; null when there is none (min_periods=1 needs one). */
  function Mean(vs: seq<Value>): Value {
    if NumCount(vs) == 0 then Null else Num(SumOf(vs) / NumCount(vs) as real)
  }

  /** The smoothed value of row i. */
  function Smoothed(keys: seq<Value>, vals: seq<Value>, i: nat): Value
    requires |keys| == |vals| && i < |keys|
  {
    Mean(Window(keys, vals, i))
  }

  /** The numbers of a sequence of non-text values between lo and hi have a mean between them. */
  lemma {:induction false} SumBounds(vs: seq<Value>, lo: real, hi: real)
    requires forall j :: 0 <= j < |vs| ==> vs[j].Num? ==> lo <= vs[j].x <= hi
    ensures lo * NumCount(vs) as real <= SumOf(vs) <= hi * NumCount(vs) as real
  {
    if vs != [] {
      SumBounds(vs[..|vs| - 1], lo, hi);
    }
  }

  /** A quotient of a sum between n * lo and n * hi by n lies between lo and hi. */
  lemma QuotientBounds(sum: real, n: real, lo: real, hi: real)
    requires n > 0.0 && lo * n <= sum <= hi * n
    ensures lo <= sum / n <= hi
  {
    var m := sum / n;
    assert sum == m * n;
  }

  lemma MeanBounds(vs: seq<Value>, lo: real, hi: real)
    requires forall j :: 0 <= j < |vs| ==> vs[j].Num? ==> lo <= vs[j].x <= hi
    ensures Mean(vs).Num? ==> lo <= Mean(vs).x <= hi
  {
    SumBounds(vs, lo, hi);
    if NumCount(vs) > 0 {
      QuotientBounds(SumOf(vs), NumCount(vs) as real, lo, hi);
    }
  }

  lemma MeanOne(a: Value)
    requires a.Num?
    ensures Mean([a]) == a
  {
    assert [a][..0] == [];
    assert NumCount([a]) == 1 && SumOf([a]) == a.x;
  }

  lemma MeanTwo(a: Value, b: Value)
    requires a.Num? && b.Num?
    ensures Mean([a, b]) == Num((a.x + b.x) / 2.0)
  {
    assert [a, b][..1] == [a] && [a][..0] == [];
    assert NumCount([a]) == 1 && SumOf([a]) == a.x;
    assert NumCount([a, b]) == NumCount([a]) + 1 && SumOf([a, b]) == SumOf([a]) + b.x;
  }

  lemma MeanThree(a: Value, b: Value, c: Value)
    requires a.Num? && b.Num? && c.Num?
    ensures Mean([a, b, c]) == Num((a.x + b.x + c.x) / 3.0)
  {
    assert [a, b, c][..2] == [a, b] && [a, b][..1] == [a] && [a][..0] == [];
    assert NumCount([a]) == 1 && SumOf([a]) == a.x;
    assert NumCount([a, b]) == NumCount([a]) + 1 && SumOf([a, b]) == SumOf([a]) + b.x;
    assert NumCount([a, b, c]) == NumCount([a, b]) + 1 && SumOf([a, b, c]) == SumOf([a, b]) + c.x;
  }

  /** The window holds rows of the same route only, at most one on each side of row i. */
  lemma WindowInRoute(keys: seq<Value>, vals: seq<Value>, i: nat)
    requires |keys| == |vals| && i < |keys|
    ensures var p, n := PrevOf(keys, keys[i], i - 1), NextOf(keys, keys[i], i + 1);
      && (p >= 0 ==> p < i && keys[p] == keys[i] && forall q :: p < q < i ==> keys[q] != keys[i])
      && (n < |keys| ==> i < n && keys[n] == keys[i] && forall q :: i < q < n ==> keys[q] != keys[i])
  {
  }

  /** A route of one row is left unchanged. */
  lemma SmoothSingle(keys: seq<Value>, vals: seq<Value>, i: nat)
    requires |keys| == |vals| && i < |keys| && !vals[i].Text?
    requires forall q :: 0 <= q < |keys| && q != i ==> keys[q] != keys[i]
    ensures Smoothed(keys, vals, i) == vals[i]
  {
    var p, n := PrevOf(keys, keys[i], i - 1), NextOf(keys, keys[i], i + 1);
    assert p == -1 && n == |keys|;
    var w := Window(keys, vals, i);
    assert w == [vals[i]];
    if vals[i].Num? {
      MeanOne(vals[i]);
    } else {
      assert [vals[i]][..0] == [];
      assert NumCount([vals[i]]) == 0;
    }
  }

  /** The first row of a route with a successor averages two values. */
  lemma SmoothFirst(keys: seq<Value>, vals: seq<Value>, i: nat)
    requires |keys| == |vals| && i < |keys|
    requires forall q :: 0 <= q < i ==> keys[q] != keys[i]
    requires NextOf(keys, keys[i], i + 1) < |keys|
    requires vals[i].Num? && vals[NextOf(keys, keys[i], i + 1)].Num?
    ensures Smoothed(keys, vals, i) == Num((vals[i].x + vals[NextOf(keys, keys[i], i + 1)].x) / 2.0)
  {
    var n := NextOf(keys, keys[i], i + 1);
    assert PrevOf(keys, keys[i], i - 1) == -1;
    var w := Window(keys, vals, i);
    assert w == [vals[i], vals[n]];
    MeanTwo(vals[i], vals[n]);
  }

  /** The last row of a route with a predecessor averages two values. */
  lemma SmoothLast(keys: seq<Value>, vals: seq<Value>, i: nat)
    requires |keys| == |vals| && i < |keys|
    requires forall q :: i < q < |keys| ==> keys[q] != keys[i]
    requires PrevOf(keys, keys[i], i - 1) >= 0
    requires vals[i].Num? && vals[PrevOf(keys, keys[i], i - 1)].Num?
    ensures Smoothed(keys, vals, i) == Num((vals[PrevOf(keys, keys[i], i - 1)].x + vals[i].x) / 2.0)
  {
    var p := PrevOf(keys, keys[i], i - 1);
    assert NextOf(keys, keys[i], i + 1) == |keys|;
    var w := Window(keys, vals, i);
    assert w == [vals[p], vals[i]];
    MeanTwo(vals[p], vals[i]);
  }

  /** An inner row of a route averages itself and its two neighbours. */
  lemma SmoothInner(keys: seq<Value>, vals: seq<Value>, i: nat)
    requires |keys| == |vals| && i < |keys|
    requires PrevOf(keys, keys[i], i - 1) >= 0 && NextOf(keys, keys[i], i + 1) < |keys|
    requires vals[PrevOf(keys, keys[i], i - 1)].Num? && vals[i].Num? && vals[NextOf(keys, keys[i], i + 1)].Num?
    ensures Smoothed(keys, vals, i) ==
      Num((vals[PrevOf(keys, keys[i], i - 1)].x + vals[i].x + vals[NextOf(keys, keys[i], i + 1)].x) / 3.0)
  {
    var p, n := PrevOf(keys, keys[i], i - 1), NextOf(keys, keys[i], i + 1);
    var w := Window(keys, vals, i);
    assert w == [vals[p], vals[i], vals[n]];
    MeanThree(vals[p], vals[i], vals[n]);
  }

  /** Values of a route between lo and hi smooth to values between lo and hi. */
  lemma SmoothBounds(keys: seq<Value>, vals: seq<Value>, i: nat, lo: real, hi: real)
    requires |keys| == |vals| && i < |keys|
    requires forall j :: 0 <= j < |vals| && keys[j] == keys[i] && vals[j].Num? ==> lo <= vals[j].x <= hi
    ensures Smoothed(keys, vals, i).Num? ==> lo <= Smoothed(keys, vals, i).x <= hi
  {
    var w := Window(keys, vals, i);
    var p, n := PrevOf(keys, keys[i], i - 1), NextOf(keys, keys[i], i + 1);
    assert forall j :: 0 <= j < |w| ==> w[j] in Window(keys, vals, i);
    assert forall v :: v in w ==> v == vals[i] || (p >= 0 && v == vals[p]) || (n < |keys| && v == vals[n]);
    MeanBounds(w, lo, hi);
  }

  /** The rows that belong to some route, in order: groupby('Strecke') leaves out the rows whose route is null. */
  function RoutedRows(t: Table): (ks: seq<nat>)
    ensures forall k :: 0 <= k < |ks| ==> ks[k] < |t.rows|
    ensures forall k, l :: 0 <= k < l < |ks| ==> ks[k] < ks[l]
    ensures forall i :: 0 <= i < |t.rows| ==> (i in ks <==> !Cell(t.rows[i], "Strecke").Null?)
  {
    var keys := Column(t, "Strecke");
    var routed := (v: Value) => !v.Null?;
    FilterIsSubsequence(keys, routed);
    KeptIndices(keys, routed)
  }

  /** Row i with the four smoothed columns set. */
  function SmoothedRow(t: Table, i: nat): Row
    requires i < |t.rows|
  {
    var keys := Column(t, "Strecke");
    t.rows[i][SmoothedColumns[0] := Smoothed(keys, Column(t, NormalizedColumns[0]), i)]
             [SmoothedColumns[1] := Smoothed(keys, Column(t, NormalizedColumns[1]), i)]
             [SmoothedColumns[2] := Smoothed(keys, Column(t, NormalizedColumns[2]), i)]
             [SmoothedColumns[3] := Smoothed(keys, Column(t, NormalizedColumns[3]), i)]
  }

  /**
   * A column every group of groupby('Strecke') can take a rolling mean of:
   * no row with a route holds text in it. Each group converts its own rows to
   * float, so text in a row without a route is never looked at.
   */
  predicate RoutedNumeric(t: Table, c: string) {
    forall i :: 0 <= i < |t.rows| && !Cell(t.rows[i], "Strecke").Null? ==> !Cell(t.rows[i], c).Text?
  }

  /** The error smoothing meets first: per normalized column in order, a missing column, else one holding text in a routed row. */
  function FirstUnsmoothable(t: Table, cs: seq<string>): (e: Error)
    requires exists c :: c in cs && (c !in t.columns || !RoutedNumeric(t, c))
    ensures e.KeyError? || e.DataError?
    ensures e.KeyError? ==> e.column in cs && e.column !in t.columns
    ensures e.DataError? ==> e.column in cs && e.column in t.columns && !RoutedNumeric(t, e.column)
  {
    if cs[0] !in t.columns then KeyError(cs[0])
    else if !RoutedNumeric(t, cs[0]) then DataError(cs[0])
    else FirstUnsmoothable(t, cs[1..])
  }

  /**
   * groupby('Strecke').apply(smooth_crash_data): the rows of every route, in
   * their original order and without the rows whose route is null, each with
   * the four smoothed columns. A table without routed rows never reaches the
   * smoothing function and gives no rows.
   */
  function SmoothRoutes(t: Table): (r: Result<Table>)
    ensures r.Err? <==> "Strecke" !in t.columns
                        || (|RoutedRows(t)| > 0 && exists c :: c in NormalizedColumns && (c !in t.columns || !RoutedNumeric(t, c)))
    ensures r.Ok? ==> r.value.columns == if |RoutedRows(t)| == 0 then t.columns else AddNew(t.columns, SmoothedColumns)
    ensures r.Ok? ==> |r.value.rows| == |RoutedRows(t)|
    ensures r.Ok? ==> forall k :: 0 <= k < |r.value.rows| ==> r.value.rows[k] == SmoothedRow(t, RoutedRows(t)[k])
  {
    var routed := RoutedRows(t);
    if "Strecke" !in t.columns then Err(KeyError("Strecke"))
    else if |routed| == 0 then Ok(Table(t.columns, []))
    else if exists c :: c in NormalizedColumns && (c !in t.columns || !RoutedNumeric(t, c)) then
      Err(FirstUnsmoothable(t, NormalizedColumns))
    else
      Ok(Table(AddNew(t.columns, SmoothedColumns), SmoothedRows(t, routed)))
  }

  /** The rows ks of t, in order, each with the four smoothed columns. */
  function SmoothedRows(t: Table, ks: seq<nat>): (rows: seq<Row>)
    requires forall k :: 0 <= k < |ks| ==> ks[k] < |t.rows|
    ensures |rows| == |ks| && forall k :: 0 <= k < |ks| ==> rows[k] == SmoothedRow(t, ks[k])
  {
    seq(|ks|, k requires 0 <= k < |ks| => SmoothedRow(t, ks[k]))
  }

  /** Column x once the scaling loop is done. */
  function ScaledColumn(t: Table, x: string): (vs: seq<Value>)
    ensures |vs| == |t.rows| && forall i :: 0 <= i < |t.rows| ==> vs[i] == ScaledCell(t, x, i)
  {
    seq(|t.rows|, i requires 0 <= i < |t.rows| => ScaledCell(t, x, i))
  }

  /** The cells of a row of the per-route pass that came from row i of t. */
  ghost predicate PerRouteRow(t: Table, i: nat, row: Row)
    requires i < |t.rows|
  {
    && (forall x :: x !in RouteColumns && x !in SmoothedColumns ==> Cell(row, x) == Cell(t.rows[i], x))
    && (forall j :: 0 <= j < |RouteColumns| ==> Cell(row, RouteColumns[j]) == ScaledCell(t, RouteColumns[j], i))
    && (forall m :: 0 <= m < |SmoothedColumns| ==>
          Cell(row, SmoothedColumns[m]) == Smoothed(Column(t, "Strecke"), ScaledColumn(t, NormalizedColumns[m]), i))
  }

  /** Every normalized column is among the scaled ones, and no smoothed column is. */
  lemma ColumnLists()
    ensures forall m :: 0 <= m < |NormalizedColumns| ==> NormalizedColumns[m] == RouteColumns[8 + m]
    ensures forall m, j :: 0 <= m < |SmoothedColumns| && 0 <= j < |RouteColumns| ==> SmoothedColumns[m] != RouteColumns[j]
    ensures "Strecke" !in SmoothedColumns
  {
    assert "SmoothedCrash"[0] != "Niederschlag"[0] && "SmoothedCrash"[0] != "Gesamtschnee"[0];
  }

  /** The scaled table as the smoothing sees it: the same routes, and the normalized columns scaled. */
  lemma ScaledColumns(t: Table, s: Table)
    requires ScaledUpTo(t, s, |RouteColumns|)
    ensures s.columns == t.columns && |s.rows| == |t.rows|
    ensures Column(s, "Strecke") == Column(t, "Strecke") && RoutedRows(s) == RoutedRows(t)
    ensures forall m :: 0 <= m < |NormalizedColumns| ==> Column(s, NormalizedColumns[m]) == ScaledColumn(t, NormalizedColumns[m])
    ensures forall c :: c in NormalizedColumns ==> Numeric(s, c) == Numeric(t, c)
    ensures forall c :: c in NormalizedColumns ==> RoutedNumeric(s, c) == RoutedNumeric(t, c)
  {
    RouteColumnsDistinct();
    ColumnLists();
    assert RouteColumns[..|RouteColumns|] == RouteColumns;
    assert forall i :: 0 <= i < |t.rows| ==> Cell(s.rows[i], "Strecke") == Cell(t.rows[i], "Strecke");
    forall m | 0 <= m < |NormalizedColumns|
      ensures Column(s, NormalizedColumns[m]) == ScaledColumn(t, NormalizedColumns[m])
    {
      assert NormalizedColumns[m] == RouteColumns[8 + m];
    }
    forall c | c in NormalizedColumns
      ensures Numeric(s, c) == Numeric(t, c) && RoutedNumeric(s, c) == RoutedNumeric(t, c)
    {
      var m :| 0 <= m < |NormalizedColumns| && NormalizedColumns[m] == c;
      assert c == RouteColumns[8 + m];
      assert forall i :: 0 <= i < |t.rows| ==> Cell(s.rows[i], c) == ScaledCell(t, c, i);
      ScaledKeepsText(t, c);
    }
  }

  /** The scaling loop turns no cell into text and keeps text where it was. */
  lemma ScaledKeepsText(t: Table, c: string)
    ensures forall i :: 0 <= i < |t.rows| ==> (ScaledCell(t, c, i).Text? <==> Cell(t.rows[i], c).Text?)
  {
  }

  /** The cells of a smoothed row: the smoothed columns are set and every other cell is kept. */
  lemma SmoothedRowCells(s: Table, i: nat)
    requires i < |s.rows|
    ensures forall x :: x !in SmoothedColumns ==> Cell(SmoothedRow(s, i), x) == Cell(s.rows[i], x)
    ensures forall m :: 0 <= m < |SmoothedColumns| ==>
              Cell(SmoothedRow(s, i), SmoothedColumns[m]) == Smoothed(Column(s, "Strecke"), Column(s, NormalizedColumns[m]), i)
  {
    // The four names differ in length, so each update leaves the others alone.
    assert |SmoothedColumns[0]| == 13 && |SmoothedColumns[1]| == 16;
    assert |SmoothedColumns[2]| == 17 && |SmoothedColumns[3]| == 20;
    forall m | 0 <= m < |SmoothedColumns|
      ensures Cell(SmoothedRow(s, i), SmoothedColumns[m]) == Smoothed(Column(s, "Strecke"), Column(s, NormalizedColumns[m]), i)
    {
      if m == 0 {
      } else if m == 1 {
      } else if m == 2 {
      } else {
      }
    }
  }

  /** A smoothed row of the scaled table has the cells the per-route pass promises. */
  lemma ScaledThenSmoothedRow(t: Table, s: Table, i: nat)
    requires ScaledUpTo(t, s, |RouteColumns|) && i < |t.rows|
    ensures PerRouteRow(t, i, SmoothedRow(s, i))
  {
    ScaledColumns(t, s);
    ColumnLists();
    SmoothedRowCells(s, i);
    assert RouteColumns[..|RouteColumns|] == RouteColumns;
  }

  /**
   * normalize_per_Route on the table read from the store: scale every listed
   * numeric column within its route, then smooth the four normalized crash
   * columns within each route. A missing route column or listed column is a
   * KeyError; a normalized column holding text in a row with a route cannot be
   * smoothed (a DataError). The rows without a route are dropped, the others
   * keep their order.
   */
  method NormalizePerRoute(t: Table) returns (r: Result<Table>)
    ensures r.Err? <==> "Strecke" !in t.columns
                        || (exists c :: c in RouteColumns && c !in t.columns)
                        || (|RoutedRows(t)| > 0 && exists c :: c in NormalizedColumns && !RoutedNumeric(t, c))
    ensures r.Ok? ==> r.value.columns == if |RoutedRows(t)| == 0 then t.columns else AddNew(t.columns, SmoothedColumns)
    ensures r.Ok? ==> |r.value.rows| == |RoutedRows(t)|
    ensures r.Ok? ==> forall k :: 0 <= k < |r.value.rows| ==> PerRouteRow(t, RoutedRows(t)[k], r.value.rows[k])
  {
    ColumnLists();
    var scaled :- ScaleRoutes(t);
    ScaledColumns(t, scaled);
    r := SmoothRoutes(scaled);
    if r.Ok? {
      forall k | 0 <= k < |r.value.rows| ensures PerRouteRow(t, RoutedRows(t)[k], r.value.rows[k]) {
        ScaledThenSmoothedRow(t, scaled, RoutedRows(t)[k]);
      }
    }
  }

  /** After the per-route pass a smoothed crash value is null or lies in [0, 1]. */
  lemma SmoothedInUnitRange(t: Table, c: string, i: nat)
    requires Numeric(t, c) && i < |t.rows|
    ensures var v := Smoothed(Column(t, "Strecke"), ScaledColumn(t, c), i); v.Num? ==> 0.0 <= v.x <= 1.0
  {
    var keys, vals := Column(t, "Strecke"), ScaledColumn(t, c);
    forall j | 0 <= j < |vals| && keys[j] == keys[i] && vals[j].Num? ensures 0.0 <= vals[j].x <= 1.0 {
      RouteScaledRange(keys, Column(t, c), j);
    }
    SmoothBounds(keys, vals, i, 0.0, 1.0);
  }
}
