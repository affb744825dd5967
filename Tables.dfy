/**
 * Tables: the in-memory picture of a data frame that every stage of the
 * pipeline reads and writes. A table is an ordered list of column names and a
 * sequence of rows; a row maps column names to cell values. A cell is a number,
 * a text or null (pandas' NaN and None both become Null).
 */
module Tables {

  datatype Value = Null | Num(x: real) | Text(s: string)

  type Row = map<string, Value>

  datatype Table = Table(columns: seq<string>, rows: seq<Row>)

  /** The errors the pipeline raises, one constructor per kind of failure. */
  datatype Error =
    | TableNotFound(name: string)     // the store has no table of that name
    | CrashYearMissing                // one of the three per-year nearby tables is missing
    | UnknownYear(year: int)          // harmonization asked for a year outside 2017..2019
    | KeyError(column: string)        // a column the code indexes is absent
    | DuplicateColumn(column: string) // a rename or join would create a second column of that name
    | TypeError(column: string)       // a column holds values the operation cannot combine
    | AttributeError(column: string)  // the .str accessor is used on a column without strings
    | DataError(column: string)       // a rolling window finds no numeric values to aggregate in that column
    | EmptyConcat                     // the distance list of an empty crash batch is concatenated
    | EmptyReduction                  // a minimum is taken over zero weather points
    | EmptyArgmin                     // an argmin is taken over zero weather points

  datatype Result<T> = Ok(value: T) | Err(error: Error) {
    predicate IsFailure() { Err? }
    function PropagateFailure<U>(): Result<U> requires Err? { Err(error) }
    function Extract(): T requires Ok? { value }
  }

  /** The value of column c in row r; a cell that is not there reads as null. */
  function Cell(r: Row, c: string): Value {
    if c in r then r[c] else Null
  }

  function Column(t: Table, c: string): (vs: seq<Value>)
    ensures |vs| == |t.rows|
    ensures forall i :: 0 <= i < |vs| ==> vs[i] == Cell(t.rows[i], c)
  {
    seq(|t.rows|, i requires 0 <= i < |t.rows| => Cell(t.rows[i], c))
  }

  /** Pairwise distinct elements. */
  predicate Distinct<T(==)>(s: seq<T>) {
    forall i, j :: 0 <= i < j < |s| ==> s[i] != s[j]
  }

  /** The rectangular shape pandas guarantees: distinct column names and every row over exactly them. */
  predicate WellFormed(t: Table) {
    Distinct(t.columns) && forall i :: 0 <= i < |t.rows| ==> t.rows[i].Keys == set c | c in t.columns
  }

  // ---------------------------------------------------------------------------
  // Order-preserving selection of the elements that satisfy a predicate
  // ---------------------------------------------------------------------------

  function Filter<T>(s: seq<T>, p: T -> bool): (r: seq<T>)
    ensures |r| <= |s|
  {
    if s == [] then [] else (if p(s[0]) then [s[0]] else []) + Filter(s[1..], p)
  }

  /** Every kept element satisfies p, and every element that satisfies p is kept. */
  lemma {:induction false} FilterMembers<T>(s: seq<T>, p: T -> bool)
    ensures forall k :: 0 <= k < |Filter(s, p)| ==> Filter(s, p)[k] in s && p(Filter(s, p)[k])
    ensures forall i :: 0 <= i < |s| && p(s[i]) ==> s[i] in Filter(s, p)
  {
    if s != [] {
      FilterMembers(s[1..], p);
      var head := if p(s[0]) then [s[0]] else [];
      assert Filter(s, p) == head + Filter(s[1..], p);
      assert forall i :: 1 <= i < |s| ==> s[i] == s[1..][i - 1];
    }
  }

  lemma {:induction false} FilterConcat<T>(a: seq<T>, b: seq<T>, p: T -> bool)
    ensures Filter(a + b, p) == Filter(a, p) + Filter(b, p)
  {
    if a == [] {
      assert a + b == b;
    } else {
      var head := if p(a[0]) then [a[0]] else [];
      assert (a + b)[0] == a[0];
      assert (a + b)[1..] == a[1..] + b;
      assert Filter(a + b, p) == head + Filter(a[1..] + b, p);
      assert Filter(a, p) == head + Filter(a[1..], p);
      FilterConcat(a[1..], b, p);
      assert head + (Filter(a[1..], p) + Filter(b, p)) == (head + Filter(a[1..], p)) + Filter(b, p);
    }
  }

  /** The positions, in increasing order, of the elements that satisfy p. */
  function KeptIndices<T>(s: seq<T>, p: T -> bool): (ks: seq<nat>)
    ensures forall k :: 0 <= k < |ks| ==> ks[k] < |s|
  {
    if s == [] then []
    else KeptIndices(s[..|s| - 1], p) + (if p(s[|s| - 1]) then [|s| - 1] else [])
  }

  /**
   * Filter keeps exactly the elements that satisfy p, in their original order:
   * the result is s read at the increasing positions KeptIndices(s, p), and a
   * position is among them exactly when its element satisfies p.
   */
  lemma {:induction false} FilterIsSubsequence<T>(s: seq<T>, p: T -> bool)
    ensures |Filter(s, p)| == |KeptIndices(s, p)|
    ensures forall k :: 0 <= k < |Filter(s, p)| ==> Filter(s, p)[k] == s[KeptIndices(s, p)[k]]
    ensures forall k, l :: 0 <= k < l < |KeptIndices(s, p)| ==> KeptIndices(s, p)[k] < KeptIndices(s, p)[l]
    ensures forall i :: 0 <= i < |s| ==> (i in KeptIndices(s, p) <==> p(s[i]))
  {
    if s != [] {
      var init, last := s[..|s| - 1], s[|s| - 1];
      assert s == init + [last];
      FilterIsSubsequence(init, p);
      FilterConcat(init, [last], p);
      assert [last][1..] == [];
      assert Filter([last], p) == if p(last) then [last] else [];
    }
  }

  /** Filtering twice is filtering by the conjunction. */
  lemma {:induction false} FilterFilter<T>(s: seq<T>, p: T -> bool, q: T -> bool)
    ensures Filter(Filter(s, p), q) == Filter(s, x => p(x) && q(x))
  {
    if s != [] {
      FilterFilter(s[1..], p, q);
      var head := if p(s[0]) then [s[0]] else [];
      FilterConcat(head, Filter(s[1..], p), q);
      if p(s[0]) {
        assert head[1..] == [];
      }
    }
  }

  /** Filtering by q after p is filtering by q alone when q implies p on s. */
  lemma {:induction false} FilterNarrower<T>(s: seq<T>, p: T -> bool, q: T -> bool)
    requires forall i :: 0 <= i < |s| && q(s[i]) ==> p(s[i])
    ensures Filter(Filter(s, p), q) == Filter(s, q)
  {
    if s != [] {
      assert q(s[0]) ==> p(s[0]);
      FilterNarrower(s[1..], p, q);
      var head := if p(s[0]) then [s[0]] else [];
      FilterConcat(head, Filter(s[1..], p), q);
      if p(s[0]) {
        assert head[1..] == [];
      }
    }
  }

  /** Filtering by p and then by q is filtering by any r that is p and q on every element of s. */
  lemma {:induction false} FilterBoth<T>(s: seq<T>, p: T -> bool, q: T -> bool, r: T -> bool)
    requires forall i :: 0 <= i < |s| ==> r(s[i]) == (p(s[i]) && q(s[i]))
    ensures Filter(Filter(s, p), q) == Filter(s, r)
  {
    if s != [] {
      assert r(s[0]) == (p(s[0]) && q(s[0]));
      FilterBoth(s[1..], p, q, r);
      var head := if p(s[0]) then [s[0]] else [];
      FilterConcat(head, Filter(s[1..], p), q);
      if p(s[0]) {
        assert head[1..] == [];
      }
    }
  }

  /** Filtering by predicates that agree on every element gives the same result. */
  lemma {:induction false} FilterCongruent<T>(s: seq<T>, p: T -> bool, q: T -> bool)
    requires forall i :: 0 <= i < |s| ==> p(s[i]) == q(s[i])
    ensures Filter(s, p) == Filter(s, q)
  {
    if s != [] {
      assert p(s[0]) == q(s[0]);
      FilterCongruent(s[1..], p, q);
    }
  }

  /** The elements of s, each transformed by f. */
  function Map<T, U>(s: seq<T>, f: T -> U): (r: seq<U>)
    ensures |r| == |s| && forall i :: 0 <= i < |s| ==> r[i] == f(s[i])
  {
    seq(|s|, i requires 0 <= i < |s| => f(s[i]))
  }

  /**
   * Transforming and then filtering is filtering by what the transformed element
   * would satisfy and then transforming.
   */
  lemma {:induction false} FilterMap<T, U>(s: seq<T>, f: T -> U, p: U -> bool, q: T -> bool)
    requires forall i :: 0 <= i < |s| ==> q(s[i]) == p(f(s[i]))
    ensures Filter(Map(s, f), p) == Map(Filter(s, q), f)
  {
    if s != [] {
      var m := Map(s, f);
      assert m[0] == f(s[0]);
      assert m[1..] == Map(s[1..], f);
      FilterMap(s[1..], f, p, q);
      var head := if q(s[0]) then [s[0]] else [];
      assert Filter(s, q) == head + Filter(s[1..], q);
      assert Filter(m, p) == Map(head, f) + Filter(m[1..], p);
      assert Map(head + Filter(s[1..], q), f) == Map(head, f) + Map(Filter(s[1..], q), f);
    }
  }

  /** Maps that agree on every element of s give the same result. */
  lemma MapCongruent<T, U>(s: seq<T>, f: T -> U, g: T -> U)
    requires forall i :: 0 <= i < |s| ==> f(s[i]) == g(s[i])
    ensures Map(s, f) == Map(s, g)
  {
  }

  function Always<T>(): T -> bool { x => true }

  function Both<T>(K: T -> bool, L: T -> bool): T -> bool { x => K(x) && L(x) }

  function Compose<T, U, V>(F: T -> U, g: U -> V): T -> V { x => g(F(x)) }

  /**
   * rows arose from src by a chain of order-preserving filters and per-row
   * transformations: it is src filtered by K, each survivor transformed by F.
   */
  ghost predicate Derived<T, U>(rows: seq<U>, src: seq<T>, K: T -> bool, F: T -> U) {
    rows == Map(Filter(src, K), F)
  }

  lemma {:induction false} FilterTrue<T>(s: seq<T>, K: T -> bool)
    requires forall i :: 0 <= i < |s| ==> K(s[i])
    ensures Filter(s, K) == s
  {
    if s != [] {
      assert K(s[0]);
      FilterTrue(s[1..], K);
    }
  }

  /** A transformation of every row of src starts a chain. */
  lemma DerivedStart<T, U>(rows: seq<U>, src: seq<T>, F: T -> U)
    requires |rows| == |src| && forall i :: 0 <= i < |src| ==> rows[i] == F(src[i])
    ensures Derived(rows, src, Always(), F)
  {
    FilterTrue(src, Always());
  }

  /** Transforming the rows of a chain composes the transformations. */
  lemma DerivedThen<T, U, V>(rows: seq<U>, src: seq<T>, K: T -> bool, F: T -> U, g: U -> V)
    requires Derived(rows, src, K, F)
    ensures Derived(Map(rows, g), src, K, Compose(F, g))
  {
  }

  /** Filtering the rows of a chain adds the condition, read through the transformation, to K. */
  lemma DerivedWhere<T, U>(rows: seq<U>, src: seq<T>, K: T -> bool, F: T -> U, p: U -> bool)
    requires Derived(rows, src, K, F)
    ensures Derived(Filter(rows, p), src, Both(K, Compose(F, p)), F)
  {
    FilterAfterMap(src, K, F, p, Both(K, Compose(F, p)));
  }

  /** A chain may be described by any condition and transformation that agree with its own on src. */
  lemma DerivedCongruent<T, U>(rows: seq<U>, src: seq<T>, K: T -> bool, F: T -> U, K2: T -> bool, F2: T -> U)
    requires Derived(rows, src, K, F)
    requires forall i :: 0 <= i < |src| ==> K(src[i]) == K2(src[i])
    requires forall i :: 0 <= i < |src| && K(src[i]) ==> F(src[i]) == F2(src[i])
    ensures Derived(rows, src, K2, F2)
  {
    FilterCongruent(src, K, K2);
    var kept := Filter(src, K);
    FilterMembers(src, K);
    forall k | 0 <= k < |kept| ensures F(kept[k]) == F2(kept[k]) {
      var i :| 0 <= i < |src| && src[i] == kept[k];
    }
  }

  /** A chain may be described by any condition that agrees with its own on src. */
  lemma DerivedRecondition<T, U>(rows: seq<U>, src: seq<T>, K: T -> bool, F: T -> U, K2: T -> bool)
    requires Derived(rows, src, K, F)
    requires forall i :: 0 <= i < |src| ==> K(src[i]) == K2(src[i])
    ensures Derived(rows, src, K2, F)
  {
    FilterCongruent(src, K, K2);
  }

  lemma {:induction false} FilterAfterMap<T, U>(src: seq<T>, K: T -> bool, F: T -> U, p: U -> bool, K2: T -> bool)
    requires forall i :: 0 <= i < |src| ==> K2(src[i]) == (K(src[i]) && p(F(src[i])))
    ensures Filter(Map(Filter(src, K), F), p) == Map(Filter(src, K2), F)
  {
    if src != [] {
      var x := src[0];
      FilterAfterMap(src[1..], K, F, p, K2);
      var head := if K(x) then [x] else [];
      assert Filter(src, K) == head + Filter(src[1..], K);
      assert Map(head + Filter(src[1..], K), F) == Map(head, F) + Map(Filter(src[1..], K), F);
      FilterConcat(Map(head, F), Map(Filter(src[1..], K), F), p);
      var head2 := if K2(x) then [x] else [];
      assert Filter(src, K2) == head2 + Filter(src[1..], K2);
      assert Map(head2 + Filter(src[1..], K2), F) == Map(head2, F) + Map(Filter(src[1..], K2), F);
      if K(x) {
        assert Map(head, F) == [F(x)];
        assert Filter([F(x)], p) == if p(F(x)) then [F(x)] else [];
      }
    }
  }

  /** The rows of s whose mask entry is true, in order (pandas boolean indexing). */
  function Select<T>(s: seq<T>, mask: seq<bool>): seq<T>
    requires |mask| == |s|
  {
    if s == [] then [] else (if mask[0] then [s[0]] else []) + Select(s[1..], mask[1..])
  }

  /** Boolean indexing with a mask computed from each row is filtering by that computation. */
  lemma {:induction false} SelectIsFilter<T>(s: seq<T>, mask: seq<bool>, p: T -> bool)
    requires |mask| == |s|
    requires forall i :: 0 <= i < |s| ==> mask[i] == p(s[i])
    ensures Select(s, mask) == Filter(s, p)
  {
    if s != [] {
      assert mask[0] == p(s[0]);
      SelectIsFilter(s[1..], mask[1..], p);
    }
  }

  /** The number of elements of s equal to x. */
  function Occurrences<T(==)>(s: seq<T>, x: T): nat {
    if s == [] then 0 else (if s[|s| - 1] == x then 1 else 0) + Occurrences(s[..|s| - 1], x)
  }

  // ---------------------------------------------------------------------------
  // Reductions: min and max of a non-empty sequence of numbers
  // ---------------------------------------------------------------------------

  /** The smallest element of a non-empty sequence. */
  function MinOf(s: seq<real>): (m: real)
    requires |s| > 0
    ensures forall j :: 0 <= j < |s| ==> m <= s[j]
    ensures exists j :: 0 <= j < |s| && s[j] == m
  {
    if |s| == 1 then s[0]
    else
      var m0 := MinOf(s[..|s| - 1]);
      var j0 :| 0 <= j0 < |s| - 1 && s[..|s| - 1][j0] == m0;
      assert s[j0] == m0;
      if s[|s| - 1] < m0 then s[|s| - 1] else m0
  }

  /** The largest element of a non-empty sequence. */
  function MaxOf(s: seq<real>): (m: real)
    requires |s| > 0
    ensures forall j :: 0 <= j < |s| ==> s[j] <= m
    ensures exists j :: 0 <= j < |s| && s[j] == m
  {
    if |s| == 1 then s[0]
    else
      var m0 := MaxOf(s[..|s| - 1]);
      var j0 :| 0 <= j0 < |s| - 1 && s[..|s| - 1][j0] == m0;
      assert s[j0] == m0;
      if s[|s| - 1] > m0 then s[|s| - 1] else m0
  }

  // ---------------------------------------------------------------------------
  // Column operations
  // ---------------------------------------------------------------------------

  /** df[c] = vs: an existing column keeps its position, a new one is appended. */
  function SetColumn(t: Table, c: string, vs: seq<Value>): (r: Table)
    requires |vs| == |t.rows|
    ensures |r.rows| == |t.rows|
    ensures forall i :: 0 <= i < |r.rows| ==> r.rows[i] == t.rows[i][c := vs[i]]
  {
    Table(if c in t.columns then t.columns else t.columns + [c],
          seq(|t.rows|, i requires 0 <= i < |t.rows| => t.rows[i][c := vs[i]]))
  }

  /** The first name of cs that is not in cols. */
  function FirstMissing(cs: seq<string>, cols: seq<string>): (m: string)
    requires exists c :: c in cs && c !in cols
    ensures m in cs && m !in cols
  {
    if cs[0] !in cols then cs[0] else FirstMissing(cs[1..], cols)
  }

  /** The first missing name is the one at the first position whose name is missing. */
  lemma {:induction false} FirstMissingAt(cs: seq<string>, cols: seq<string>, k: nat)
    requires k < |cs| && cs[k] !in cols
    requires forall j :: 0 <= j < k ==> cs[j] in cols
    ensures FirstMissing(cs, cols) == cs[k]
  {
    if k > 0 {
      assert cs[0] in cols;
      FirstMissingAt(cs[1..], cols, k - 1);
    }
  }

  /** A row without the cells of the listed columns. */
  function DropKeys(r: Row, cs: seq<string>): Row {
    r - (set c | c in cs)
  }

  /** The names that are not among cs. */
  function Excluding(cs: seq<string>): string -> bool { c => c !in cs }

  /** Dropping the cells of a, then those of b, is dropping those of any list l naming the same columns. */
  lemma DropKeysTwice(r: Row, a: seq<string>, b: seq<string>, l: seq<string>)
    requires forall c :: c in l <==> c in a || c in b
    ensures DropKeys(DropKeys(r, a), b) == DropKeys(r, l)
  {
    assert (set c | c in l) == (set c | c in a) + (set c | c in b);
  }

  /** df.drop(cs, axis=1): every listed column must exist. */
  function DropColumns(t: Table, cs: seq<string>): (r: Result<Table>)
    ensures r.Err? <==> exists c :: c in cs && c !in t.columns
    ensures r.Err? ==> r.error.KeyError? && r.error.column in cs && r.error.column !in t.columns
    ensures r.Ok? ==> |r.value.rows| == |t.rows|
    ensures r.Ok? ==> forall c :: c in r.value.columns <==> c in t.columns && c !in cs
    ensures r.Ok? ==> forall i :: 0 <= i < |t.rows| ==> r.value.rows[i] == DropKeys(t.rows[i], cs)
  {
    if forall c :: c in cs ==> c in t.columns then
      FilterMembers(t.columns, Excluding(cs));
      Ok(Table(Filter(t.columns, Excluding(cs)),
               seq(|t.rows|, i requires 0 <= i < |t.rows| => DropKeys(t.rows[i], cs))))
    else
      Err(KeyError(FirstMissing(cs, t.columns)))
  }

  function RenameKey(r: Row, from: string, to: string): Row {
    if from in r then (r - {from})[to := r[from]] else r
  }

  /** Renaming one key leaves the cells of every other column alone and moves the renamed one. */
  lemma RenameKeyCell(r: Row, from: string, to: string, c: string)
    ensures c != from && c != to ==> Cell(RenameKey(r, from, to), c) == Cell(r, c)
    ensures Cell(RenameKey(r, from, to), to) == if from in r then Cell(r, from) else Cell(r, to)
  {
  }

  /** A row of a table whose column from is renamed to: unchanged when the table has no such column. */
  function RenameIf(cols: seq<string>, r: Row, from: string, to: string): Row {
    if from in cols then RenameKey(r, from, to) else r
  }

  function Replace(cols: seq<string>, from: string, to: string): (r: seq<string>)
    ensures |r| == |cols|
    ensures forall i :: 0 <= i < |r| ==> r[i] == if cols[i] == from then to else cols[i]
  {
    seq(|cols|, i requires 0 <= i < |cols| => if cols[i] == from then to else cols[i])
  }

  /** The names after a rename: from is gone, to is there when from was. */
  lemma ReplaceMembers(cols: seq<string>, from: string, to: string)
    ensures forall c :: c in Replace(cols, from, to) <==> (c in cols && c != from) || (c == to && from in cols)
  {
    var r := Replace(cols, from, to);
    forall c ensures c in r <==> (c in cols && c != from) || (c == to && from in cols) {
      if c in r {
        var i :| 0 <= i < |r| && r[i] == c;
      }
      if c in cols && c != from {
        var i :| 0 <= i < |cols| && cols[i] == c;
        assert r[i] == c;
      }
      if c == to && from in cols {
        var i :| 0 <= i < |cols| && cols[i] == from;
        assert r[i] == c;
      }
    }
  }

  /**
   * df.rename(columns={from: to}): a missing column is ignored, as pandas does;
   * renaming onto another existing column is reported as DuplicateColumn.
   */
  function Rename(t: Table, from: string, to: string): (r: Result<Table>)
    ensures r.Err? <==> from in t.columns && to in t.columns && to != from
    ensures from !in t.columns ==> r == Ok(t)
    ensures r.Ok? ==> r.value.columns == Replace(t.columns, from, to)
    ensures r.Ok? ==> |r.value.rows| == |t.rows|
    ensures r.Ok? ==> forall i :: 0 <= i < |t.rows| ==> r.value.rows[i] == RenameIf(t.columns, t.rows[i], from, to)
  {
    if from !in t.columns then Ok(t)
    else if to in t.columns && to != from then Err(DuplicateColumn(to))
    else Ok(Table(Replace(t.columns, from, to),
                  seq(|t.rows|, i requires 0 <= i < |t.rows| => RenameKey(t.rows[i], from, to))))
  }

  function Without(cols: seq<string>, c: string): (r: seq<string>)
    ensures forall x :: x in r <==> x in cols && x != c
  {
    var keep := x => x != c;
    FilterMembers(cols, keep);
    Filter(cols, keep)
  }

  /** df.insert(pos, c, df.pop(c)): move column c to position pos. */
  function MoveColumn(t: Table, c: string, pos: nat): (r: Table)
    requires c in t.columns && pos <= |Without(t.columns, c)|
    ensures r.rows == t.rows
    ensures r.columns == Without(t.columns, c)[..pos] + [c] + Without(t.columns, c)[pos..]
  {
    var rest := Without(t.columns, c);
    Table(rest[..pos] + [c] + rest[pos..], t.rows)
  }

  /** df[cs] as a check: the table itself when it has every listed column, else a KeyError for the first missing one. */
  function NeedColumns(t: Table, cs: seq<string>): (r: Result<Table>)
    ensures r.Ok? <==> forall c :: c in cs ==> c in t.columns
    ensures r.Ok? ==> r.value == t
    ensures r.Err? ==> r.error.KeyError? && r.error.column in cs && r.error.column !in t.columns
  {
    if forall c :: c in cs ==> c in t.columns then Ok(t) else Err(KeyError(FirstMissing(cs, t.columns)))
  }

  /** df[mask] for a row predicate. */
  function Where(t: Table, p: Row -> bool): (r: Table)
    ensures r.columns == t.columns && r.rows == Filter(t.rows, p)
  {
    Table(t.columns, Filter(t.rows, p))
  }

  /** A row over exactly cols, null where r has no value. */
  function AlignRow(r: Row, cols: seq<string>): (a: Row)
    ensures a.Keys == set c | c in cols
    ensures forall c :: c in cols ==> a[c] == Cell(r, c)
  {
    map c | c in cols :: Cell(r, c)
  }

  /** df.reindex(columns=cols): exactly cols, in that order; missing ones null-filled. */
  function Reindex(t: Table, cols: seq<string>): (r: Table)
    ensures r.columns == cols && |r.rows| == |t.rows|
    ensures forall i :: 0 <= i < |t.rows| ==> r.rows[i] == AlignRow(t.rows[i], cols)
  {
    Table(cols, seq(|t.rows|, i requires 0 <= i < |t.rows| => AlignRow(t.rows[i], cols)))
  }

  /** acc followed by the names of cs it lacks, first appearance first. */
  function AddNew(acc: seq<string>, cs: seq<string>): (r: seq<string>)
    ensures |acc| <= |r| && r[..|acc|] == acc
    ensures forall c :: c in r <==> c in acc || c in cs
    ensures Distinct(acc) ==> Distinct(r)
    decreases |cs|
  {
    if cs == [] then acc
    else
      var next := if cs[0] in acc then acc else acc + [cs[0]];
      var r := AddNew(next, cs[1..]);
      assert r[..|acc|] == next[..|next|][..|acc|];
      r
  }

  /** Adding one more name at the end appends it unless it is already there. */
  lemma {:induction false} AddNewSnoc(acc: seq<string>, cs: seq<string>, n: string)
    ensures AddNew(acc, cs + [n]) == var a := AddNew(acc, cs); if n in a then a else a + [n]
    decreases |cs|
  {
    if cs == [] {
      assert [n][1..] == [];
    } else {
      var next := if cs[0] in acc then acc else acc + [cs[0]];
      assert (cs + [n])[1..] == cs[1..] + [n];
      AddNewSnoc(next, cs[1..], n);
    }
  }

  function UnionColumns(ts: seq<Table>): seq<string> {
    if ts == [] then [] else AddNew(UnionColumns(ts[..|ts| - 1]), ts[|ts| - 1].columns)
  }

  function AlignAll(rows: seq<Row>, cols: seq<string>): (r: seq<Row>)
    ensures |r| == |rows|
    ensures forall i :: 0 <= i < |r| ==> r[i] == AlignRow(rows[i], cols)
  {
    seq(|rows|, i requires 0 <= i < |rows| => AlignRow(rows[i], cols))
  }

  function ConcatRows(ts: seq<Table>, cols: seq<string>): seq<Row> {
    if ts == [] then [] else ConcatRows(ts[..|ts| - 1], cols) + AlignAll(ts[|ts| - 1].rows, cols)
  }

  /**
   * pd.concat(ts, ignore_index=True): the union of the columns in order of first
   * appearance; every row keeps its own values and is null where its table
   * lacked a column; the rows of the tables follow one another.
   */
  function Concat(ts: seq<Table>): Table {
    var cols := UnionColumns(ts);
    Table(cols, ConcatRows(ts, cols))
  }

  /**
   * The concatenation of three tables: every column of any of them, each
   * once, and the rows of the first, then the second, then the third, each
   * keeping its cells and null in the columns its table lacked.
   */
  lemma ConcatThree(a: Table, b: Table, c: Table)
    ensures var t := Concat([a, b, c]);
      && (forall x :: x in t.columns <==> x in a.columns || x in b.columns || x in c.columns)
      && Distinct(t.columns)
      && |t.rows| == |a.rows| + |b.rows| + |c.rows|
      && (forall k :: 0 <= k < |a.rows| ==> t.rows[k] == AlignRow(a.rows[k], t.columns))
      && (forall k :: 0 <= k < |b.rows| ==> t.rows[|a.rows| + k] == AlignRow(b.rows[k], t.columns))
      && (forall k :: 0 <= k < |c.rows| ==> t.rows[|a.rows| + |b.rows| + k] == AlignRow(c.rows[k], t.columns))
  {
    var ts := [a, b, c];
    assert ts[..2] == [a, b] && [a, b][..1] == [a] && [a][..0] == [];
    var u1 := UnionColumns([a]);
    var u2 := UnionColumns([a, b]);
    var cols := UnionColumns(ts);
    assert UnionColumns([a][..0]) == [];
    assert u1 == AddNew([], a.columns);
    assert u2 == AddNew(u1, b.columns);
    assert cols == AddNew(u2, c.columns);
    assert Distinct<string>([]);
    assert ConcatRows([a], cols) == AlignAll(a.rows, cols);
    assert ConcatRows([a, b], cols) == AlignAll(a.rows, cols) + AlignAll(b.rows, cols);
    assert ConcatRows(ts, cols) == AlignAll(a.rows, cols) + AlignAll(b.rows, cols) + AlignAll(c.rows, cols);
  }
}
