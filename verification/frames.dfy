/** What the routes see of pandas and of the disk: a parsed CSV is a table
    whose cells are strings or NaN, and the file system answers "does this
    path exist" and "what does `pd.read_csv` make of it". */
module Frames {
  import opened Wrappers

  /** One cell as `str()` renders it, or `None` for NaN (an empty CSV field). */
  type Cell = Option<string>

  /** One row: column name to cell. */
  type Row = map<string, Cell>

  /** A parsed CSV file: its header and its rows, in file order. */
  datatype Table = Table(columns: seq<string>, rows: seq<Row>)

  /** The cell of `row` under `col`; a column the row lacks reads as NaN. */
  function At(row: Row, col: string): Cell {
    if col in row then row[col] else None
  }

  /** The disk: the set of paths `os.path.exists` accepts, and for each path
      `pd.read_csv` can parse, the table it yields. A path that exists but is
      not in `csv` makes `read_csv` raise. */
  datatype FileSystem = FileSystem(present: set<string>, csv: map<string, Table>)

  predicate Exists(fs: FileSystem, path: string) {
    path in fs.present
  }

  /** `pd.read_csv(path)`, with `None` for a parse failure. */
  function ReadCsv(fs: FileSystem, path: string): Option<Table> {
    if path in fs.csv then Some(fs.csv[path]) else None
  }

  /** Maps each element through `f` and keeps the results that are
      present, in order. */
  function FilterMap<T, U>(xs: seq<T>, f: T -> Option<U>): (ys: seq<U>)
    ensures |ys| <= |xs|
  {
    if xs == [] then []
    else
      var last := f(xs[|xs| - 1]);
      FilterMap(xs[..|xs| - 1], f) + if last.Some? then [last.value] else []
  }

  /** `FilterMap` works element by element in order: mapping two consecutive
      runs gives the first run's results followed by the second's. */
  lemma {:induction false} FilterMapAppend<T, U>(a: seq<T>, b: seq<T>, f: T -> Option<U>)
    ensures FilterMap(a + b, f) == FilterMap(a, f) + FilterMap(b, f)
  {
    if b != [] {
      var b' := b[..|b| - 1];
      FilterMapAppend(a, b', f);
      assert (a + b)[..|a + b| - 1] == a + b';
    } else {
      assert a + b == a;
    }
  }

  /** Each element contributes at its own place: the results of the elements
      before it, then its own result when present, then those of the
      elements after it. */
  lemma {:induction false} FilterMapAt<T, U>(xs: seq<T>, f: T -> Option<U>, i: int)
    requires 0 <= i < |xs|
    ensures FilterMap(xs, f) == FilterMap(xs[..i], f) + (if f(xs[i]).Some? then [f(xs[i]).value] else []) + FilterMap(xs[i + 1..], f)
  {
    var init := xs[..|xs| - 1];
    assert init[..i] == xs[..i];
    if i == |xs| - 1 {
      assert xs[i + 1..] == [];
    } else {
      FilterMapAt(init, f, i);
      var rest := xs[i + 1..];
      assert rest[..|rest| - 1] == init[i + 1..];
      assert rest[|rest| - 1] == xs[|xs| - 1];
      assert init[i] == xs[i];
    }
  }

  /** Every result of `FilterMap` is the image of some input element. */
  lemma {:induction false} FilterMapFrom<T, U>(xs: seq<T>, f: T -> Option<U>, k: int)
    requires 0 <= k < |FilterMap(xs, f)|
    ensures exists i | 0 <= i < |xs| :: f(xs[i]) == Some(FilterMap(xs, f)[k])
  {
    var init := xs[..|xs| - 1];
    if k < |FilterMap(init, f)| {
      FilterMapFrom(init, f, k);
      var i :| 0 <= i < |init| && f(init[i]) == Some(FilterMap(init, f)[k]);
      assert xs[i] == init[i];
    } else {
      assert f(xs[|xs| - 1]) == Some(FilterMap(xs, f)[k]);
    }
  }

  /** The cell under `col`, as a function of the row. */
  function CellOf(col: string): Row -> Cell {
    row => At(row, col)
  }

  /** `df[col].dropna().tolist()`: the non-NaN cells of a column, in row
      order. */
  function ColumnValues(rows: seq<Row>, col: string): (vs: seq<string>)
    ensures |vs| <= |rows|
    ensures forall x :: x in vs <==> exists k | 0 <= k < |rows| :: At(rows[k], col) == Some(x)
  {
    var f := CellOf(col);
    var vs := FilterMap(rows, f);
    assert forall x | x in vs :: exists k | 0 <= k < |rows| :: At(rows[k], col) == Some(x) by {
      forall x | x in vs ensures exists k | 0 <= k < |rows| :: At(rows[k], col) == Some(x) {
        var j :| 0 <= j < |vs| && vs[j] == x;
        FilterMapFrom(rows, f, j);
      }
    }
    assert forall k | 0 <= k < |rows| && At(rows[k], col).Some? :: At(rows[k], col).value in vs by {
      forall k | 0 <= k < |rows| && At(rows[k], col).Some? ensures At(rows[k], col).value in vs {
        FilterMapAt(rows, f, k);
      }
    }
    vs
  }

  /** A column whose every cell is NaN has no values. */
  lemma {:induction false} ColumnValuesNone(rows: seq<Row>, col: string)
    requires forall j | 0 <= j < |rows| :: At(rows[j], col).None?
    ensures ColumnValues(rows, col) == []
  {
    if rows != [] {
      ColumnValuesNone(rows[..|rows| - 1], col);
      assert CellOf(col)(rows[|rows| - 1]).None?;
    }
  }

  /** Row order: each row's non-NaN cell sits between the values of the rows
      before it and those of the rows after it; a NaN cell contributes
      nothing. */
  lemma ColumnValuesAt(rows: seq<Row>, col: string, k: int)
    requires 0 <= k < |rows|
    ensures ColumnValues(rows, col) ==
      ColumnValues(rows[..k], col) + (if At(rows[k], col).Some? then [At(rows[k], col).value] else []) + ColumnValues(rows[k + 1..], col)
  {
    FilterMapAt(rows, CellOf(col), k);
  }

  /** No value occurs twice. */
  ghost predicate NoDuplicates(xs: seq<string>) {
    forall i, j | 0 <= i < j < |xs| :: xs[i] != xs[j]
  }

  /** The position of the first occurrence of `x` in `xs`. */
  function FirstIndex(xs: seq<string>, x: string): (i: nat)
    requires x in xs
    ensures i < |xs| && xs[i] == x && x !in xs[..i]
  {
    if xs[0] == x then 0
    else
      var j := FirstIndex(xs[1..], x);
      assert xs[..j + 1] == [xs[0]] + xs[1..][..j];
      j + 1
  }

  /** `pd.unique(xs)`: each value once, at the place it first occurs. */
  function Unique(xs: seq<string>): (u: seq<string>)
    ensures NoDuplicates(u)
    ensures forall x :: x in u <==> x in xs
    ensures |u| <= |xs|
  {
    if xs == [] then []
    else
      var init := Unique(xs[..|xs| - 1]);
      assert forall x :: x in xs <==> x in xs[..|xs| - 1] || x == xs[|xs| - 1] by {
        assert xs == xs[..|xs| - 1] + [xs[|xs| - 1]];
      }
      if xs[|xs| - 1] in init then init else init + [xs[|xs| - 1]]
  }

  lemma FirstIndexOfPrefix(xs: seq<string>, y: string, x: string)
    requires x in xs
    ensures x in xs + [y] && FirstIndex(xs + [y], x) == FirstIndex(xs, x)
  {
    var i := FirstIndex(xs, x);
    var j := FirstIndex(xs + [y], x);
    assert (xs + [y])[..i] == xs[..i];
    assert (xs + [y])[..i + 1] == xs[..i + 1];
    assert x in (xs + [y])[..i + 1];
  }

  /** `pd.unique` keeps first-appearance order: of two values it returns,
      the one listed first occurs first in the input. */
  lemma {:induction false} UniqueKeepsFirstOrder(xs: seq<string>, i: int, j: int)
    requires 0 <= i < j < |Unique(xs)|
    ensures Unique(xs)[i] in xs && Unique(xs)[j] in xs
    ensures FirstIndex(xs, Unique(xs)[i]) < FirstIndex(xs, Unique(xs)[j])
  {
    var init := xs[..|xs| - 1];
    var y := xs[|xs| - 1];
    assert xs == init + [y];
    var u := Unique(xs);
    if j < |Unique(init)| {
      UniqueKeepsFirstOrder(init, i, j);
      FirstIndexOfPrefix(init, y, u[i]);
      FirstIndexOfPrefix(init, y, u[j]);
    } else {
      // u[j] is y, met for the first time at the end of xs
      assert u[j] == y && y !in init;
      FirstIndexOfPrefix(init, y, u[i]);
      assert xs[..|init|] == init;
    }
  }

  /** Two values listed in first-appearance order in a column are met in
      that order going down the rows: some row holds the first before any
      row holds the second. */
  lemma {:induction false} FirstIndexIsFirstRow(rows: seq<Row>, col: string, x: string, y: string)
    requires x in ColumnValues(rows, col) && y in ColumnValues(rows, col)
    requires FirstIndex(ColumnValues(rows, col), x) < FirstIndex(ColumnValues(rows, col), y)
    ensures exists a | 0 <= a < |rows| :: At(rows[a], col) == Some(x) && forall b | 0 <= b <= a :: At(rows[b], col) != Some(y)
  {
    var init := rows[..|rows| - 1];
    var cv := ColumnValues(rows, col);
    var ci := ColumnValues(init, col);
    var last := At(rows[|rows| - 1], col);
    assert cv == ci + if last.Some? then [last.value] else [];
    assert forall b | 0 <= b < |init| :: rows[b] == init[b];
    if y in ci {
      if last.Some? {
        FirstIndexOfPrefix(ci, last.value, y);
      } else {
        assert cv == ci;
      }
      if x in ci {
        if last.Some? {
          FirstIndexOfPrefix(ci, last.value, x);
        }
        FirstIndexIsFirstRow(init, col, x, y);
        var a :| 0 <= a < |init| && At(init[a], col) == Some(x) && forall b | 0 <= b <= a :: At(init[b], col) != Some(y);
        assert At(rows[a], col) == Some(x);
      } else {
        assert false;
      }
    } else {
      assert last == Some(y);
      if x in ci {
        var a :| 0 <= a < |init| && At(init[a], col) == Some(x);
        assert At(rows[a], col) == Some(x);
      } else {
        assert false;
      }
    }
  }

  /** `pd.unique` keeps the first value first. */
  lemma {:induction false} UniqueHead(xs: seq<string>)
    requires xs != []
    ensures Unique(xs) != [] && Unique(xs)[0] == xs[0]
  {
    var init := xs[..|xs| - 1];
    if init != [] {
      UniqueHead(init);
      assert init[0] == xs[0];
    }
  }
}
