/** A photometry catalogue as the merge sees it: named columns, rows of
    values, and the active row filter (vaex's `__filter__` selection). */
module Catalog {
  import opened Sequences

  /** One row: a value for every column name. Pixel and sky coordinates
      are exact rationals here. */
  type Row = map<string, real>

  function ColumnSet(columns: seq<string>): set<string>
  {
    set c | c in columns
  }

  lemma ColumnSetAppend(a: seq<string>, b: seq<string>)
    ensures ColumnSet(a + b) == ColumnSet(a) + ColumnSet(b)
  {
    forall c | c in a + b ensures c in a || c in b {
      var i :| 0 <= i < |a + b| && (a + b)[i] == c;
      if i >= |a| {
        assert b[i - |a|] == c;
      }
    }
  }

  /** Every row has exactly the listed columns. */
  predicate RowsFit(rows: seq<Row>, columns: seq<string>)
  {
    forall i :: 0 <= i < |rows| ==> rows[i].Keys == ColumnSet(columns)
  }

  function Unlike(name: string): string -> bool
  {
    (c: string) => c != name
  }

  /** The column list with `name` taken out, order kept. */
  function Without(columns: seq<string>, name: string): (r: seq<string>)
    ensures forall c :: c in r <==> c in columns && c != name
    ensures Distinct(columns) ==> Distinct(r)
    ensures name !in columns ==> r == columns
    ensures r == Filter(columns, Unlike(name))
  {
    var keep := Unlike(name);
    FilterMembers(columns, keep);
    var r := Filter(columns, keep);
    assert Distinct(columns) ==> Distinct(r) by {
      if Distinct(columns) {
        FilterDistinct(columns, keep);
      }
    }
    assert name !in columns ==> r == columns by {
      if name !in columns {
        FilterAll(columns, keep);
      }
    }
    r
  }

  // ------------------------------------------------------- selections

  /** The filters the merge sets: `X <= hi`, `X >= lo`, and the box of
      `select_box`, whose limits vaex puts in order first. */
  datatype Selection = All | AtMost(hi: int) | AtLeast(lo: int) | Box(lo: int, hi: int)

  function Min(a: int, b: int): int
  {
    if a <= b then a else b
  }

  function Max(a: int, b: int): int
  {
    if a <= b then b else a
  }

  /** Whether a selection keeps a row; both ends of every bound are
      inclusive. A row without `X` passes only the empty selection. */
  predicate Kept(sel: Selection, row: Row)
  {
    match sel
    case All => true
    case AtMost(hi) => "X" in row && row["X"] <= hi as real
    case AtLeast(lo) => "X" in row && row["X"] >= lo as real
    case Box(a, b) => "X" in row && Min(a, b) as real <= row["X"] <= Max(a, b) as real
  }

  function Keep(sel: Selection): Row -> bool
  {
    (row: Row) => Kept(sel, row)
  }

  /** The rows a selection keeps, in their original order. */
  function Selected(rows: seq<Row>, sel: Selection): (r: seq<Row>)
    ensures forall row :: row in r <==> row in rows && Kept(sel, row)
    ensures |r| <= |rows|
    ensures sel.All? ==> r == rows
  {
    FilterMembers(rows, Keep(sel));
    FilterLength(rows, Keep(sel));
    if sel.All? then FilterAll(rows, Keep(sel)); Filter(rows, Keep(sel))
    else Filter(rows, Keep(sel))
  }

  lemma SelectedFit(rows: seq<Row>, sel: Selection, columns: seq<string>)
    requires RowsFit(rows, columns)
    ensures RowsFit(Selected(rows, sel), columns)
  {
    var r := Selected(rows, sel);
    forall i | 0 <= i < |r| ensures r[i].Keys == ColumnSet(columns) {
      assert r[i] in r;
    }
  }

  predicate HasColumn(rows: seq<Row>, name: string)
  {
    forall i :: 0 <= i < |rows| ==> name in rows[i]
  }

  lemma FitHasColumn(rows: seq<Row>, columns: seq<string>, name: string)
    requires RowsFit(rows, columns) && name in columns
    ensures HasColumn(rows, name)
  {
    assert name in ColumnSet(columns);
  }

  /** One column's values, row by row. */
  function ColumnValues(rows: seq<Row>, name: string): (values: seq<real>)
    requires HasColumn(rows, name)
    ensures |values| == |rows| && forall i :: 0 <= i < |rows| ==> values[i] == rows[i][name]
  {
    seq(|rows|, i requires 0 <= i < |rows| => rows[i][name])
  }

  lemma RowsFitAppend(a: seq<Row>, b: seq<Row>, columns: seq<string>)
    requires RowsFit(a, columns) && RowsFit(b, columns)
    ensures RowsFit(a + b, columns)
  {
    var ab := a + b;
    forall i | 0 <= i < |ab| ensures ab[i].Keys == ColumnSet(columns) {
      if i >= |a| {
        assert ab[i] == b[i - |a|];
      }
    }
  }

  // ------------------------------------------------------ row updates

  function DropKey(rows: seq<Row>, name: string): (r: seq<Row>)
    ensures |r| == |rows| && forall i :: 0 <= i < |rows| ==> r[i] == rows[i] - {name}
  {
    seq(|rows|, i requires 0 <= i < |rows| => rows[i] - {name})
  }

  function SetKey(rows: seq<Row>, name: string, values: seq<real>): (r: seq<Row>)
    requires |values| == |rows|
    ensures |r| == |rows| && forall i :: 0 <= i < |rows| ==> r[i] == rows[i][name := values[i]]
  {
    seq(|rows|, i requires 0 <= i < |rows| => rows[i][name := values[i]])
  }

  /** Each row cut down to the given columns. */
  function RestrictRows(rows: seq<Row>, keys: set<string>): (r: seq<Row>)
    ensures |r| == |rows|
    ensures forall i :: 0 <= i < |rows| ==> r[i].Keys == rows[i].Keys * keys
    ensures forall i, c :: 0 <= i < |rows| && c in r[i] ==> r[i][c] == rows[i][c]
  {
    seq(|rows|, i requires 0 <= i < |rows| => map c | c in rows[i].Keys && c in keys :: rows[i][c])
  }

  /** Projecting onto all of a table's columns changes no row. */
  lemma RestrictAll(rows: seq<Row>, columns: seq<string>, keys: set<string>)
    requires RowsFit(rows, columns) && keys == ColumnSet(columns)
    ensures RestrictRows(rows, keys) == rows
  {
    var r := RestrictRows(rows, keys);
    forall i | 0 <= i < |rows| ensures r[i] == rows[i] {
      assert r[i].Keys == rows[i].Keys;
    }
  }

  /** The rows of several tables one after another. */
  function AllRows(parts: seq<Dataset>): seq<Row>
    reads parts
  {
    if parts == [] then [] else AllRows(parts[..|parts| - 1]) + parts[|parts| - 1].rows
  }

  lemma {:induction false} AllRowsFit(parts: seq<Dataset>, columns: seq<string>)
    requires forall i :: 0 <= i < |parts| ==> RowsFit(parts[i].rows, columns)
    ensures RowsFit(AllRows(parts), columns)
    decreases |parts|
  {
    if parts != [] {
      var front := parts[..|parts| - 1];
      assert forall i :: 0 <= i < |front| ==> front[i] == parts[i];
      AllRowsFit(front, columns);
      RowsFitAppend(AllRows(front), parts[|parts| - 1].rows, columns);
    }
  }

  // -------------------------------------------------------- the table

  /** A vaex DataFrame: its visible column names in order, its rows, and
      its `__filter__` selection. */
  class Dataset {
    var columns: seq<string>
    var rows: seq<Row>
    var filter: Selection

    predicate Valid()
      reads this
    {
      Distinct(columns) && RowsFit(rows, columns)
    }

    constructor (columns: seq<string>, rows: seq<Row>)
      requires Distinct(columns) && RowsFit(rows, columns)
      ensures Valid()
      ensures this.columns == columns && this.rows == rows && filter == All
    {
      this.columns := columns;
      this.rows := rows;
      this.filter := All;
    }

    /** The rows the filter lets through, which is what vaex computes on. */
    function Visible(): seq<Row>
      reads this
    {
      Selected(rows, filter)
    }

    /** `ds.evaluate(name)`: the column's values over the visible rows. */
    function Column(name: string): (values: seq<real>)
      reads this
      requires Valid() && name in columns
      ensures HasColumn(Visible(), name) && values == ColumnValues(Visible(), name)
    {
      SelectedFit(rows, filter, columns);
      FitHasColumn(Visible(), columns, name);
      ColumnValues(Visible(), name)
    }

    /** `ds.drop(name, inplace=True, check=False)`. */
    method Drop(name: string)
      requires Valid()
      modifies this
      ensures Valid()
      ensures columns == Without(old(columns), name)
      ensures rows == DropKey(old(rows), name)
      ensures filter == old(filter)
    {
      columns := Without(columns, name);
      rows := DropKey(rows, name);
    }

    /** `ds.add_column(name, values)`: a new column goes last; an existing
      one keeps its place and takes the new values. */
    method AddColumn(name: string, values: seq<real>)
      requires Valid() && |values| == |rows|
      modifies this
      ensures Valid()
      ensures columns == if name in old(columns) then old(columns) else old(columns) + [name]
      ensures rows == SetKey(old(rows), name, values)
      ensures filter == old(filter)
    {
      if name !in columns {
        assert ColumnSet(columns + [name]) == ColumnSet(columns) + {name};
        columns := columns + [name];
      }
      rows := SetKey(rows, name, values);
    }

    /** `ds.select(expression, name='__filter__')`. */
    method Select(sel: Selection)
      requires Valid()
      modifies this
      ensures Valid()
      ensures filter == sel && columns == old(columns) && rows == old(rows)
    {
      filter := sel;
    }

    /** `ds.extract()`: a new table holding only the visible rows, with no
      filter. */
    method Extract() returns (e: Dataset)
      requires Valid()
      ensures fresh(e) && e.Valid()
      ensures e.columns == columns && e.rows == Visible() && e.filter == All
    {
      SelectedFit(rows, filter, columns);
      e := new Dataset(columns, Visible());
    }

    /** `ds[names]`: a new table with the named columns in the given
      order, the same rows and the same filter. */
    method Project(names: seq<string>) returns (p: Dataset)
      requires Valid() && Distinct(names) && ColumnSet(names) <= ColumnSet(columns)
      ensures fresh(p) && p.Valid()
      ensures p.columns == names && p.rows == RestrictRows(rows, ColumnSet(names))
      ensures p.filter == filter
    {
      var r := RestrictRows(rows, ColumnSet(names));
      p := new Dataset(names, r);
      p.filter := filter;
    }
  }

  /** `DataFrameConcatenated(parts)`: the rows of every part in turn, under
      the columns they share. */
  method Concat(parts: seq<Dataset>) returns (c: Dataset)
    requires |parts| > 0
    requires forall i :: 0 <= i < |parts| ==> parts[i].Valid() && parts[i].columns == parts[0].columns
    ensures fresh(c) && c.Valid()
    ensures c.columns == parts[0].columns && c.rows == AllRows(parts) && c.filter == All
  {
    AllRowsFit(parts, parts[0].columns);
    c := new Dataset(parts[0].columns, AllRows(parts));
  }
}
