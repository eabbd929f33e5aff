/** `add_wcs`: replace the sky coordinates of a catalogue by ones computed
    from its pixel coordinates, and put the four coordinate columns first. */
module Coordinates {
  import opened Wrappers
  import opened Sequences
  import opened Catalog

  /** `firstcols`: the columns `add_wcs` puts first, in this order. */
  const FirstCols: seq<string> := ["RA", "DEC", "X", "Y"]

  predicate IsOther(n: string)
  {
    n !in FirstCols
  }

  /** The columns after the first four, in their own order. */
  function Others(columns: seq<string>): (r: seq<string>)
    ensures forall c :: c in r <==> c in columns && IsOther(c)
  {
    FilterMembers(columns, IsOther);
    Filter(columns, IsOther)
  }

  /** The table's own column list once `add_wcs` has dropped `RA` and `DEC`
      and added them again, last. */
  function ColumnsWithSky(columns: seq<string>): seq<string>
  {
    Without(Without(columns, "RA"), "DEC") + ["RA", "DEC"]
  }

  /** `firstcols + [n for n in names if n not in firstcols]`, on the names
      the table holds at the end of `add_wcs`. */
  function WcsOrder(columns: seq<string>): seq<string>
  {
    FirstCols + Others(ColumnsWithSky(columns))
  }

  lemma OthersDropped(columns: seq<string>)
    ensures Others(Without(Without(columns, "RA"), "DEC")) == Others(columns)
  {
    FilterFilter(Filter(columns, Unlike("RA")), Unlike("DEC"), IsOther);
    FilterFilter(columns, Unlike("RA"), IsOther);
  }

  lemma OthersOfSky()
    ensures Others(["RA", "DEC"]) == []
  {
    assert !IsOther("RA") && !IsOther("DEC");
    FilterSingle("RA", IsOther);
    FilterSingle("DEC", IsOther);
    FilterAppend(["RA"], ["DEC"], IsOther);
    assert ["RA"] + ["DEC"] == ["RA", "DEC"];
  }

  /** Dropping and re-adding `RA` and `DEC` does not change which other
      columns there are, nor their order. */
  lemma OthersWithSky(columns: seq<string>)
    ensures Others(ColumnsWithSky(columns)) == Others(columns)
  {
    var dropped := Without(Without(columns, "RA"), "DEC");
    OthersDropped(columns);
    OthersOfSky();
    FilterAppend(dropped, ["RA", "DEC"], IsOther);
  }

  /** Putting the four coordinate columns in front of distinct other
      columns repeats nothing. */
  lemma FrontDistinct(others: seq<string>)
    requires Distinct(others) && forall c :: c in others ==> IsOther(c)
    ensures Distinct(FirstCols + others)
  {
    var r := FirstCols + others;
    forall a, b | 0 <= a < b < |r| ensures r[a] != r[b] {
      if b >= 4 {
        assert r[b] == others[b - 4];
        assert r[b] in others;
        if a >= 4 {
          assert r[a] == others[a - 4];
        }
      }
    }
  }

  lemma FrontSet(columns: seq<string>)
    requires "X" in columns && "Y" in columns
    ensures ColumnSet(FirstCols + Others(columns)) == ColumnSet(columns) + {"RA", "DEC"}
  {
    ColumnSetAppend(FirstCols, Others(columns));
    assert ColumnSet(FirstCols) == {"RA", "DEC", "X", "Y"};
    assert ColumnSet(Others(columns)) == ColumnSet(columns) - {"RA", "DEC", "X", "Y"};
    assert "X" in ColumnSet(columns) && "Y" in ColumnSet(columns);
  }

  /** The result's columns are `RA, DEC, X, Y` and then every other column
      of the input in its original order; nothing repeats, and the names
      are the input's together with `RA` and `DEC`. */
  lemma WcsOrderShape(columns: seq<string>)
    requires Distinct(columns) && "X" in columns && "Y" in columns
    ensures var r := WcsOrder(columns);
      r[..4] == FirstCols && r[4..] == Others(columns) &&
      Distinct(r) && ColumnSet(r) == ColumnSet(columns) + {"RA", "DEC"}
  {
    OthersWithSky(columns);
    FilterDistinct(columns, IsOther);
    FrontDistinct(Others(columns));
    FrontSet(columns);
    var r := FirstCols + Others(columns);
    assert r[..4] == FirstCols && r[4..] == Others(columns);
  }

  /** Running the reordering on its own result changes nothing. */
  lemma WcsOrderIdempotent(columns: seq<string>)
    ensures WcsOrder(WcsOrder(columns)) == WcsOrder(columns)
  {
    var tail := Others(ColumnsWithSky(columns));
    var r := FirstCols + tail;
    OthersWithSky(r);
    FilterAppend(FirstCols, tail, IsOther);
    FilterNone(FirstCols, IsOther);
    FilterFilter(ColumnsWithSky(columns), IsOther, IsOther);
    assert Others(r) == tail;
  }

  // --------------------------------------------------- sky coordinates

  /** `conv_pix_wcs` for one point: pixel `(X, Y)` to sky `(RA, DEC)`. The
      transformation itself is outside the model. */
  type SkyMap = (real, real) -> (real, real)

  predicate HasXY(rows: seq<Row>)
  {
    forall i :: 0 <= i < |rows| ==> "X" in rows[i] && "Y" in rows[i]
  }

  /** A row with `RA` and `DEC` set from its `X` and `Y`; every other
      value is kept. */
  function SkyRow(row: Row, toSky: SkyMap): (r: Row)
    requires "X" in row && "Y" in row
    ensures r.Keys == row.Keys + {"RA", "DEC"}
    ensures r["RA"] == toSky(row["X"], row["Y"]).0 && r["DEC"] == toSky(row["X"], row["Y"]).1
    ensures forall c :: c in row && c != "RA" && c != "DEC" ==> r[c] == row[c]
  {
    var sky := toSky(row["X"], row["Y"]);
    row["RA" := sky.0]["DEC" := sky.1]
  }

  function WithSky(rows: seq<Row>, toSky: SkyMap): (r: seq<Row>)
    requires HasXY(rows)
    ensures |r| == |rows| && forall i :: 0 <= i < |rows| ==> r[i] == SkyRow(rows[i], toSky)
  {
    seq(|rows|, i requires 0 <= i < |rows| => SkyRow(rows[i], toSky))
  }

  /** Recomputing the sky coordinates of rows that already have them gives
      the same rows: `add_wcs` can be run twice. */
  lemma WithSkyIdempotent(rows: seq<Row>, toSky: SkyMap)
    requires HasXY(rows)
    ensures HasXY(WithSky(rows, toSky)) && WithSky(WithSky(rows, toSky), toSky) == WithSky(rows, toSky)
  {
    var once := WithSky(rows, toSky);
    forall i | 0 <= i < |rows| ensures SkyRow(once[i], toSky) == once[i] {
      var r := once[i];
      assert r["X"] == rows[i]["X"] && r["Y"] == rows[i]["Y"];
      assert SkyRow(r, toSky).Keys == r.Keys;
    }
  }

  /** `conv_pix_wcs` on whole columns, point by point. */
  function SkyColumns(xs: seq<real>, ys: seq<real>, toSky: SkyMap): (sky: (seq<real>, seq<real>))
    requires |xs| == |ys|
    ensures |sky.0| == |xs| && |sky.1| == |xs|
    ensures forall i :: 0 <= i < |xs| ==> (sky.0[i], sky.1[i]) == toSky(xs[i], ys[i])
  {
    (seq(|xs|, i requires 0 <= i < |xs| => toSky(xs[i], ys[i]).0),
     seq(|xs|, i requires 0 <= i < |xs| => toSky(xs[i], ys[i]).1))
  }

  /** Setting `RA` and `DEC` after dropping them is setting them. */
  lemma SkyAfterDrop(row: Row, ra: real, dec: real)
    ensures (row - {"RA"} - {"DEC"})["RA" := ra]["DEC" := dec] == row["RA" := ra]["DEC" := dec]
  {
    var a := (row - {"RA"} - {"DEC"})["RA" := ra]["DEC" := dec];
    var b := row["RA" := ra]["DEC" := dec];
    assert a.Keys == b.Keys;
    forall c | c in a.Keys ensures a[c] == b[c] {
    }
  }

  /** The new sky coordinates do not depend on the old ones. */
  lemma WithSkyAfterDrop(rows: seq<Row>, toSky: SkyMap)
    requires HasXY(rows)
    ensures HasXY(DropKey(DropKey(rows, "RA"), "DEC"))
    ensures WithSky(DropKey(DropKey(rows, "RA"), "DEC"), toSky) == WithSky(rows, toSky)
  {
    var dropped := DropKey(DropKey(rows, "RA"), "DEC");
    forall i | 0 <= i < |rows| ensures SkyRow(dropped[i], toSky) == SkyRow(rows[i], toSky) {
      var sky := toSky(rows[i]["X"], rows[i]["Y"]);
      assert dropped[i] == rows[i] - {"RA"} - {"DEC"};
      SkyAfterDrop(rows[i], sky.0, sky.1);
    }
  }

  lemma DropAbsent(rows: seq<Row>, columns: seq<string>, name: string)
    requires RowsFit(rows, columns) && name !in columns
    ensures DropKey(rows, name) == rows
  {
    forall i | 0 <= i < |rows| ensures rows[i] - {name} == rows[i] {
      assert (rows[i] - {name}).Keys == rows[i].Keys;
    }
  }

  lemma FitHasXY(rows: seq<Row>, columns: seq<string>)
    requires RowsFit(rows, columns) && "X" in columns && "Y" in columns
    ensures HasXY(rows)
  {
    assert "X" in ColumnSet(columns) && "Y" in ColumnSet(columns);
  }

  /** Adding the computed columns one after the other sets each row's sky
      coordinates from that row's pixel coordinates. */
  lemma SkyColumnsRows(rows: seq<Row>, xs: seq<real>, ys: seq<real>, toSky: SkyMap)
    requires HasXY(rows) && |xs| == |rows| && |ys| == |rows|
    requires forall i :: 0 <= i < |rows| ==> xs[i] == rows[i]["X"] && ys[i] == rows[i]["Y"]
    ensures var sky := SkyColumns(xs, ys, toSky);
      SetKey(SetKey(rows, "RA", sky.0), "DEC", sky.1) == WithSky(rows, toSky)
  {
    var sky := SkyColumns(xs, ys, toSky);
    var r := SetKey(SetKey(rows, "RA", sky.0), "DEC", sky.1);
    forall i | 0 <= i < |rows| ensures r[i] == SkyRow(rows[i], toSky) {
      assert (sky.0[i], sky.1[i]) == toSky(xs[i], ys[i]);
    }
  }

  /** Without a filter, evaluating a column reads it from every row. */
  lemma EvaluateUnfiltered(ds: Dataset, name: string)
    requires ds.Valid() && ds.filter.All? && name in ds.columns
    ensures HasColumn(ds.rows, name) && ds.Column(name) == ColumnValues(ds.rows, name)
  {
    assert ds.Visible() == ds.rows;
  }

  /** The `ds.evaluate('X')` and `ds.evaluate('Y')` calls of `add_wcs`,
      on a table without a filter. */
  method EvaluateXY(ds: Dataset) returns (xs: seq<real>, ys: seq<real>)
    requires ds.Valid() && ds.filter.All? && "X" in ds.columns && "Y" in ds.columns
    ensures HasXY(ds.rows) && |xs| == |ds.rows| && |ys| == |ds.rows|
    ensures forall i :: 0 <= i < |ds.rows| ==> xs[i] == ds.rows[i]["X"] && ys[i] == ds.rows[i]["Y"]
  {
    FitHasXY(ds.rows, ds.columns);
    EvaluateUnfiltered(ds, "X");
    EvaluateUnfiltered(ds, "Y");
    xs := ds.Column("X");
    ys := ds.Column("Y");
  }

  /** The `conv_pix_wcs` and two `ds.add_column` calls of `add_wcs`, on a
      table that has no `RA` or `DEC` column yet. */
  method AddSky(ds: Dataset, toSky: SkyMap)
    requires ds.Valid() && ds.filter.All? && "X" in ds.columns && "Y" in ds.columns
    requires "RA" !in ds.columns && "DEC" !in ds.columns
    modifies ds
    ensures ds.Valid() && ds.filter.All? && HasXY(old(ds.rows))
    ensures ds.columns == old(ds.columns) + ["RA", "DEC"]
    ensures ds.rows == WithSky(old(ds.rows), toSky)
  {
    var xs, ys := EvaluateXY(ds);
    SkyColumnsRows(ds.rows, xs, ys, toSky);
    var sky := SkyColumns(xs, ys, toSky);
    ds.AddColumn("RA", sky.0);
    ds.AddColumn("DEC", sky.1);
  }

  /** The closing `ds[firstcols + [...]]` of `add_wcs`: a new table with
      the same rows and the four coordinate columns first. */
  method Reorder(ds: Dataset) returns (p: Dataset)
    requires ds.Valid() && forall c :: c in FirstCols ==> c in ds.columns
    ensures fresh(p) && p.Valid() && p.filter == ds.filter
    ensures p.columns == FirstCols + Others(ds.columns) && p.rows == ds.rows
  {
    var names := FirstCols + Others(ds.columns);
    FilterDistinct(ds.columns, IsOther);
    FrontDistinct(Others(ds.columns));
    assert "X" in FirstCols && "Y" in FirstCols;
    FrontSet(ds.columns);
    assert "RA" in ColumnSet(ds.columns) && "DEC" in ColumnSet(ds.columns);
    p := ds.Project(names);
    RestrictAll(ds.rows, ds.columns, ColumnSet(names));
  }

  /** The two guarded `ds.drop` calls that open `add_wcs`. */
  method DropSky(ds: Dataset)
    requires ds.Valid()
    modifies ds
    ensures ds.Valid() && ds.filter == old(ds.filter)
    ensures ds.columns == Without(Without(old(ds.columns), "RA"), "DEC")
    ensures ds.rows == DropKey(DropKey(old(ds.rows), "RA"), "DEC")
  {
    if "RA" in ds.columns {
      ds.Drop("RA");
    } else {
      DropAbsent(ds.rows, ds.columns, "RA");
    }
    if "DEC" in ds.columns {
      ds.Drop("DEC");
    } else {
      DropAbsent(ds.rows, ds.columns, "DEC");
    }
  }

  /** `add_wcs(ds, base)`. `RA` and `DEC` are dropped from `ds` in place;
      if `X` or `Y` is missing that is all that happens and the evaluation
      fails. Otherwise new `RA` and `DEC` columns computed by `toSky` are
      added to `ds`, and the result is a new table with the coordinate
      columns first. */
  method AddWcs(ds: Dataset, toSky: SkyMap) returns (r: Result<Dataset>)
    requires ds.Valid() && ds.filter.All?
    modifies ds
    ensures ds.Valid() && ds.filter.All?
    ensures r.Err? <==> !("X" in old(ds.columns) && "Y" in old(ds.columns))
    ensures r.Err? ==>
      r.error == MissingColumn(if "X" in old(ds.columns) then "Y" else "X") &&
      ds.columns == Without(Without(old(ds.columns), "RA"), "DEC") &&
      ds.rows == DropKey(DropKey(old(ds.rows), "RA"), "DEC")
    ensures r.Ok? ==>
      HasXY(old(ds.rows)) &&
      ds.columns == ColumnsWithSky(old(ds.columns)) &&
      ds.rows == WithSky(old(ds.rows), toSky) &&
      fresh(r.value) && r.value.Valid() && r.value.filter.All? &&
      r.value.columns == WcsOrder(old(ds.columns)) &&
      r.value.rows == WithSky(old(ds.rows), toSky)
  {
    ghost var columns0, rows0 := ds.columns, ds.rows;
    DropSky(ds);
    if "X" !in ds.columns {
      return Err(MissingColumn("X"));
    }
    if "Y" !in ds.columns {
      return Err(MissingColumn("Y"));
    }
    FitHasXY(rows0, columns0);
    AddSky(ds, toSky);
    WithSkyAfterDrop(rows0, toSky);
    var p := Reorder(ds);
    return Ok(p);
  }
}
