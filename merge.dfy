/** `calc_xmed` and `merge_parallel_phot`: three overlapping catalogues of
    one field, cut at two pixel columns and stacked into one. */
module Merge {
  import opened Wrappers
  import opened Sequences
  import opened Catalog
  import opened Coordinates

  // ------------------------------------------------------- rounding

  /** `n` is an integer nearest to `q`, and the even one when `q` lies
      half-way between two integers. */
  predicate NearestEven(q: real, n: int)
  {
    var d := q - n as real;
    -0.5 <= d <= 0.5 && ((d == 0.5 || d == -0.5) ==> n % 2 == 0)
  }

  /** Python's `round` on one argument: to the nearest integer, ties to
      the even neighbour. */
  function RoundHalfEven(q: real): (n: int)
    ensures NearestEven(q, n)
  {
    var f := q.Floor;
    var frac := q - f as real;
    if frac < 0.5 then f
    else if frac > 0.5 then f + 1
    else if f % 2 == 0 then f
    else f + 1
  }

  /** Only one integer is nearest with ties to even. */
  lemma NearestEvenUnique(q: real, m: int)
    requires NearestEven(q, m)
    ensures m == RoundHalfEven(q)
  {
    var n := RoundHalfEven(q);
    assert -1 <= m - n <= 1;
  }

  lemma RoundExamples()
    ensures RoundHalfEven(2.5) == 2 && RoundHalfEven(3.5) == 4
    ensures RoundHalfEven(-0.5) == 0 && RoundHalfEven(-1.5) == -2
    ensures RoundHalfEven(0.15) == 0 && RoundHalfEven(2.6) == 3
  {
  }

  // ----------------------------------------------------- split point

  /** `ds.X.min()`. */
  function Lowest(xs: seq<real>): (m: real)
    requires xs != []
    ensures m in xs && forall x :: x in xs ==> m <= x
  {
    if |xs| == 1 then xs[0]
    else
      var front := xs[..|xs| - 1];
      var m := Lowest(front);
      assert xs == front + [xs[|xs| - 1]];
      if xs[|xs| - 1] < m then xs[|xs| - 1] else m
  }

  /** `ds.X.max()`. */
  function Highest(xs: seq<real>): (m: real)
    requires xs != []
    ensures m in xs && forall x :: x in xs ==> x <= m
  {
    if |xs| == 1 then xs[0]
    else
      var front := xs[..|xs| - 1];
      var m := Highest(front);
      assert xs == front + [xs[|xs| - 1]];
      if xs[|xs| - 1] > m then xs[|xs| - 1] else m
  }

  /** `int(round((right.min() + left.max()) / 2))` on the `X` values of
      the two tables; the right table's minimum is taken first, so an empty
      right column is the one an error reports. */
  function SplitPoint(leftX: seq<real>, rightX: seq<real>): (r: Result<int>)
    ensures r.Err? <==> leftX == [] || rightX == []
    ensures r.Err? ==> r.error == EmptyColumn("X")
    ensures r.Ok? ==>
      (exists a, b :: a in leftX && b in rightX &&
        (forall x :: x in leftX ==> x <= a) && (forall x :: x in rightX ==> b <= x) &&
        NearestEven((a + b) / 2.0, r.value))
  {
    if rightX == [] || leftX == [] then Err(EmptyColumn("X"))
    else Ok(RoundHalfEven((Lowest(rightX) + Highest(leftX)) / 2.0))
  }

  predicate Integral(x: real)
  {
    x == x.Floor as real
  }

  /** With whole-pixel coordinates the split point lies between the left
      table's largest `X` and the right table's smallest, whichever of the
      two is the larger. */
  lemma SplitPointBetween(leftX: seq<real>, rightX: seq<real>)
    requires leftX != [] && rightX != []
    requires Integral(Highest(leftX)) && Integral(Lowest(rightX))
    ensures SplitPoint(leftX, rightX).Ok?
    ensures var a, b, n := Highest(leftX), Lowest(rightX), SplitPoint(leftX, rightX).value as real;
      (a <= b ==> a <= n <= b) && (b <= a ==> b <= n <= a)
  {
    var a, b := Highest(leftX).Floor, Lowest(rightX).Floor;
    var q := (Lowest(rightX) + Highest(leftX)) / 2.0;
    var n := RoundHalfEven(q);
    assert q == (a + b) as real / 2.0;
    if a == b {
      assert -1 < n - a < 1;
    }
  }

  /** Without whole-pixel coordinates it need not: a left maximum of 0.1
      and a right minimum of 0.2 split at 0, left of both. */
  lemma SplitPointOutside()
    ensures SplitPoint([0.1], [0.2]) == Ok(0)
    ensures Highest([0.1]) == 0.1 && Lowest([0.2]) == 0.2
  {
    assert RoundHalfEven(0.15) == 0;
  }

  /** `calc_xmed(ds_left, ds_right)` on the visible rows of the two tables;
      a table without an `X` column fails the evaluation. */
  function CalcXmed(left: Dataset, right: Dataset): (r: Result<int>)
    reads left, right
    requires left.Valid() && right.Valid()
    ensures "X" !in right.columns || "X" !in left.columns ==> r == Err(MissingColumn("X"))
    ensures "X" in right.columns && "X" in left.columns ==>
      (r.Err? <==> left.Visible() == [] || right.Visible() == []) && (r.Err? ==> r.error == EmptyColumn("X"))
    ensures r.Ok? ==>
      "X" in left.columns && "X" in right.columns && left.Column("X") != [] && right.Column("X") != [] &&
      NearestEven((Highest(left.Column("X")) + Lowest(right.Column("X"))) / 2.0, r.value)
  {
    if "X" !in right.columns || "X" !in left.columns then Err(MissingColumn("X"))
    else SplitPoint(left.Column("X"), right.Column("X"))
  }

  // --------------------------------------------------- merged rows

  /** How many rows a selection keeps, counted one row at a time. */
  function CountKept(rows: seq<Row>, sel: Selection): nat
    decreases |rows|
  {
    if rows == [] then 0
    else CountKept(rows[..|rows| - 1], sel) + (if Kept(sel, rows[|rows| - 1]) then 1 else 0)
  }

  lemma {:induction false} SelectedCount(rows: seq<Row>, sel: Selection)
    ensures |Selected(rows, sel)| == CountKept(rows, sel)
    decreases |rows|
  {
    if rows != [] {
      FilterLast(rows, Keep(sel));
      SelectedCount(rows[..|rows| - 1], sel);
    }
  }

  /** The rows `merge_parallel_phot` keeps: table 1 up to `x0`, table 2
      between `x0` and `x1`, table 3 from `x1` on, one table after the
      other; every bound is inclusive. */
  function MergedRows(rows1: seq<Row>, rows2: seq<Row>, rows3: seq<Row>, x0: int, x1: int): (r: seq<Row>)
    ensures forall row :: row in r <==>
      (row in rows1 && "X" in row && row["X"] <= x0 as real) ||
      (row in rows2 && "X" in row && Min(x0, x1) as real <= row["X"] <= Max(x0, x1) as real) ||
      (row in rows3 && "X" in row && row["X"] >= x1 as real)
  {
    Selected(rows1, AtMost(x0)) + Selected(rows2, Box(x0, x1)) + Selected(rows3, AtLeast(x1))
  }

  /** The merged table is the survivors of table 1, then of table 2, then
      of table 3, each block in its table's own order; its length is the
      sum of the three counts, so a row on a boundary of two tables is
      there twice. */
  lemma MergedBlocks(rows1: seq<Row>, rows2: seq<Row>, rows3: seq<Row>, x0: int, x1: int)
    ensures var m := MergedRows(rows1, rows2, rows3, x0, x1);
      var n1, n2, n3 := CountKept(rows1, AtMost(x0)), CountKept(rows2, Box(x0, x1)), CountKept(rows3, AtLeast(x1));
      |m| == n1 + n2 + n3 &&
      SubsequenceOf(m[..n1], rows1) && SubsequenceOf(m[n1..n1 + n2], rows2) && SubsequenceOf(m[n1 + n2..], rows3)
  {
    var s1, s2, s3 := Selected(rows1, AtMost(x0)), Selected(rows2, Box(x0, x1)), Selected(rows3, AtLeast(x1));
    SelectedCount(rows1, AtMost(x0));
    SelectedCount(rows2, Box(x0, x1));
    SelectedCount(rows3, AtLeast(x1));
    FilterSubsequence(rows1, Keep(AtMost(x0)));
    FilterSubsequence(rows2, Keep(Box(x0, x1)));
    FilterSubsequence(rows3, Keep(AtLeast(x1)));
    var m := s1 + s2 + s3;
    assert m[..|s1|] == s1;
    assert m[|s1|..|s1| + |s2|] == s2;
    assert m[|s1| + |s2|..] == s3;
  }

  lemma MergedFit(rows1: seq<Row>, rows2: seq<Row>, rows3: seq<Row>, x0: int, x1: int, columns: seq<string>)
    requires RowsFit(rows1, columns) && RowsFit(rows2, columns) && RowsFit(rows3, columns)
    ensures RowsFit(MergedRows(rows1, rows2, rows3, x0, x1), columns)
  {
    SelectedFit(rows1, AtMost(x0), columns);
    SelectedFit(rows2, Box(x0, x1), columns);
    SelectedFit(rows3, AtLeast(x1), columns);
    RowsFitAppend(Selected(rows1, AtMost(x0)), Selected(rows2, Box(x0, x1)), columns);
    RowsFitAppend(Selected(rows1, AtMost(x0)) + Selected(rows2, Box(x0, x1)), Selected(rows3, AtLeast(x1)), columns);
  }

  // ------------------------------------------------ the whole merge

  /** The two split points, `calc_xmed(ds1, ds2)` and `calc_xmed(ds2, ds3)`,
      of three unfiltered tables with the given columns. */
  function SplitPoints(columns: seq<string>, rows1: seq<Row>, rows2: seq<Row>, rows3: seq<Row>): (r: Result<(int, int)>)
    requires RowsFit(rows1, columns) && RowsFit(rows2, columns) && RowsFit(rows3, columns)
    ensures "X" !in columns ==> r == Err(MissingColumn("X"))
    ensures r.Err? && "X" in columns ==> r.error == EmptyColumn("X")
    ensures r.Ok? <==> "X" in columns && rows1 != [] && rows2 != [] && rows3 != []
  {
    if "X" !in columns then Err(MissingColumn("X"))
    else
      FitHasColumn(rows1, columns, "X");
      FitHasColumn(rows2, columns, "X");
      FitHasColumn(rows3, columns, "X");
      var xs1, xs2, xs3 := ColumnValues(rows1, "X"), ColumnValues(rows2, "X"), ColumnValues(rows3, "X");
      var x0 :- SplitPoint(xs1, xs2);
      var x1 :- SplitPoint(xs2, xs3);
      Ok((x0, x1))
  }

  /** What `merge_parallel_phot` returns, on values: the merged rows with
      sky coordinates from `toSky`, under the column order of `add_wcs`. */
  function MergeSpec(columns: seq<string>, rows1: seq<Row>, rows2: seq<Row>, rows3: seq<Row>, toSky: SkyMap): (r: Result<(seq<string>, seq<Row>)>)
    requires RowsFit(rows1, columns) && RowsFit(rows2, columns) && RowsFit(rows3, columns)
    ensures r.Err? <==> SplitPoints(columns, rows1, rows2, rows3).Err? || "Y" !in columns
    ensures r.Err? ==> r.error == if SplitPoints(columns, rows1, rows2, rows3).Err?
      then SplitPoints(columns, rows1, rows2, rows3).error else MissingColumn("Y")
    ensures r.Ok? ==> r.value.0 == WcsOrder(columns)
  {
    var (x0, x1) :- SplitPoints(columns, rows1, rows2, rows3);
    if "Y" !in columns then Err(MissingColumn("Y"))
    else
      var merged := MergedRows(rows1, rows2, rows3, x0, x1);
      MergedFit(rows1, rows2, rows3, x0, x1, columns);
      FitHasXY(merged, columns);
      Ok((WcsOrder(columns), WithSky(merged, toSky)))
  }

  /** Evaluating the split points on the tables as opened, with no filter. */
  lemma CalcXmedUnfiltered(left: Dataset, right: Dataset)
    requires left.Valid() && right.Valid() && left.filter.All? && right.filter.All?
    requires "X" in left.columns && "X" in right.columns
    ensures HasColumn(left.rows, "X") && HasColumn(right.rows, "X")
    ensures CalcXmed(left, right) == SplitPoint(ColumnValues(left.rows, "X"), ColumnValues(right.rows, "X"))
  {
    EvaluateUnfiltered(left, "X");
    EvaluateUnfiltered(right, "X");
  }

  lemma AllRowsThree(e1: Dataset, e2: Dataset, e3: Dataset)
    ensures AllRows([e1, e2, e3]) == e1.rows + e2.rows + e3.rows
  {
    assert [e1, e2, e3][..2] == [e1, e2];
    assert [e1, e2][..1] == [e1];
    assert [e1][..0] == [];
    assert AllRows([e1]) == e1.rows;
    assert AllRows([e1, e2]) == e1.rows + e2.rows;
  }

  /** One `select` followed by its `extract`. */
  method Cut(ds: Dataset, sel: Selection) returns (e: Dataset)
    requires ds.Valid()
    modifies ds
    ensures ds.Valid() && ds.columns == old(ds.columns) && ds.rows == old(ds.rows) && ds.filter == sel
    ensures fresh(e) && e.Valid() && e.filter.All?
    ensures e.columns == ds.columns && e.rows == Selected(ds.rows, sel)
  {
    ds.Select(sel);
    e := ds.Extract();
  }

  /** The three `select` calls, the three `extract` calls and the
      concatenation of `merge_parallel_phot`. */
  method Partition(ds1: Dataset, ds2: Dataset, ds3: Dataset, x0: int, x1: int) returns (ds: Dataset)
    requires ds1 != ds2 && ds1 != ds3 && ds2 != ds3
    requires ds1.Valid() && ds2.Valid() && ds3.Valid()
    requires ds1.filter.All? && ds2.filter.All? && ds3.filter.All?
    requires ds2.columns == ds1.columns && ds3.columns == ds1.columns
    modifies ds1, ds2, ds3
    ensures ds1.Valid() && ds2.Valid() && ds3.Valid()
    ensures ds1.columns == old(ds1.columns) && ds1.rows == old(ds1.rows) && ds1.filter == AtMost(x0)
    ensures ds2.columns == old(ds2.columns) && ds2.rows == old(ds2.rows) && ds2.filter == Box(x0, x1)
    ensures ds3.columns == old(ds3.columns) && ds3.rows == old(ds3.rows) && ds3.filter == AtLeast(x1)
    ensures fresh(ds) && ds.Valid() && ds.filter.All? && ds.columns == old(ds1.columns)
    ensures ds.rows == MergedRows(old(ds1.rows), old(ds2.rows), old(ds3.rows), x0, x1)
  {
    var e1 := Cut(ds1, AtMost(x0));
    var e2 := Cut(ds2, Box(x0, x1));
    var e3 := Cut(ds3, AtLeast(x1));
    ds := Concat([e1, e2, e3]);
    AllRowsThree(e1, e2, e3);
  }

  /** `merge_parallel_phot(name, export=False)` on the three tables it
      opens: split points, row selections, concatenation, then `add_wcs`.
      The result is `MergeSpec` of the tables as they were opened; each
      input is left with its selection set when both split points exist. */
  method MergeParallelPhot(ds1: Dataset, ds2: Dataset, ds3: Dataset, toSky: SkyMap) returns (r: Result<Dataset>)
    requires ds1 != ds2 && ds1 != ds3 && ds2 != ds3
    requires ds1.Valid() && ds2.Valid() && ds3.Valid()
    requires ds1.filter.All? && ds2.filter.All? && ds3.filter.All?
    requires ds2.columns == ds1.columns && ds3.columns == ds1.columns
    modifies ds1, ds2, ds3
    ensures ds1.columns == old(ds1.columns) && ds1.rows == old(ds1.rows)
    ensures ds2.columns == old(ds2.columns) && ds2.rows == old(ds2.rows)
    ensures ds3.columns == old(ds3.columns) && ds3.rows == old(ds3.rows)
    ensures var splits := SplitPoints(old(ds1.columns), old(ds1.rows), old(ds2.rows), old(ds3.rows));
      (splits.Err? ==> ds1.filter.All? && ds2.filter.All? && ds3.filter.All?) &&
      (splits.Ok? ==>
        ds1.filter == AtMost(splits.value.0) &&
        ds2.filter == Box(splits.value.0, splits.value.1) && ds3.filter == AtLeast(splits.value.1))
    ensures var spec := MergeSpec(old(ds1.columns), old(ds1.rows), old(ds2.rows), old(ds3.rows), toSky);
      (r.Err? <==> spec.Err?) && (r.Err? ==> r.error == spec.error) &&
      (r.Ok? ==>
        fresh(r.value) && r.value.Valid() && r.value.filter.All? &&
        r.value.columns == spec.value.0 && r.value.rows == spec.value.1)
  {
    if "X" !in ds1.columns {
      return Err(MissingColumn("X"));
    }
    CalcXmedUnfiltered(ds1, ds2);
    CalcXmedUnfiltered(ds2, ds3);
    var x0 :- CalcXmed(ds1, ds2);
    var x1 :- CalcXmed(ds2, ds3);
    MergeSpecAt(ds1.columns, ds1.rows, ds2.rows, ds3.rows, x0, x1, toSky);
    r := MergeAt(ds1, ds2, ds3, x0, x1, toSky);
  }

  /** Once both split points exist, only a missing `Y` can fail the merge. */
  lemma MergeSpecAt(columns: seq<string>, rows1: seq<Row>, rows2: seq<Row>, rows3: seq<Row>, x0: int, x1: int, toSky: SkyMap)
    requires RowsFit(rows1, columns) && RowsFit(rows2, columns) && RowsFit(rows3, columns)
    requires SplitPoints(columns, rows1, rows2, rows3) == Ok((x0, x1))
    ensures var merged := MergedRows(rows1, rows2, rows3, x0, x1);
      HasXY(merged) || "Y" !in columns
    ensures var spec := MergeSpec(columns, rows1, rows2, rows3, toSky);
      ("Y" !in columns ==> spec == Err(MissingColumn("Y"))) &&
      ("Y" in columns ==> spec == Ok((WcsOrder(columns), WithSky(MergedRows(rows1, rows2, rows3, x0, x1), toSky))))
  {
    MergedFit(rows1, rows2, rows3, x0, x1, columns);
    if "Y" in columns {
      FitHasXY(MergedRows(rows1, rows2, rows3, x0, x1), columns);
    }
  }

  /** Everything `merge_parallel_phot` does after `calc_xmed`. */
  method MergeAt(ds1: Dataset, ds2: Dataset, ds3: Dataset, x0: int, x1: int, toSky: SkyMap) returns (r: Result<Dataset>)
    requires ds1 != ds2 && ds1 != ds3 && ds2 != ds3
    requires ds1.Valid() && ds2.Valid() && ds3.Valid()
    requires ds1.filter.All? && ds2.filter.All? && ds3.filter.All?
    requires ds2.columns == ds1.columns && ds3.columns == ds1.columns && "X" in ds1.columns
    modifies ds1, ds2, ds3
    ensures ds1.columns == old(ds1.columns) && ds1.rows == old(ds1.rows) && ds1.filter == AtMost(x0)
    ensures ds2.columns == old(ds2.columns) && ds2.rows == old(ds2.rows) && ds2.filter == Box(x0, x1)
    ensures ds3.columns == old(ds3.columns) && ds3.rows == old(ds3.rows) && ds3.filter == AtLeast(x1)
    ensures r.Err? <==> "Y" !in old(ds1.columns)
    ensures r.Err? ==> r.error == MissingColumn("Y")
    ensures r.Ok? ==>
      var merged := MergedRows(old(ds1.rows), old(ds2.rows), old(ds3.rows), x0, x1);
      HasXY(merged) && fresh(r.value) && r.value.Valid() && r.value.filter.All? &&
      r.value.columns == WcsOrder(old(ds1.columns)) && r.value.rows == WithSky(merged, toSky)
  {
    var ds := Partition(ds1, ds2, ds3, x0, x1);
    r := AddWcs(ds, toSky);
  }
}

/** Worked merges on tables that hold nothing but `X`. */
module MergeExamples {
  import opened Wrappers
  import opened Sequences
  import opened Catalog
  import opened Merge

  function XRows(xs: seq<real>): (rows: seq<Row>)
    ensures |rows| == |xs| && RowsFit(rows, ["X"])
    ensures HasColumn(rows, "X") && ColumnValues(rows, "X") == xs
  {
    var rows := seq(|xs|, i requires 0 <= i < |xs| => map["X" := xs[i]]);
    assert ColumnSet(["X"]) == {"X"};
    rows
  }

  /** The split point from a known largest and smallest value. */
  lemma SplitPointOf(leftX: seq<real>, rightX: seq<real>, hi: real, lo: real)
    requires hi in leftX && forall x :: x in leftX ==> x <= hi
    requires lo in rightX && forall x :: x in rightX ==> lo <= x
    ensures SplitPoint(leftX, rightX) == Ok(RoundHalfEven((lo + hi) / 2.0))
  {
  }

  lemma SplitPointsOf(xs1: seq<real>, xs2: seq<real>, xs3: seq<real>, x0: int, x1: int)
    requires SplitPoint(xs1, xs2) == Ok(x0) && SplitPoint(xs2, xs3) == Ok(x1)
    ensures SplitPoints(["X"], XRows(xs1), XRows(xs2), XRows(xs3)) == Ok((x0, x1))
  {
  }

  /** The tables `X = 1, 5, 10`, `X = 8, 12, 20` and `X = 18, 25, 30`
      are cut at 9 and at 19. */
  lemma SplitExample(xs1: seq<real>, xs2: seq<real>, xs3: seq<real>)
    requires xs1 == [1.0, 5.0, 10.0] && xs2 == [8.0, 12.0, 20.0] && xs3 == [18.0, 25.0, 30.0]
    ensures SplitPoints(["X"], XRows(xs1), XRows(xs2), XRows(xs3)) == Ok((9, 19))
  {
    SplitPointOf(xs1, xs2, 10.0, 8.0);
    SplitPointOf(xs2, xs3, 20.0, 18.0);
    assert RoundHalfEven(9.0) == 9 && RoundHalfEven(19.0) == 19;
    SplitPointsOf(xs1, xs2, xs3, 9, 19);
  }

  /** What a selection makes of one row. */
  function Pick(row: Row, sel: Selection): seq<Row>
  {
    if Kept(sel, row) then [row] else []
  }

  lemma SelectedTwo(rows: seq<Row>, sel: Selection)
    requires |rows| == 2
    ensures Selected(rows, sel) == Pick(rows[0], sel) + Pick(rows[1], sel)
  {
    assert rows == [rows[0]] + [rows[1]];
    FilterAppend([rows[0]], [rows[1]], Keep(sel));
    FilterSingle(rows[0], Keep(sel));
    FilterSingle(rows[1], Keep(sel));
  }

  lemma SelectedThree(rows: seq<Row>, sel: Selection)
    requires |rows| == 3
    ensures Selected(rows, sel) == Pick(rows[0], sel) + Pick(rows[1], sel) + Pick(rows[2], sel)
  {
    assert rows == rows[..2] + [rows[2]];
    FilterAppend(rows[..2], [rows[2]], Keep(sel));
    SelectedTwo(rows[..2], sel);
    FilterSingle(rows[2], Keep(sel));
  }

  lemma XRowsAppend(a: seq<real>, b: seq<real>)
    ensures XRows(a) + XRows(b) == XRows(a + b)
  {
  }

  /** Whether a selection keeps a row whose `X` is `x`. */
  predicate KeepsX(sel: Selection, x: real)
  {
    match sel
    case All => true
    case AtMost(hi) => x <= hi as real
    case AtLeast(lo) => x >= lo as real
    case Box(a, b) => Min(a, b) as real <= x <= Max(a, b) as real
  }

  lemma KeptXRow(sel: Selection, x: real)
    ensures Kept(sel, map["X" := x]) == KeepsX(sel, x)
  {
  }

  lemma KeepFirstTwo(xs: seq<real>, sel: Selection)
    requires |xs| == 3 && KeepsX(sel, xs[0]) && KeepsX(sel, xs[1]) && !KeepsX(sel, xs[2])
    ensures Selected(XRows(xs), sel) == XRows(xs[..2])
  {
    KeptXRow(sel, xs[0]);
    KeptXRow(sel, xs[1]);
    KeptXRow(sel, xs[2]);
    SelectedThree(XRows(xs), sel);
  }

  lemma KeepMiddle(xs: seq<real>, sel: Selection)
    requires |xs| == 3 && !KeepsX(sel, xs[0]) && KeepsX(sel, xs[1]) && !KeepsX(sel, xs[2])
    ensures Selected(XRows(xs), sel) == XRows(xs[1..2])
  {
    KeptXRow(sel, xs[0]);
    KeptXRow(sel, xs[1]);
    KeptXRow(sel, xs[2]);
    SelectedThree(XRows(xs), sel);
  }

  lemma KeepLastTwo(xs: seq<real>, sel: Selection)
    requires |xs| == 3 && !KeepsX(sel, xs[0]) && KeepsX(sel, xs[1]) && KeepsX(sel, xs[2])
    ensures Selected(XRows(xs), sel) == XRows(xs[1..])
  {
    KeptXRow(sel, xs[0]);
    KeptXRow(sel, xs[1]);
    KeptXRow(sel, xs[2]);
    SelectedThree(XRows(xs), sel);
  }

  lemma KeepBoth(xs: seq<real>, sel: Selection)
    requires |xs| == 2 && KeepsX(sel, xs[0]) && KeepsX(sel, xs[1])
    ensures Selected(XRows(xs), sel) == XRows(xs)
  {
    KeptXRow(sel, xs[0]);
    KeptXRow(sel, xs[1]);
    SelectedTwo(XRows(xs), sel);
  }

  /** The merged `X` column of three tables, block by block. */
  lemma MergedXRows(xs1: seq<real>, xs2: seq<real>, xs3: seq<real>, x0: int, x1: int, ys1: seq<real>, ys2: seq<real>, ys3: seq<real>)
    requires Selected(XRows(xs1), AtMost(x0)) == XRows(ys1)
    requires Selected(XRows(xs2), Box(x0, x1)) == XRows(ys2)
    requires Selected(XRows(xs3), AtLeast(x1)) == XRows(ys3)
    ensures ColumnValues(MergedRows(XRows(xs1), XRows(xs2), XRows(xs3), x0, x1), "X") == ys1 + ys2 + ys3
  {
    XRowsAppend(ys1, ys2);
    XRowsAppend(ys1 + ys2, ys3);
  }

  lemma FirstCut(xs: seq<real>, ys: seq<real>)
    requires xs == [1.0, 5.0, 10.0] && ys == [1.0, 5.0]
    ensures Selected(XRows(xs), AtMost(9)) == XRows(ys)
  {
    KeepFirstTwo(xs, AtMost(9));
    assert xs[..2] == ys;
  }

  lemma MiddleCut(xs: seq<real>, ys: seq<real>)
    requires xs == [8.0, 12.0, 20.0] && ys == [12.0]
    ensures Selected(XRows(xs), Box(9, 19)) == XRows(ys)
  {
    KeepMiddle(xs, Box(9, 19));
    assert xs[1..2] == ys;
  }

  lemma LastCut(xs: seq<real>, ys: seq<real>)
    requires xs == [18.0, 25.0, 30.0] && ys == [25.0, 30.0]
    ensures Selected(XRows(xs), AtLeast(19)) == XRows(ys)
  {
    KeepLastTwo(xs, AtLeast(19));
    assert xs[1..] == ys;
  }

  /** The tables above, cut at 9 and 19, merge to `X = 1, 5, 12, 25, 30`:
      table 2's 8 and table 3's 18 lie on the far side of a cut. */
  lemma MergedExample(xs1: seq<real>, xs2: seq<real>, xs3: seq<real>)
    requires xs1 == [1.0, 5.0, 10.0] && xs2 == [8.0, 12.0, 20.0] && xs3 == [18.0, 25.0, 30.0]
    ensures ColumnValues(MergedRows(XRows(xs1), XRows(xs2), XRows(xs3), 9, 19), "X") == [1.0, 5.0, 12.0, 25.0, 30.0]
  {
    var ys1, ys2, ys3 := [1.0, 5.0], [12.0], [25.0, 30.0];
    FirstCut(xs1, ys1);
    MiddleCut(xs2, ys2);
    LastCut(xs3, ys3);
    MergedXRows(xs1, xs2, xs3, 9, 19, ys1, ys2, ys3);
    MergedExampleValues(ys1, ys2, ys3);
  }

  lemma MergedExampleValues(ys1: seq<real>, ys2: seq<real>, ys3: seq<real>)
    requires ys1 == [1.0, 5.0] && ys2 == [12.0] && ys3 == [25.0, 30.0]
    ensures ys1 + ys2 + ys3 == [1.0, 5.0, 12.0, 25.0, 30.0]
  {
  }

  /** Rows on a cut are kept by both tables that meet there: `X = 1, 5`,
      `X = 5, 9` and `X = 9, 12` are cut at 5 and 9 and merge to
      `X = 1, 5, 5, 9, 9, 12`. */
  lemma DuplicateExample(xs1: seq<real>, xs2: seq<real>, xs3: seq<real>)
    requires xs1 == [1.0, 5.0] && xs2 == [5.0, 9.0] && xs3 == [9.0, 12.0]
    ensures SplitPoints(["X"], XRows(xs1), XRows(xs2), XRows(xs3)) == Ok((5, 9))
    ensures ColumnValues(MergedRows(XRows(xs1), XRows(xs2), XRows(xs3), 5, 9), "X") == [1.0, 5.0, 5.0, 9.0, 9.0, 12.0]
  {
    SplitPointOf(xs1, xs2, 5.0, 5.0);
    SplitPointOf(xs2, xs3, 9.0, 9.0);
    assert RoundHalfEven(5.0) == 5 && RoundHalfEven(9.0) == 9;
    SplitPointsOf(xs1, xs2, xs3, 5, 9);
    KeepBoth(xs1, AtMost(5));
    KeepBoth(xs2, Box(5, 9));
    KeepBoth(xs3, AtLeast(9));
    MergedXRows(xs1, xs2, xs3, 5, 9, xs1, xs2, xs3);
    DuplicateExampleValues(xs1, xs2, xs3);
  }

  lemma DuplicateExampleValues(xs1: seq<real>, xs2: seq<real>, xs3: seq<real>)
    requires xs1 == [1.0, 5.0] && xs2 == [5.0, 9.0] && xs3 == [9.0, 12.0]
    ensures xs1 + xs2 + xs3 == [1.0, 5.0, 5.0, 9.0, 9.0, 12.0]
  {
  }
}
