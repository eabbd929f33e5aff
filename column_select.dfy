/** `select_cols`: choose the photometry columns to read, by name. */
module ColumnSelect {
  import opened Wrappers
  import opened Sequences
  import opened ColumnNames

  // ------------------------------------------------ the default pattern

  /** `[X,Y]`: the class holds a literal comma as well. */
  predicate InXY(c: char)
  {
    c == 'X' || c == ',' || c == 'Y'
  }

  /** `[F,G]` */
  predicate InFilterHead(c: char)
  {
    c == 'F' || c == ',' || c == 'G'
  }

  /** `[W,M,N,X,L]`: the filter's width letter. */
  predicate InWidth(c: char)
  {
    c == 'W' || c == 'M' || c == 'N' || c == 'X' || c == 'L' || c == ','
  }

  /** `^[X,Y]$` under `re.match`: one character of the class, and `$` also
      accepts a single trailing newline. */
  predicate MatchesXY(n: string)
  {
    (|n| == 1 && InXY(n[0])) || (|n| == 2 && InXY(n[0]) && n[1] == '\n')
  }

  /** Length of the run of digits starting at `i`. */
  function DigitRun(n: string, i: nat): (d: nat)
    requires i <= |n|
    ensures i + d <= |n|
    ensures forall k :: i <= k < i + d ==> IsDigit(n[k])
    ensures i + d == |n| || !IsDigit(n[i + d])
    decreases |n| - i
  {
    if i < |n| && IsDigit(n[i]) then 1 + DigitRun(n, i + 1) else 0
  }

  /** `^[F,G]Q?[0-9]{2,5}[W,M,N,X,L]P?_` under `re.match`, decided without
      backtracking: the optional `Q` is taken when present, the digit run
      must be maximal and 2 to 5 long, and the optional `P` is taken when
      it is followed by `_`. */
  predicate MatchesFilterPrefix(n: string)
  {
    |n| >= 1 && InFilterHead(n[0]) &&
    var q := if |n| >= 2 && n[1] == 'Q' then 2 else 1;
    var d := DigitRun(n, q);
    2 <= d <= 5 && q + d < |n| && InWidth(n[q + d]) &&
    ((q + d + 1 < |n| && n[q + d + 1] == '_')
     || (q + d + 2 < |n| && n[q + d + 1] == 'P' && n[q + d + 2] == '_'))
  }

  /** The pattern with every choice of the regular expression spelt out:
      an optional `Q` (`q`), `d` digits, an optional `P` (`p`). */
  predicate FilterPatternAt(n: string, q: nat, d: nat, p: nat)
  {
    q <= 1 && 2 <= d <= 5 && p <= 1 && 3 + q + d + p <= |n| &&
    InFilterHead(n[0]) && (q == 1 ==> n[1] == 'Q') &&
    (forall k :: 1 + q <= k < 1 + q + d ==> IsDigit(n[k])) &&
    InWidth(n[1 + q + d]) && (p == 1 ==> n[2 + q + d] == 'P') &&
    n[2 + q + d + p] == '_'
  }

  /** What the deterministic reading accepts, the regular expression
      matches. */
  lemma FilterPrefixSound(n: string)
    requires MatchesFilterPrefix(n)
    ensures exists q: nat, d: nat, p: nat :: FilterPatternAt(n, q, d, p)
  {
    var q := if |n| >= 2 && n[1] == 'Q' then 2 else 1;
    var d := DigitRun(n, q);
    var p := if q + d + 1 < |n| && n[q + d + 1] == '_' then 0 else 1;
    assert FilterPatternAt(n, q - 1, d, p);
  }

  /** Whatever choices make the regular expression match, the
      deterministic reading accepts. */
  lemma FilterPrefixComplete(n: string, q: nat, d: nat, p: nat)
    requires FilterPatternAt(n, q, d, p)
    ensures MatchesFilterPrefix(n)
  {
    // `Q` is not a digit, so the pattern takes it exactly when it is there.
    assert q == 1 <==> (|n| >= 2 && n[1] == 'Q') by {
      if q == 0 {
        assert IsDigit(n[1]);
      }
    }
    // A width letter is not a digit, so the run is maximal.
    assert !IsDigit(n[1 + q + d]);
    DigitRunExact(n, 1 + q, d);
    assert DigitRun(n, 1 + q) == d;
  }

  /** The deterministic reading accepts exactly the names some choice of
      the regular expression matches. */
  lemma FilterPrefixIff(n: string)
    ensures MatchesFilterPrefix(n) <==>
      exists q: nat, d: nat, p: nat :: FilterPatternAt(n, q, d, p)
  {
    if MatchesFilterPrefix(n) {
      FilterPrefixSound(n);
    }
    if exists q: nat, d: nat, p: nat :: FilterPatternAt(n, q, d, p) {
      var q: nat, d: nat, p: nat :| FilterPatternAt(n, q, d, p);
      FilterPrefixComplete(n, q, d, p);
    }
  }

  /** A run of exactly `d` digits followed by a non-digit has length `d`. */
  lemma {:induction false} DigitRunExact(n: string, i: nat, d: nat)
    requires i + d < |n|
    requires forall k :: i <= k < i + d ==> IsDigit(n[k])
    requires !IsDigit(n[i + d])
    ensures DigitRun(n, i) == d
    decreases d
  {
    if d > 0 {
      DigitRunExact(n, i + 1, d - 1);
    }
  }

  /** The default `regex` of `select_cols`. */
  predicate DefaultSelect(n: string)
  {
    MatchesXY(n) || MatchesFilterPrefix(n)
  }

  // ---------------------------------------------------- the selection

  predicate AllNamed(table: seq<NamedColumn>)
  {
    forall k :: 0 <= k < |table| ==> table[k].name.Some?
  }

  /** Positions of the rows whose name satisfies `pred`, in table order. */
  function SelectedRows(table: seq<NamedColumn>, pred: string -> bool): (ps: seq<nat>)
    requires AllNamed(table)
    ensures Increasing(ps)
    ensures forall i :: 0 <= i < |ps| ==> ps[i] < |table|
    ensures forall k :: 0 <= k < |table| ==> (k in ps <==> pred(table[k].name.value))
  {
    Positions(table, (row: NamedColumn) => row.name.Some? && pred(row.name.value))
  }

  /** Position of the first row without a name. */
  function FirstUnnamed(table: seq<NamedColumn>): (r: Option<nat>)
    ensures r.None? <==> AllNamed(table)
    ensures r.Some? ==> r.value < |table| && table[r.value].name.None?
                        && forall k :: 0 <= k < r.value ==> table[k].name.Some?
  {
    if table == [] then None
    else if table[0].name.None? then Some(0)
    else
      match FirstUnnamed(table[1..])
      case None => None
      case Some(k) => Some(k + 1)
  }

  /** `select_cols`: the selected names and their 0-based file offsets
      (`index - 1`). Matching a missing (NaN) name leaves NaN in the
      boolean mask, which pandas refuses. */
  function SelectCols(table: seq<NamedColumn>, pred: string -> bool): (r: Result<(seq<string>, seq<int>)>)
    ensures r.Err? <==> !AllNamed(table)
    ensures r.Err? ==> exists k :: 0 <= k < |table| && table[k].name.None?
                                  && r.error == MissingName(table[k].index)
                                  && forall j :: 0 <= j < k ==> table[j].name.Some?
    ensures r.Ok? ==>
      var ps := SelectedRows(table, pred);
      var (names, usecols) := r.value;
      |names| == |ps| && |usecols| == |ps| &&
      forall i :: 0 <= i < |ps| ==>
        Some(names[i]) == table[ps[i]].name && usecols[i] == table[ps[i]].index - 1
  {
    match FirstUnnamed(table)
    case Some(k) => Err(MissingName(table[k].index))
    case None =>
      var ps := SelectedRows(table, pred);
      Ok((seq(|ps|, i requires 0 <= i < |ps| => table[ps[i]].name.value),
          seq(|ps|, i requires 0 <= i < |ps| => table[ps[i]].index as int - 1)))
  }

  /** Every returned name satisfies the predicate, every row whose name does
      is returned, and both lists have the same length. */
  lemma SelectColsAligned(table: seq<NamedColumn>, pred: string -> bool)
    requires AllNamed(table)
    ensures SelectCols(table, pred).Ok?
    ensures var (names, usecols) := SelectCols(table, pred).value;
      |names| == |usecols| &&
      (forall i :: 0 <= i < |names| ==> pred(names[i])) &&
      (forall k :: 0 <= k < |table| && pred(table[k].name.value) ==>
         exists i :: 0 <= i < |names| && names[i] == table[k].name.value && usecols[i] == table[k].index - 1)
  {
    var ps := SelectedRows(table, pred);
    var (names, usecols) := SelectCols(table, pred).value;
    forall i | 0 <= i < |names| ensures pred(names[i]) {
      assert ps[i] in ps;
    }
    forall k | 0 <= k < |table| && pred(table[k].name.value)
      ensures exists i :: 0 <= i < |names| && names[i] == table[k].name.value && usecols[i] == table[k].index - 1
    {
      var i :| 0 <= i < |ps| && ps[i] == k;
      assert names[i] == table[k].name.value;
    }
  }

  predicate AscendingIndices(table: seq<NamedColumn>)
  {
    forall a, b :: 0 <= a < b < |table| ==> table[a].index < table[b].index
  }

  /** When the column file numbers its columns in increasing order, the
      returned offsets increase too. */
  lemma SelectColsAscending(table: seq<NamedColumn>, pred: string -> bool)
    requires AllNamed(table) && AscendingIndices(table)
    ensures var usecols := SelectCols(table, pred).value.1;
      forall a, b :: 0 <= a < b < |usecols| ==> usecols[a] < usecols[b]
  {
    var ps := SelectedRows(table, pred);
    var usecols := SelectCols(table, pred).value.1;
    forall a, b | 0 <= a < b < |usecols| ensures usecols[a] < usecols[b] {
      assert ps[a] < ps[b];
    }
  }

  // ---------------------------------------------------------- examples

  lemma CoordinatesSelected()
    ensures DefaultSelect("X") && DefaultSelect("Y") && DefaultSelect("Y\n")
    ensures !DefaultSelect("CHI") && !DefaultSelect("XY")
  {
  }

  lemma FilterColumnSelected(n: string)
    requires n == "F475W_chip1_COUNT"
    ensures DefaultSelect(n)
  {
    FilterPrefixComplete(n, 0, 3, 0);
  }

  lemma QuadFilterSelected(n: string)
    requires n == "FQ672N_VEGA"
    ensures DefaultSelect(n)
  {
    FilterPrefixComplete(n, 1, 3, 0);
  }

  /** A filter name needs the `_` that ends the prefix. */
  lemma BareFilterRejected(n: string)
    requires n == "F475W"
    ensures !DefaultSelect(n)
  {
    DigitRunExact(n, 1, 3);
  }

  /** At most five digits: the digit run cannot stop early. */
  lemma LongDigitRunRejected(n: string)
    requires n == "F123456W_VEGA"
    ensures !DefaultSelect(n)
  {
    DigitRunExact(n, 1, 6);
  }

  predicate ExampleTable(table: seq<NamedColumn>)
  {
    table == [NamedColumn(1, "Object X", Some("X")),
              NamedColumn(3, "Object sharpness", Some("SHARP")),
              NamedColumn(11, "Measured counts, F475W.chip1", Some("F475W_chip1_COUNT"))]
  }

  lemma FirstAndLastOfThree(table: seq<NamedColumn>, pred: string -> bool)
    requires |table| == 3 && AllNamed(table)
    requires pred(table[0].name.value) && !pred(table[1].name.value) && pred(table[2].name.value)
    ensures SelectedRows(table, pred) == [0, 2]
  {
    var keep := (row: NamedColumn) => row.name.Some? && pred(row.name.value);
    assert table[..1][..0] == [];
    assert table[..2][..1] == table[..1];
    assert keep(table[..1][0]) && !keep(table[..2][1]) && keep(table[2]);
    assert Positions(table[..1], keep) == [0];
    assert Positions(table[..2], keep) == [0];
    assert Positions(table, keep) == [0, 2];
  }

  lemma ExampleRows(table: seq<NamedColumn>)
    requires ExampleTable(table)
    ensures AllNamed(table) && SelectedRows(table, DefaultSelect) == [0, 2]
  {
    FilterColumnSelected(table[2].name.value);
    assert DefaultSelect(table[0].name.value);
    assert !DefaultSelect(table[1].name.value);
    FirstAndLastOfThree(table, DefaultSelect);
  }

  /** Selecting from a three-row table keeps `X` and the filter column, with
      their 0-based offsets. */
  lemma SelectExample(table: seq<NamedColumn>)
    requires ExampleTable(table)
    ensures SelectCols(table, DefaultSelect) == Ok((["X", "F475W_chip1_COUNT"], [0, 10]))
  {
    ExampleRows(table);
    var (names, usecols) := SelectCols(table, DefaultSelect).value;
    assert names == ["X", "F475W_chip1_COUNT"];
    assert usecols == [0, 10];
  }
}
