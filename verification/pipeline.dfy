/** The column transforms shared by `F1OddsProcessor` and the `quali_bets`
    script: probability columns, their row average, the normalised
    percentage, fantasy points, expected points and the ranking. */
module Pipeline {
  import opened Common
  import opened Text
  import opened Odds
  import opened Frame

  const DriverColumn := "Driver"
  const ProbabilitySuffix := "_probability"
  const AverageColumn := "average_probability"
  const NormalizedColumn := "normalized_probability"

  /** The labels of `s` that `keep` accepts, in their order. */
  function Filter(s: seq<string>, keep: string -> bool): (r: seq<string>)
    ensures |r| <= |s|
    ensures forall x :: x in r <==> x in s && keep(x)
    ensures Distinct(s) ==> Distinct(r)
  {
    if s == [] then []
    else (if keep(s[0]) then [s[0]] else []) + Filter(s[1..], keep)
  }

  /** The provider columns: every label other than `Driver`, in order. */
  function ProviderColumns(columns: seq<string>): seq<string>
  {
    Filter(columns, c => c != DriverColumn)
  }

  /** The probability columns: every label ending in `_probability`, in order. */
  function ProbabilityColumns(columns: seq<string>): seq<string>
  {
    Filter(columns, c => EndsWith(c, ProbabilitySuffix))
  }

  /** The labels `provider + '_probability'`, one per provider, in order. */
  function ProbabilityNames(providers: seq<string>): (r: seq<string>)
    ensures |r| == |providers|
    ensures forall j :: 0 <= j < |r| ==> r[j] == providers[j] + ProbabilitySuffix
  {
    seq(|providers|, j requires 0 <= j < |providers| => providers[j] + ProbabilitySuffix)
  }

  /** The provider column converted cell by cell into probabilities. */
  function ConvertedColumn(t: Table, provider: string): (col: seq<Cell>)
    requires Valid(t) && provider in t.columns
    ensures |col| == |t.rows|
  {
    ConvertCells(Column(t, provider))
  }

  /** `Series.apply(odds_to_probability)`: every cell converted, in order. */
  function ConvertCells(cells: seq<Cell>): (r: seq<Cell>)
    ensures |r| == |cells|
    decreases |cells|, 1
  {
    if cells == [] then [] else ConvertFrom(cells)
  }

  /** A non-empty column converted: its first cell, then the rest. */
  function ConvertFrom(cells: seq<Cell>): (r: seq<Cell>)
    requires cells != []
    ensures |r| == |cells|
    decreases |cells|, 0
  {
    [FromNumber(OddsToProbability(cells[0]))] + ConvertCells(cells[1..])
  }

  lemma {:induction false} ConvertCellsAt(cells: seq<Cell>, i: nat)
    requires i < |cells|
    ensures ConvertCells(cells)[i] == FromNumber(OddsToProbability(cells[i]))
    decreases |cells|
  {
    assert ConvertCells(cells) == [FromNumber(OddsToProbability(cells[0]))] + ConvertCells(cells[1..]);
    if i > 0 {
      ConvertCellsAt(cells[1..], i - 1);
    }
  }

  /** Each cell of the derived column is the conversion of the provider's
      cell in the same row. */
  lemma ConvertedColumnAt(t: Table, provider: string, i: nat)
    requires Valid(t) && provider in t.columns && i < |t.rows|
    ensures ConvertedColumn(t, provider)[i] == FromNumber(OddsToProbability(t.rows[i][provider]))
  {
    ConvertCellsAt(Column(t, provider), i);
  }

  /** The column labels after assigning `targets` in turn: a label already
      present stays where it is, a new one is appended. */
  function AssignedColumns(columns: seq<string>, targets: seq<string>): (r: seq<string>)
    ensures forall c :: c in columns ==> c in r
    decreases |targets|
  {
    if targets == [] then columns
    else AssignedColumns(if targets[0] in columns then columns else columns + [targets[0]], targets[1..])
  }

  lemma {:induction false} AssignedColumnsFrom(columns: seq<string>, targets: seq<string>, c: string)
    requires c in AssignedColumns(columns, targets)
    ensures c in columns || c in targets
    decreases |targets|
  {
    if targets != [] {
      var next := if targets[0] in columns then columns else columns + [targets[0]];
      AssignedColumnsFrom(next, targets[1..], c);
    }
  }

  lemma {:induction false} AssignedFreshColumns(columns: seq<string>, targets: seq<string>)
    requires Distinct(targets) && forall n :: n in targets ==> n !in columns
    ensures AssignedColumns(columns, targets) == columns + targets
    decreases |targets|
  {
    if targets != [] {
      AssignedFreshColumns(columns + [targets[0]], targets[1..]);
      assert columns + [targets[0]] + targets[1..] == columns + targets;
    }
  }

  /** The provider loop: for each source column in turn, assign the
      matching target column from the source column as it is at that
      moment. */
  function ConvertInto(t: Table, sources: seq<string>, targets: seq<string>): (r: Table)
    requires Valid(t) && |sources| == |targets|
    requires forall p :: p in sources ==> p in t.columns
    ensures Valid(r) && |r.rows| == |t.rows|
    decreases |sources|, 1
  {
    if sources == [] then t else ConvertFirst(t, sources, targets)
  }

  /** A non-empty run of the loop: assign the first target from the first
      source, then carry on with the rest. */
  function ConvertFirst(t: Table, sources: seq<string>, targets: seq<string>): (r: Table)
    requires Valid(t) && |sources| == |targets| && sources != []
    requires forall p :: p in sources ==> p in t.columns
    ensures Valid(r) && |r.rows| == |t.rows|
    decreases |sources|, 0
  {
    var t1 := SetColumn(t, targets[0], ConvertedColumn(t, sources[0]));
    ConvertInto(t1, sources[1..], targets[1..])
  }

  /** The loop's labels: each target is assigned in turn, an existing
      label staying where it is and a new one appended. */
  lemma {:induction false} ConvertIntoColumns(t: Table, sources: seq<string>, targets: seq<string>)
    requires Valid(t) && |sources| == |targets|
    requires forall p :: p in sources ==> p in t.columns
    ensures ConvertInto(t, sources, targets).columns == AssignedColumns(t.columns, targets)
    decreases |sources|
  {
    if sources != [] {
      var t1 := SetColumn(t, targets[0], ConvertedColumn(t, sources[0]));
      assert ConvertInto(t, sources, targets) == ConvertInto(t1, sources[1..], targets[1..]);
      ConvertIntoColumns(t1, sources[1..], targets[1..]);
    }
  }

  /** One turn of the provider loop: converting the `i`-th source column
      leaves the remaining conversions to do, and keeps every source
      column. */
  lemma ConvertIntoStep(t: Table, sources: seq<string>, targets: seq<string>, i: nat)
    requires Valid(t) && |sources| == |targets| && i < |sources|
    requires forall p :: p in sources ==> p in t.columns
    ensures var t1 := SetColumn(t, targets[i], ConvertedColumn(t, sources[i]));
      && (forall p :: p in sources ==> p in t1.columns)
      && ConvertInto(t, sources[i..], targets[i..]) == ConvertInto(t1, sources[i + 1..], targets[i + 1..])
  {
    assert sources[i..][1..] == sources[i + 1..] && targets[i..][1..] == targets[i + 1..];
  }

  /** What `process_betting_odds` does to the table it read: the loop over
      the provider columns, each converted into `provider + '_probability'`. */
  function DeriveProbabilityColumns(t: Table): (r: Table)
    requires Valid(t)
    ensures Valid(r) && |r.rows| == |t.rows|
    ensures forall c :: c in t.columns ==> c in r.columns
  {
    var providers := ProviderColumns(t.columns);
    ConvertIntoColumns(t, providers, ProbabilityNames(providers));
    ConvertInto(t, providers, ProbabilityNames(providers))
  }

  /** A raw odds table: no column is already a probability column. */
  predicate IsRawOddsTable(t: Table) {
    forall c :: c in t.columns ==> !EndsWith(c, ProbabilitySuffix)
  }

  lemma SuffixedEndsWith(p: string)
    ensures EndsWith(p + ProbabilitySuffix, ProbabilitySuffix)
  {
    assert (p + ProbabilitySuffix)[|p|..] == ProbabilitySuffix;
  }

  /** One turn of the provider loop as the source writes it: the target
      is `provider + '_probability'`. */
  lemma ProbabilityStep(t: Table, providers: seq<string>, i: nat)
    requires Valid(t) && i < |providers|
    requires forall p :: p in providers ==> p in t.columns
    ensures var t1 := SetColumn(t, providers[i] + ProbabilitySuffix, ConvertedColumn(t, providers[i]));
      var names := ProbabilityNames(providers);
      && (forall p :: p in providers ==> p in t1.columns)
      && ConvertInto(t, providers[i..], names[i..]) == ConvertInto(t1, providers[i + 1..], names[i + 1..])
  {
    ConvertIntoStep(t, providers, ProbabilityNames(providers), i);
  }

  /** The conversions still to run read distinct existing columns into
      distinct new columns. */
  ghost predicate Pending(t: Table, sources: seq<string>, targets: seq<string>) {
    && Valid(t) && |sources| == |targets| && Distinct(targets)
    && (forall p :: p in sources ==> p in t.columns)
    && (forall n :: n in targets ==> n !in t.columns)
  }

  lemma PendingStep(t: Table, sources: seq<string>, targets: seq<string>)
    requires Pending(t, sources, targets) && sources != []
    ensures var t1 := SetColumn(t, targets[0], ConvertedColumn(t, sources[0]));
      && Pending(t1, sources[1..], targets[1..])
      && t1.columns == t.columns + [targets[0]]
  {
  }

  lemma {:induction false} ConvertIntoKeepsCells(t: Table, sources: seq<string>, targets: seq<string>, i: nat, c: string)
    requires Pending(t, sources, targets) && i < |t.rows| && c in t.columns
    ensures c in ConvertInto(t, sources, targets).columns
    ensures ConvertInto(t, sources, targets).rows[i][c] == t.rows[i][c]
    decreases |sources|
  {
    ConvertIntoColumns(t, sources, targets);
    if sources != [] {
      PendingStep(t, sources, targets);
      ConvertIntoKeepsCells(SetColumn(t, targets[0], ConvertedColumn(t, sources[0])), sources[1..], targets[1..], i, c);
    }
  }

  lemma ConvertIntoConverts(t: Table, sources: seq<string>, targets: seq<string>, j: nat)
    requires Pending(t, sources, targets) && j < |sources|
    ensures targets[j] in ConvertInto(t, sources, targets).columns
    ensures Column(ConvertInto(t, sources, targets), targets[j]) == ConvertedColumn(t, sources[j])
  {
    ConvertIntoColumns(t, sources, targets);
    AssignedFreshColumns(t.columns, targets);
    assert (t.columns + targets)[|t.columns| + j] == targets[j];
    ConvertIntoFills(t, sources, targets, j);
  }

  /** The induction behind `ConvertIntoConverts`, on the number of pairs. */
  lemma {:induction false} ConvertIntoFills(t: Table, sources: seq<string>, targets: seq<string>, j: nat)
    requires Pending(t, sources, targets) && j < |sources|
    ensures var r := ConvertInto(t, sources, targets);
      targets[j] in r.columns ==> Column(r, targets[j]) == ConvertedColumn(t, sources[j])
    decreases |sources|
  {
    if j == 0 {
      ConvertIntoConvertsFirst(t, sources, targets);
    } else {
      var t1 := SetColumn(t, targets[0], ConvertedColumn(t, sources[0]));
      ConvertIntoShift(t, sources, targets, j);
      ConvertIntoFills(t1, sources[1..], targets[1..], j - 1);
    }
  }

  /** The first conversion fills its target column, and later ones leave it
      alone. */
  lemma ConvertIntoConvertsFirst(t: Table, sources: seq<string>, targets: seq<string>)
    requires Pending(t, sources, targets) && sources != []
    ensures targets[0] in ConvertInto(t, sources, targets).columns
    ensures Column(ConvertInto(t, sources, targets), targets[0]) == ConvertedColumn(t, sources[0])
  {
    var t1 := SetColumn(t, targets[0], ConvertedColumn(t, sources[0]));
    ConvertIntoUnfold(t, sources, targets);
    ColumnAssigned(t, targets[0], ConvertedColumn(t, sources[0]));
    ConvertIntoKeepsColumn(t1, sources[1..], targets[1..], targets[0]);
  }

  /** After the first conversion, the `j`-th pair is the `(j-1)`-th of the
      rest, and its source column is as it was. */
  lemma ConvertIntoShift(t: Table, sources: seq<string>, targets: seq<string>, j: nat)
    requires Pending(t, sources, targets) && 0 < j < |sources|
    ensures var t1 := SetColumn(t, targets[0], ConvertedColumn(t, sources[0]));
      && Pending(t1, sources[1..], targets[1..])
      && ConvertInto(t, sources, targets) == ConvertInto(t1, sources[1..], targets[1..])
      && sources[1..][j - 1] == sources[j] && targets[1..][j - 1] == targets[j]
      && ConvertedColumn(t1, sources[j]) == ConvertedColumn(t, sources[j])
  {
    ConvertIntoUnfold(t, sources, targets);
    ColumnKept(t, targets[0], ConvertedColumn(t, sources[0]), sources[j]);
  }

  /** Later assignments leave an existing column as it is. */
  lemma ConvertIntoKeepsColumn(t: Table, sources: seq<string>, targets: seq<string>, c: string)
    requires Pending(t, sources, targets) && c in t.columns
    ensures c in ConvertInto(t, sources, targets).columns
    ensures Column(ConvertInto(t, sources, targets), c) == Column(t, c)
  {
    ConvertIntoColumns(t, sources, targets);
    forall i | 0 <= i < |t.rows|
      ensures ConvertInto(t, sources, targets).rows[i][c] == t.rows[i][c]
    {
      ConvertIntoKeepsCells(t, sources, targets, i, c);
    }
  }

  /** The column just assigned holds the values assigned. */
  lemma ColumnAssigned(t: Table, c: string, values: seq<Cell>)
    requires Valid(t) && |values| == |t.rows|
    ensures c in SetColumn(t, c, values).columns
    ensures Column(SetColumn(t, c, values), c) == values
  {
  }

  /** The first assignment of the loop, taken out of the rest. */
  lemma ConvertIntoUnfold(t: Table, sources: seq<string>, targets: seq<string>)
    requires Pending(t, sources, targets) && sources != []
    ensures var t1 := SetColumn(t, targets[0], ConvertedColumn(t, sources[0]));
      && Pending(t1, sources[1..], targets[1..])
      && ConvertInto(t, sources, targets) == ConvertInto(t1, sources[1..], targets[1..])
  {
    PendingStep(t, sources, targets);
  }

  /** Assigning column `c` leaves every other column's cells as they were. */
  lemma ColumnKept(t: Table, c: string, values: seq<Cell>, p: string)
    requires Valid(t) && |values| == |t.rows| && p in t.columns && p != c
    ensures Column(SetColumn(t, c, values), p) == Column(t, p)
  {
  }

  lemma RawTablePending(t: Table)
    requires Valid(t) && IsRawOddsTable(t)
    ensures var s := ProviderColumns(t.columns);
      Pending(t, s, ProbabilityNames(s)) && forall p, n :: p in s && n in ProbabilityNames(s) ==> p != n
  {
    var s := ProviderColumns(t.columns);
    var ns := ProbabilityNames(s);
    forall n | n in ns ensures n !in t.columns {
      var j :| 0 <= j < |ns| && ns[j] == n;
      SuffixedEndsWith(s[j]);
    }
    forall j, k | 0 <= j < k < |ns| ensures ns[j] != ns[k] {
      if ns[j] == ns[k] {
        AppendSuffixInjective(s[j], s[k], ProbabilitySuffix);
      }
    }
  }

  lemma DeriveKeepsCells(t: Table, i: nat, c: string)
    requires Valid(t) && IsRawOddsTable(t) && i < |t.rows| && c in t.columns
    ensures DeriveProbabilityColumns(t).rows[i][c] == t.rows[i][c]
  {
    RawTablePending(t);
    var s := ProviderColumns(t.columns);
    ConvertIntoKeepsCells(t, s, ProbabilityNames(s), i, c);
  }

  lemma DeriveConverts(t: Table, i: nat, p: string)
    requires Valid(t) && IsRawOddsTable(t) && i < |t.rows| && p in ProviderColumns(t.columns)
    ensures p + ProbabilitySuffix in DeriveProbabilityColumns(t).columns
    ensures DeriveProbabilityColumns(t).rows[i][p + ProbabilitySuffix]
              == FromNumber(OddsToProbability(t.rows[i][p]))
  {
    RawTablePending(t);
    var s := ProviderColumns(t.columns);
    var j :| 0 <= j < |s| && s[j] == p;
    var r := DeriveProbabilityColumns(t);
    ConvertIntoConverts(t, s, ProbabilityNames(s), j);
    assert r.rows[i][p + ProbabilitySuffix] == Column(r, p + ProbabilitySuffix)[i];
    ConvertedColumnAt(t, p, i);
  }

  /** `process_betting_odds` on a raw odds table: exactly one new column
      `c_probability` per column `c` other than `Driver`, appended in column
      order and holding the cell-wise conversion of `c`; every existing
      column and the row order are unchanged. */
  lemma DeriveAddsOneColumnPerProvider(t: Table)
    requires Valid(t) && IsRawOddsTable(t)
    ensures var r := DeriveProbabilityColumns(t);
      && r.columns == t.columns + ProbabilityNames(ProviderColumns(t.columns))
      && |r.rows| == |t.rows|
      && (forall i, c :: 0 <= i < |t.rows| && c in t.columns ==> r.rows[i][c] == t.rows[i][c])
      && (forall i, p :: 0 <= i < |t.rows| && p in ProviderColumns(t.columns) ==>
            r.rows[i][p + ProbabilitySuffix] == FromNumber(OddsToProbability(t.rows[i][p])))
  {
    RawTablePending(t);
    ConvertIntoColumns(t, ProviderColumns(t.columns), ProbabilityNames(ProviderColumns(t.columns)));
    AssignedFreshColumns(t.columns, ProbabilityNames(ProviderColumns(t.columns)));
    forall i, c | 0 <= i < |t.rows| && c in t.columns {
      DeriveKeepsCells(t, i, c);
    }
    forall i, p | 0 <= i < |t.rows| && p in ProviderColumns(t.columns) {
      DeriveConverts(t, i, p);
    }
  }

  // ---------------------------------------------------------------------
  // Average across providers (`calculate_average_probabilities`)

  /** The numeric cells of `row` among `cols`, left to right: NaN is skipped. */
  function DefinedValues(row: Row, cols: seq<string>): (vs: seq<real>)
    requires forall c :: c in cols ==> c in row
    ensures |vs| <= |cols|
    ensures vs == [] <==> forall c :: c in cols ==> !row[c].Num?
    decreases |cols|
  {
    if cols == [] then []
    else (if row[cols[0]].Num? then [row[cols[0]].x] else []) + DefinedValues(row, cols[1..])
  }

  function Sum(xs: seq<real>): real
  {
    if xs == [] then 0.0 else xs[0] + Sum(xs[1..])
  }

  /** The arithmetic mean; undefined for no values. */
  function Mean(xs: seq<real>): (m: Option<real>)
    ensures m.Some? <==> xs != []
    ensures m.Some? ==> m.value * (|xs| as real) == Sum(xs)
  {
    if xs == [] then None else Some(Sum(xs) / (|xs| as real))
  }

  /** The row's mean over `cols`, skipping undefined cells; undefined when
      every cell is. */
  function RowAverage(row: Row, cols: seq<string>): (c: Cell)
    requires forall c :: c in cols ==> c in row
    ensures c.Num? <==> exists k :: k in cols && row[k].Num?
    ensures c == NaN || c.Num?
  {
    FromNumber(Mean(DefinedValues(row, cols)))
  }

  /** The table with `average_probability` assigned: for every row, the mean
      of its defined cells over all columns whose label ends in
      `_probability` (an existing `average_probability` or
      `normalized_probability` column among them). */
  function WithAverage(t: Table): (r: Table)
    requires Valid(t)
    ensures Valid(r) && |r.rows| == |t.rows| && AverageColumn in r.columns
    ensures forall i :: 0 <= i < |r.rows| ==> r.rows[i] == t.rows[i][AverageColumn := RowAverage(t.rows[i], ProbabilityColumns(t.columns))]
  {
    var cols := ProbabilityColumns(t.columns);
    SetColumn(t, AverageColumn,
      seq(|t.rows|, i requires 0 <= i < |t.rows| => RowAverage(t.rows[i], cols)))
  }

  lemma {:induction false} SumBounds(xs: seq<real>, lo: real, hi: real)
    requires forall k :: 0 <= k < |xs| ==> lo < xs[k] < hi
    ensures xs != [] ==> (|xs| as real) * lo < Sum(xs) < (|xs| as real) * hi
  {
    if xs != [] {
      SumBounds(xs[1..], lo, hi);
    }
  }

  /** The mean of values strictly between `lo` and `hi` lies strictly between
      them too. */
  lemma MeanBetween(xs: seq<real>, lo: real, hi: real)
    requires xs != [] && forall k :: 0 <= k < |xs| ==> lo < xs[k] < hi
    ensures lo < Mean(xs).value < hi
  {
    SumBounds(xs, lo, hi);
    var n, m := |xs| as real, Mean(xs).value;
    assert m * n == Sum(xs);
    LessFactor(lo, m, n);
    LessFactor(m, hi, n);
  }

  lemma LessFactor(a: real, b: real, n: real)
    requires n > 0.0 && a * n < b * n
    ensures a < b
  {
  }

  lemma {:induction false} DefinedValuesBetween(row: Row, cols: seq<string>, lo: real, hi: real)
    requires forall c :: c in cols ==> c in row
    requires forall c :: c in cols && row[c].Num? ==> lo < row[c].x < hi
    ensures forall k :: 0 <= k < |DefinedValues(row, cols)| ==> lo < DefinedValues(row, cols)[k] < hi
    decreases |cols|
  {
    if cols != [] {
      DefinedValuesBetween(row, cols[1..], lo, hi);
    }
  }

  /** A row average of probabilities is a probability: when every defined
      `_probability` cell of the row lies strictly between 0 and 1, so does
      the average, or it is undefined. */
  lemma AverageOfProbabilities(t: Table, i: nat)
    requires Valid(t) && i < |t.rows|
    requires forall c :: c in ProbabilityColumns(t.columns) && t.rows[i][c].Num? ==>
               0.0 < t.rows[i][c].x < 1.0
    ensures var a := WithAverage(t).rows[i][AverageColumn];
      a == NaN || (a.Num? && 0.0 < a.x < 1.0)
  {
    var cols := ProbabilityColumns(t.columns);
    var vs := DefinedValues(t.rows[i], cols);
    if vs != [] {
      DefinedValuesBetween(t.rows[i], cols, 0.0, 1.0);
      MeanBetween(vs, 0.0, 1.0);
    }
  }

  /** The averaging test case: {0.4, 0.5} with one provider missing gives
      0.45; the missing quotation is skipped, not counted as zero. */
  lemma AverageSkipsMissing()
    ensures RowAverage(map["P1_probability" := Num(0.4), "P2_probability" := NaN, "P3_probability" := Num(0.5)],
                       ["P1_probability", "P2_probability", "P3_probability"]) == Num(0.45)
  {
    var row := map["P1_probability" := Num(0.4), "P2_probability" := NaN, "P3_probability" := Num(0.5)];
    var cols := ["P1_probability", "P2_probability", "P3_probability"];
    assert cols[1..] == ["P2_probability", "P3_probability"];
    assert cols[1..][1..] == ["P3_probability"];
    assert DefinedValues(row, cols) == [0.4, 0.5];
    assert Sum([0.4, 0.5]) == 0.9;
  }

  lemma {:induction false} DefinedValuesSnoc(row: Row, cols: seq<string>, c: string)
    requires forall k :: k in cols + [c] ==> k in row
    ensures DefinedValues(row, cols + [c])
              == DefinedValues(row, cols) + (if row[c].Num? then [row[c].x] else [])
    decreases |cols|
  {
    if cols == [] {
      assert [c][1..] == [];
    } else {
      var head := if row[cols[0]].Num? then [row[cols[0]].x] else [];
      var tail := if row[c].Num? then [row[c].x] else [];
      var rest := DefinedValues(row, cols[1..]);
      assert (cols + [c])[1..] == cols[1..] + [c] && (cols + [c])[0] == cols[0];
      DefinedValuesSnoc(row, cols[1..], c);
      calc {
        DefinedValues(row, cols + [c]);
        head + DefinedValues(row, cols[1..] + [c]);
        head + (rest + tail);
        { ConcatAssociative(head, rest, tail); }
        (head + rest) + tail;
      }
    }
  }

  lemma {:induction false} SumSnoc(xs: seq<real>, y: real)
    ensures Sum(xs + [y]) == Sum(xs) + y
  {
    if xs != [] {
      assert (xs + [y])[1..] == xs[1..] + [y];
      SumSnoc(xs[1..], y);
    }
  }

  /** Adding the mean of some values to them leaves the mean unchanged. */
  lemma MeanWithOwnMean(xs: seq<real>)
    requires xs != []
    ensures Mean(xs + [Mean(xs).value]) == Mean(xs)
  {
    var m := Mean(xs).value;
    var n := |xs| as real;
    SumSnoc(xs, m);
    var m2 := Mean(xs + [m]).value;
    assert m2 * (n + 1.0) == m * n + m;
    assert m * n + m == m * (n + 1.0);
    CancelFactor(m2, m, n + 1.0);
  }

  lemma CancelFactor(a: real, b: real, k: real)
    requires k > 0.0 && a * k == b * k
    ensures a == b
  {
    if a < b {
      LessTimesPositive(a, b, k);
    } else if b < a {
      LessTimesPositive(b, a, k);
    }
  }

  lemma LessTimesPositive(a: real, b: real, k: real)
    requires a < b && k > 0.0
    ensures a * k < b * k
  {
  }

  /** Recomputing the average once the average column exists: the selection
      by suffix now includes `average_probability` itself, yet every row's
      average is unchanged, because a mean joined by itself keeps its value. */
  lemma AverageRecomputedIsStable(t: Table, i: nat)
    requires Valid(t) && AverageColumn !in t.columns && i < |t.rows|
    ensures var a := WithAverage(t);
      AverageColumn in a.columns && i < |a.rows| &&
      WithAverage(a).rows[i][AverageColumn] == a.rows[i][AverageColumn]
  {
    var a := WithAverage(t);
    var cols := ProbabilityColumns(t.columns);
    SuffixOfAverage();
    assert ProbabilityColumns(a.columns) == cols + [AverageColumn] by {
      FilterSnoc(t.columns, AverageColumn, c => EndsWith(c, ProbabilitySuffix));
    }
    var row := a.rows[i];
    assert forall k :: k in cols ==> row[k] == t.rows[i][k];
    DefinedValuesAgree(row, t.rows[i], cols);
    DefinedValuesSnoc(row, cols, AverageColumn);
    var vs := DefinedValues(t.rows[i], cols);
    if vs != [] {
      MeanWithOwnMean(vs);
    }
  }

  lemma SuffixOfAverage()
    ensures EndsWith(AverageColumn, ProbabilitySuffix)
  {
    assert AverageColumn == "average" + ProbabilitySuffix;
    SuffixedEndsWith("average");
  }

  lemma SuffixOfNormalized()
    ensures EndsWith(NormalizedColumn, ProbabilitySuffix)
  {
    assert NormalizedColumn == "normalized" + ProbabilitySuffix;
    SuffixedEndsWith("normalized");
  }

  /** The pipeline's own `average_probability` and `normalized_probability`
      labels end in `_probability`, so the average selects them as inputs
      whenever they are present. */
  lemma DerivedColumnsAreAveraged(columns: seq<string>)
    ensures AverageColumn in columns ==> AverageColumn in ProbabilityColumns(columns)
    ensures NormalizedColumn in columns ==> NormalizedColumn in ProbabilityColumns(columns)
  {
    SuffixOfAverage();
    SuffixOfNormalized();
  }

  lemma {:induction false} FilterKeepsAll(s: seq<string>, keep: string -> bool)
    requires forall x :: x in s ==> keep(x)
    ensures Filter(s, keep) == s
  {
    if s != [] {
      FilterKeepsAll(s[1..], keep);
    }
  }

  lemma {:induction false} FilterSnoc(s: seq<string>, x: string, keep: string -> bool)
    ensures Filter(s + [x], keep) == Filter(s, keep) + (if keep(x) then [x] else [])
  {
    if s == [] {
      assert [x][1..] == [];
    } else {
      var head := if keep(s[0]) then [s[0]] else [];
      var tail := if keep(x) then [x] else [];
      var rest := Filter(s[1..], keep);
      assert (s + [x])[1..] == s[1..] + [x] && (s + [x])[0] == s[0];
      FilterSnoc(s[1..], x, keep);
      calc {
        Filter(s + [x], keep);
        head + Filter(s[1..] + [x], keep);
        head + (rest + tail);
        { ConcatAssociative(head, rest, tail); }
        (head + rest) + tail;
      }
    }
  }

  lemma ConcatAssociative<T>(a: seq<T>, b: seq<T>, c: seq<T>)
    ensures a + (b + c) == (a + b) + c
  {
  }

  lemma {:induction false} DefinedValuesAgree(r1: Row, r2: Row, cols: seq<string>)
    requires forall k :: k in cols ==> k in r1 && k in r2 && r1[k] == r2[k]
    ensures DefinedValues(r1, cols) == DefinedValues(r2, cols)
    decreases |cols|
  {
    if cols != [] {
      DefinedValuesAgree(r1, r2, cols[1..]);
    }
  }

  /** Once `normalized_probability` exists, recomputing the average mixes
      that percentage into it: a single provider at 0.5, with an average of
      0.5 normalised to 100, re-averages to (0.5 + 0.5 + 100) / 3. */
  lemma AverageTakesInNormalizedColumn()
    ensures var t := Table(["P_probability", AverageColumn, NormalizedColumn],
                           [map["P_probability" := Num(0.5), AverageColumn := Num(0.5), NormalizedColumn := Num(100.0)]]);
      Valid(t) && |WithAverage(t).rows| == 1 && WithAverage(t).rows[0][AverageColumn] == Num(101.0 / 3.0)
  {
    var row := map["P_probability" := Num(0.5), AverageColumn := Num(0.5), NormalizedColumn := Num(100.0)];
    var cols := ["P_probability", AverageColumn, NormalizedColumn];
    var t := Table(cols, [row]);
    assert Valid(t);
    SuffixOfAverage();
    SuffixOfNormalized();
    SuffixedLabel();
    SuffixedEndsWith("P");
    FilterKeepsAll(cols, c => EndsWith(c, ProbabilitySuffix));
    assert ProbabilityColumns(cols) == cols;
    RowAverageOfThree(row, "P_probability", AverageColumn, NormalizedColumn);
    assert WithAverage(t).rows[0] == row[AverageColumn := RowAverage(row, cols)];
    assert (0.5 + 0.5 + 100.0) / 3.0 == 101.0 / 3.0;
  }

  lemma SuffixedLabel()
    ensures "P_probability" == "P" + ProbabilitySuffix
  {
    assert ("P" + ProbabilitySuffix)[1..] == ProbabilitySuffix;
  }

  lemma RowAverageOfThree(row: Row, a: string, b: string, c: string)
    requires a in row && b in row && c in row
    requires row[a].Num? && row[b].Num? && row[c].Num?
    ensures RowAverage(row, [a, b, c]) == Num((row[a].x + row[b].x + row[c].x) / 3.0)
  {
    var cols := [a, b, c];
    assert cols[1..] == [b, c];
    assert cols[1..][1..] == [c];
    assert DefinedValues(row, [c]) == [row[c].x];
    assert DefinedValues(row, [b, c]) == [row[b].x, row[c].x];
    assert DefinedValues(row, cols) == [row[a].x, row[b].x, row[c].x];
    var xs := [row[a].x, row[b].x, row[c].x];
    assert xs[1..] == [row[b].x, row[c].x] && xs[1..][1..] == [row[c].x] && xs[1..][1..][1..] == [];
    assert Sum(xs[1..][1..]) == row[c].x + Sum([]);
    assert Sum(xs[1..]) == row[b].x + row[c].x;
  }

  // ---------------------------------------------------------------------
  // Normalisation to a percentage (`normalize_probabilities`)

  /** `Series.sum()`: the sum of the numeric cells, 0 when there are none. */
  function SumDefined(col: seq<Cell>): real
  {
    if col == [] then 0.0 else (if col[0].Num? then col[0].x else 0.0) + SumDefined(col[1..])
  }

  /** A column with no defined value sums to 0, as pandas' NaN-skipping
      `sum()` does. */
  lemma {:induction false} SumOfUndefinedIsZero(col: seq<Cell>)
    requires forall k :: 0 <= k < |col| ==> !col[k].Num?
    ensures SumDefined(col) == 0.0
  {
    if col != [] {
      SumOfUndefinedIsZero(col[1..]);
    }
  }

  /** A defined `share` is `part` as a percentage of `total`. */
  predicate PercentOf(share: Cell, part: Cell, total: real)
  {
    share.Num? && part.Num? ==> share.x * total == part.x * 100.0
  }

  /** `avg / total * 100` for one cell: undefined when the average is, and
      when the total is zero; otherwise the cell's share of the total, as a
      percentage. */
  function Rescale(c: Cell, total: real): (r: Cell)
    ensures r.Num? <==> c.Num? && total != 0.0
    ensures r == NaN || r.Num?
    ensures PercentOf(r, c, total)
  {
    if c.Num? && total != 0.0 then Num(c.x / total * 100.0) else NaN
  }

  function RescaleAll(col: seq<Cell>, total: real): (r: seq<Cell>)
    ensures |r| == |col|
    ensures forall i :: 0 <= i < |r| ==> r[i] == Rescale(col[i], total)
  {
    if col == [] then [] else [Rescale(col[0], total)] + RescaleAll(col[1..], total)
  }

  /** The table with `normalized_probability` assigned from
      `average_probability` and its NaN-skipping total. */
  function WithNormalized(t: Table): (r: Table)
    requires Valid(t) && AverageColumn in t.columns
    ensures Valid(r) && |r.rows| == |t.rows| && NormalizedColumn in r.columns
    ensures forall i :: 0 <= i < |r.rows| ==>
              r.rows[i] == t.rows[i][NormalizedColumn := Rescale(t.rows[i][AverageColumn], SumDefined(Column(t, AverageColumn)))]
  {
    var avg := Column(t, AverageColumn);
    SetColumn(t, NormalizedColumn, RescaleAll(avg, SumDefined(avg)))
  }

  lemma {:induction false} SumRescaled(col: seq<Cell>, total: real)
    requires total != 0.0
    ensures SumDefined(RescaleAll(col, total)) == SumDefined(col) / total * 100.0
  {
    if col != [] {
      SumRescaled(col[1..], total);
      var head := if col[0].Num? then col[0].x else 0.0;
      assert (if Rescale(col[0], total).Num? then Rescale(col[0], total).x else 0.0) == head / total * 100.0;
      assert RescaleAll(col, total)[1..] == RescaleAll(col[1..], total);
      DivisionDistributes(head, SumDefined(col[1..]), total);
    }
  }

  lemma DivisionDistributes(a: real, b: real, total: real)
    requires total != 0.0
    ensures a / total * 100.0 + b / total * 100.0 == (a + b) / total * 100.0
  {
  }

  lemma NormalizedColumnIs(t: Table)
    requires Valid(t) && AverageColumn in t.columns
    ensures NormalizedColumn in WithNormalized(t).columns
    ensures Column(WithNormalized(t), NormalizedColumn)
              == RescaleAll(Column(t, AverageColumn), SumDefined(Column(t, AverageColumn)))
  {
  }

  /** When the defined averages have a non-zero total, the defined
      normalised values add up to exactly 100. */
  lemma NormalizedSumsTo100(t: Table)
    requires Valid(t) && AverageColumn in t.columns
    requires SumDefined(Column(t, AverageColumn)) != 0.0
    ensures NormalizedColumn in WithNormalized(t).columns
    ensures SumDefined(Column(WithNormalized(t), NormalizedColumn)) == 100.0
  {
    var total := SumDefined(Column(t, AverageColumn));
    NormalizedColumnIs(t);
    SumRescaled(Column(t, AverageColumn), total);
    WholeIsHundredPercent(total);
  }

  lemma WholeIsHundredPercent(total: real)
    requires total != 0.0
    ensures total / total * 100.0 == 100.0
  {
  }

  /** A row's normalised value is defined exactly when its average is and
      the total is non-zero; a zero total leaves every row undefined. */
  lemma NormalizedDefinedness(t: Table, i: nat)
    requires Valid(t) && AverageColumn in t.columns && i < |t.rows|
    ensures var total := SumDefined(Column(t, AverageColumn));
      var n := WithNormalized(t).rows[i][NormalizedColumn];
      && (n.Num? <==> t.rows[i][AverageColumn].Num? && total != 0.0)
      && PercentOf(n, t.rows[i][AverageColumn], total)
  {
    var avg := Column(t, AverageColumn);
    var total := SumDefined(avg);
    assert avg[i] == t.rows[i][AverageColumn];
    assert WithNormalized(t).rows[i][NormalizedColumn] == RescaleAll(avg, total)[i];
    var n := Rescale(avg[i], total);
    assert n.Num? <==> avg[i].Num? && total != 0.0;
  }

  /** Normalising an already normalised column changes nothing: fed back in
      as the averages, the percentages total 100 and are reproduced. */
  lemma NormalizationIdempotent(t: Table)
    requires Valid(t) && AverageColumn in t.columns
    requires SumDefined(Column(t, AverageColumn)) != 0.0
    ensures var t2 := WithNormalized(t);
      NormalizedColumn in t2.columns &&
      var t3 := SetColumn(t2, AverageColumn, Column(t2, NormalizedColumn));
      Column(WithNormalized(t3), NormalizedColumn) == Column(t2, NormalizedColumn)
  {
    var t2 := WithNormalized(t);
    NormalizedSumsTo100(t);
    var norm := Column(t2, NormalizedColumn);
    var t3 := SetColumn(t2, AverageColumn, norm);
    assert Column(t3, AverageColumn) == norm;
    NormalizedColumnIs(t3);
    forall k | 0 <= k < |norm| ensures Rescale(norm[k], 100.0) == norm[k] {
      NormalizedColumnIs(t);
    }
  }

  // ---------------------------------------------------------------------
  // The probability chain on a raw odds table

  /** Every `_probability` column of a freshly derived table holds, per
      row, a probability strictly between 0 and 1 or nothing. */
  lemma DerivedCellIsProbability(t: Table, i: nat, c: string)
    requires Valid(t) && IsRawOddsTable(t) && i < |t.rows|
    requires c in ProbabilityColumns(DeriveProbabilityColumns(t).columns)
    ensures var x := DeriveProbabilityColumns(t).rows[i][c];
      x == NaN || (x.Num? && 0.0 < x.x < 1.0)
  {
    DeriveAddsOneColumnPerProvider(t);
    var s := ProviderColumns(t.columns);
    var ns := ProbabilityNames(s);
    assert c !in t.columns;
    var j :| 0 <= j < |ns| && ns[j] == c;
    DeriveConverts(t, i, s[j]);
  }

  /** After `process_betting_odds` and `calculate_average_probabilities`,
      every driver's average is a probability strictly between 0 and 1, or
      undefined when no provider quoted a usable price. */
  lemma PipelineAverageIsProbability(t: Table, i: nat)
    requires Valid(t) && IsRawOddsTable(t) && i < |t.rows|
    ensures var d := DeriveProbabilityColumns(t);
      i < |d.rows| &&
      var a := WithAverage(d).rows[i][AverageColumn];
      a == NaN || (a.Num? && 0.0 < a.x < 1.0)
  {
    var d := DeriveProbabilityColumns(t);
    forall c | c in ProbabilityColumns(d.columns) && d.rows[i][c].Num?
      ensures 0.0 < d.rows[i][c].x < 1.0
    {
      DerivedCellIsProbability(t, i, c);
    }
    AverageOfProbabilities(d, i);
  }

  lemma {:induction false} SumDefinedNonNegative(col: seq<Cell>)
    requires forall k :: 0 <= k < |col| && col[k].Num? ==> col[k].x >= 0.0
    ensures SumDefined(col) >= 0.0
  {
    if col != [] {
      SumDefinedNonNegative(col[1..]);
    }
  }

  lemma {:induction false} PartAtMostSum(col: seq<Cell>, i: nat)
    requires i < |col| && col[i].Num?
    requires forall k :: 0 <= k < |col| && col[k].Num? ==> col[k].x >= 0.0
    ensures col[i].x <= SumDefined(col)
  {
    if i == 0 {
      SumDefinedNonNegative(col[1..]);
    } else {
      PartAtMostSum(col[1..], i - 1);
    }
  }

  lemma PercentBounds(n: Cell, a: Cell, total: real)
    requires n.Num? && a.Num? && 0.0 <= a.x <= total && total != 0.0 && PercentOf(n, a, total)
    ensures 0.0 <= n.x <= 100.0
  {
    assert total > 0.0;
  }

  /** With non-negative averages, every normalised value is a percentage
      between 0 and 100, or undefined. */
  lemma NormalizedWithinPercent(t: Table, i: nat)
    requires Valid(t) && AverageColumn in t.columns && i < |t.rows|
    requires forall k :: 0 <= k < |t.rows| && t.rows[k][AverageColumn].Num? ==>
               t.rows[k][AverageColumn].x >= 0.0
    ensures var n := WithNormalized(t).rows[i][NormalizedColumn];
      n == NaN || (n.Num? && 0.0 <= n.x <= 100.0)
  {
    var avg := Column(t, AverageColumn);
    var total := SumDefined(avg);
    NormalizedDefinedness(t, i);
    var n := WithNormalized(t).rows[i][NormalizedColumn];
    if n.Num? {
      forall k | 0 <= k < |avg| && avg[k].Num? ensures avg[k].x >= 0.0 {
        assert avg[k] == t.rows[k][AverageColumn];
      }
      PartAtMostSum(avg, i);
      assert avg[i] == t.rows[i][AverageColumn];
      PercentBounds(n, avg[i], total);
    }
  }

  // ---------------------------------------------------------------------
  // Fantasy points and expected points (`calculate_expected_points`)

  /** A driver's fantasy points looked up by name: undefined for a driver
      the points map does not know. */
  function GamePoints(driver: Cell, gameOdds: map<string, real>): (r: Cell)
    ensures r.Num? <==> driver.Str? && driver.s in gameOdds
    ensures r.Num? ==> r.x == gameOdds[driver.s]
    ensures r == NaN || r.Num?
  {
    if driver.Str? && driver.s in gameOdds then Num(gameOdds[driver.s]) else NaN
  }

  /** The table with `pointsColumn` assigned from each row's driver. */
  function WithPoints(t: Table, gameOdds: map<string, real>, pointsColumn: string): (r: Table)
    requires Valid(t) && DriverColumn in t.columns
    ensures Valid(r) && |r.rows| == |t.rows| && pointsColumn in r.columns
    ensures forall i :: 0 <= i < |r.rows| ==> r.rows[i] == t.rows[i][pointsColumn := GamePoints(t.rows[i][DriverColumn], gameOdds)]
  {
    SetColumn(t, pointsColumn,
      seq(|t.rows|, i requires 0 <= i < |t.rows| => GamePoints(t.rows[i][DriverColumn], gameOdds)))
  }

  /** A defined `xpts` is `points` weighted by the percentage `norm`. */
  predicate WeightedBy(xpts: Cell, norm: Cell, points: Cell)
  {
    xpts.Num? && norm.Num? && points.Num? ==> xpts.x * 100.0 == norm.x * points.x
  }

  /** `normalized * points / 100` for one row: undefined when either is. */
  function ExpectedPoints(norm: Cell, points: Cell): (r: Cell)
    ensures r.Num? <==> norm.Num? && points.Num?
    ensures r == NaN || r.Num?
    ensures WeightedBy(r, norm, points)
  {
    if norm.Num? && points.Num? then Num(norm.x * points.x / 100.0) else NaN
  }

  /** The table with `xColumn` assigned from the normalised probability and
      `pointsColumn`. */
  function WithExpected(t: Table, pointsColumn: string, xColumn: string): (r: Table)
    requires Valid(t) && NormalizedColumn in t.columns && pointsColumn in t.columns
    ensures Valid(r) && |r.rows| == |t.rows| && xColumn in r.columns
    ensures forall i :: 0 <= i < |r.rows| ==>
              r.rows[i] == t.rows[i][xColumn := ExpectedPoints(t.rows[i][NormalizedColumn], t.rows[i][pointsColumn])]
  {
    SetColumn(t, xColumn,
      seq(|t.rows|, i requires 0 <= i < |t.rows| =>
        ExpectedPoints(t.rows[i][NormalizedColumn], t.rows[i][pointsColumn])))
  }

  /** A driver whose normalised probability is a percentage expects between
      none and all of their fantasy points. */
  lemma ExpectedWithinPoints(norm: Cell, points: Cell)
    requires norm.Num? && 0.0 <= norm.x <= 100.0 && points.Num? && points.x >= 0.0
    ensures var e := ExpectedPoints(norm, points); 0.0 <= e.x <= points.x
  {
    var e := ExpectedPoints(norm, points);
    assert e.x * 100.0 == norm.x * points.x;
    assert norm.x * points.x <= 100.0 * points.x;
  }

  /** Both assignments on one row: the points column holds the driver's
      points, the expected column their weighted value, and every other
      cell of the row is as it was. */
  lemma PointsAndExpectedRow(t: Table, gameOdds: map<string, real>, pointsColumn: string, xColumn: string, i: nat)
    requires Valid(t) && DriverColumn in t.columns && NormalizedColumn in t.columns && i < |t.rows|
    requires pointsColumn != NormalizedColumn
    ensures var u := WithPoints(t, gameOdds, pointsColumn);
      pointsColumn in u.columns && NormalizedColumn in u.columns && i < |u.rows| &&
      var pts := GamePoints(t.rows[i][DriverColumn], gameOdds);
      WithExpected(u, pointsColumn, xColumn).rows[i]
        == t.rows[i][pointsColumn := pts][xColumn := ExpectedPoints(t.rows[i][NormalizedColumn], pts)]
  {
  }

  /** Deriving, averaging and normalising never add a `Driver` column: every
      label they add ends in `_probability`. */
  lemma DriverColumnKept(t: Table)
    requires Valid(t)
    ensures var n := WithNormalized(WithAverage(DeriveProbabilityColumns(t)));
      DriverColumn in n.columns <==> DriverColumn in t.columns
  {
    var d := DeriveProbabilityColumns(t);
    DeriveKeepsDriverColumn(t);
    var a := WithAverage(d);
    assert DriverColumn in a.columns <==> DriverColumn in d.columns;
  }

  lemma DeriveKeepsDriverColumn(t: Table)
    requires Valid(t)
    ensures DriverColumn in DeriveProbabilityColumns(t).columns <==> DriverColumn in t.columns
  {
    var ps := ProviderColumns(t.columns);
    ConvertIntoColumns(t, ps, ProbabilityNames(ps));
    if DriverColumn in DeriveProbabilityColumns(t).columns {
      AssignedColumnsFrom(t.columns, ProbabilityNames(ps), DriverColumn);
    }
  }
}
