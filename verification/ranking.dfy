/** The ranking step: rows ordered by a numeric column, highest first, with
    undefined values last. */
module Ranking {
  import opened Common
  import opened Odds
  import opened Frame
  import opened Pipeline

  /** A row's sort key: its value in `column`, undefined for NaN, text or
      a missing cell. */
  function Key(row: Row, column: string): Option<real>
  {
    if column in row then AsNumber(row[column]) else None
  }

  /** `a` may come before `b` in descending order with undefined keys last. */
  predicate Before(a: Option<real>, b: Option<real>)
  {
    b.None? || (a.Some? && a.value >= b.value)
  }

  lemma BeforeTotal(a: Option<real>, b: Option<real>)
    ensures Before(a, b) || Before(b, a)
  {
  }

  lemma BeforeTransitive(a: Option<real>, b: Option<real>, c: Option<real>)
    requires Before(a, b) && Before(b, c)
    ensures Before(a, c)
  {
  }

  predicate SortedBy(rows: seq<Row>, column: string)
  {
    forall i, j :: 0 <= i < j < |rows| ==> Before(Key(rows[i], column), Key(rows[j], column))
  }

  /** Every row of `rows` may follow `row`. */
  predicate AllAfter(row: Row, rows: seq<Row>, column: string)
  {
    forall k :: 0 <= k < |rows| ==> Before(Key(row, column), Key(rows[k], column))
  }

  lemma {:induction false} ConsSorted(row: Row, rows: seq<Row>, column: string)
    requires SortedBy(rows, column) && AllAfter(row, rows, column)
    ensures SortedBy([row] + rows, column)
  {
    var r := [row] + rows;
    forall i, j | 0 <= i < j < |r| ensures Before(Key(r[i], column), Key(r[j], column)) {
      if i == 0 {
        assert r[j] == rows[j - 1];
      } else {
        assert r[i] == rows[i - 1] && r[j] == rows[j - 1];
      }
    }
  }

  /** `row` placed in front of the first row it may precede. */
  function Insert(row: Row, rows: seq<Row>, column: string): (r: seq<Row>)
    ensures multiset(r) == multiset(rows) + multiset{row}
    ensures forall k :: 0 <= k < |r| ==> r[k] == row || r[k] in rows
  {
    if rows == [] then [row]
    else if Before(Key(row, column), Key(rows[0], column)) then [row] + rows
    else
      assert rows == [rows[0]] + rows[1..];
      [rows[0]] + Insert(row, rows[1..], column)
  }

  lemma {:induction false} InsertSorted(row: Row, rows: seq<Row>, column: string)
    requires SortedBy(rows, column)
    ensures SortedBy(Insert(row, rows, column), column)
  {
    if rows == [] {
    } else if Before(Key(row, column), Key(rows[0], column)) {
      forall k | 0 <= k < |rows| ensures Before(Key(row, column), Key(rows[k], column)) {
        if k > 0 {
          BeforeTransitive(Key(row, column), Key(rows[0], column), Key(rows[k], column));
        }
      }
      ConsSorted(row, rows, column);
    } else {
      var rest := Insert(row, rows[1..], column);
      InsertSorted(row, rows[1..], column);
      forall k | 0 <= k < |rest| ensures Before(Key(rows[0], column), Key(rest[k], column)) {
        if rest[k] == row {
          BeforeTotal(Key(row, column), Key(rows[0], column));
        } else {
          var m :| 0 <= m < |rows[1..]| && rows[1..][m] == rest[k];
          assert rows[m + 1] == rest[k];
        }
      }
      ConsSorted(rows[0], rest, column);
    }
  }

  /** `sort_values(by=column, ascending=False)`: the same rows, highest key
      first, undefined keys at the end. */
  function SortRows(rows: seq<Row>, column: string): (r: seq<Row>)
    ensures SortedBy(r, column)
    ensures multiset(r) == multiset(rows)
  {
    if rows == [] then []
    else
      var rest := SortRows(rows[1..], column);
      InsertSorted(rows[0], rest, column);
      assert rows == [rows[0]] + rows[1..];
      Insert(rows[0], rest, column)
  }

  /** The table with its rows ranked by `column`. */
  function Ranked(t: Table, column: string): (r: Table)
    requires Valid(t)
    ensures Valid(r) && r.columns == t.columns
    ensures |r.rows| == |t.rows|
    ensures SortedBy(r.rows, column)
    ensures multiset(r.rows) == multiset(t.rows)
  {
    var rows := SortRows(t.rows, column);
    assert forall k :: 0 <= k < |rows| ==> rows[k] in multiset(t.rows);
    assert |rows| == |multiset(rows)| == |multiset(t.rows)| == |t.rows|;
    Table(t.columns, rows)
  }

  /** A defined key never follows an undefined one, and defined keys never
      increase down the ranking. */
  lemma RankingOrder(t: Table, column: string, i: nat, j: nat)
    requires Valid(t) && i < j < |t.rows|
    ensures var r := Ranked(t, column).rows;
      var a, b := Key(r[i], column), Key(r[j], column);
      (a.None? ==> b.None?) && (a.Some? && b.Some? ==> a.value >= b.value)
  {
  }

  // ---------------------------------------------------------------------
  // Scoring: points, expected points, then the ranking

  /** One driver's row after the points lookup and the expected-points
      assignment. */
  function ScoredRow(row: Row, gameOdds: map<string, real>, pointsColumn: string, xColumn: string): (r: Row)
    requires DriverColumn in row && NormalizedColumn in row
    ensures r.Keys == row.Keys + {pointsColumn, xColumn}
    ensures forall c :: c in row && c != pointsColumn && c != xColumn ==> r[c] == row[c]
    ensures pointsColumn != xColumn ==>
              (r[pointsColumn].Num? <==> row[DriverColumn].Str? && row[DriverColumn].s in gameOdds)
    ensures r[xColumn].Num? <==> row[NormalizedColumn].Num? && row[DriverColumn].Str? && row[DriverColumn].s in gameOdds
  {
    var pts := GamePoints(row[DriverColumn], gameOdds);
    row[pointsColumn := pts][xColumn := ExpectedPoints(row[NormalizedColumn], pts)]
  }

  /** The closing steps shared by `calculate_expected_points` and both runs
      of the quali script: assign the points column, then the expected
      points column, then rank by normalised probability. */
  function Scored(t: Table, gameOdds: map<string, real>, pointsColumn: string, xColumn: string): (r: Table)
    requires Valid(t) && DriverColumn in t.columns && NormalizedColumn in t.columns
    ensures Valid(r) && |r.rows| == |t.rows|
    ensures pointsColumn in r.columns && xColumn in r.columns
    ensures SortedBy(r.rows, NormalizedColumn)
  {
    var u := WithPoints(t, gameOdds, pointsColumn);
    Ranked(WithExpected(u, pointsColumn, xColumn), NormalizedColumn)
  }

  /** The rows of `t` in table order, each given its points and expected
      points. */
  function ScoredRows(t: Table, gameOdds: map<string, real>, pointsColumn: string, xColumn: string): seq<Row>
    requires Valid(t) && DriverColumn in t.columns && NormalizedColumn in t.columns
  {
    seq(|t.rows|, i requires 0 <= i < |t.rows| => ScoredRow(t.rows[i], gameOdds, pointsColumn, xColumn))
  }

  /** The scored table holds exactly the input drivers, each row extended by
      its points and expected points, ordered by normalised probability
      from highest to lowest with undefined values last. */
  lemma ScoredIsRankedPermutation(t: Table, gameOdds: map<string, real>, pointsColumn: string, xColumn: string)
    requires Valid(t) && DriverColumn in t.columns && NormalizedColumn in t.columns
    requires pointsColumn != NormalizedColumn
    ensures var r := Scored(t, gameOdds, pointsColumn, xColumn);
      && Valid(r)
      && |r.rows| == |t.rows|
      && SortedBy(r.rows, NormalizedColumn)
      && multiset(r.rows) == multiset(ScoredRows(t, gameOdds, pointsColumn, xColumn))
  {
    var u := WithPoints(t, gameOdds, pointsColumn);
    var w := WithExpected(u, pointsColumn, xColumn);
    var rows := ScoredRows(t, gameOdds, pointsColumn, xColumn);
    forall i | 0 <= i < |t.rows| ensures w.rows[i] == rows[i] {
      PointsAndExpectedRow(t, gameOdds, pointsColumn, xColumn, i);
    }
    assert w.rows == rows;
  }

  /** Scoring leaves the ranking key of a row alone, so drivers are ranked
      by their normalised probability, not by expected points. */
  lemma ScoringKeepsKey(row: Row, gameOdds: map<string, real>, pointsColumn: string, xColumn: string)
    requires DriverColumn in row && NormalizedColumn in row
    requires pointsColumn != NormalizedColumn && xColumn != NormalizedColumn
    ensures Key(ScoredRow(row, gameOdds, pointsColumn, xColumn), NormalizedColumn) == Key(row, NormalizedColumn)
  {
  }

  /** The expected-points test case: 60% of 10 points is 6 and 40% of 12
      points is 4.8; a driver missing from the map gets nothing. */
  lemma ExpectedPointsExample()
    ensures var odds := map["Max Verstappen" := 10.0, "Lewis Hamilton" := 12.0, "Charles Leclerc" := 14.0];
      && ExpectedPoints(Num(60.0), GamePoints(Str("Max Verstappen"), odds)) == Num(6.0)
      && ExpectedPoints(Num(40.0), GamePoints(Str("Lewis Hamilton"), odds)) == Num(4.8)
      && ExpectedPoints(Num(40.0), GamePoints(Str("Oscar Piastri"), odds)) == NaN
  {
  }
}
