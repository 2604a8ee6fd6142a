/** The in-memory table (a pandas DataFrame) the pipeline threads through its
    stages. */
module Frame {
  import opened Odds

  /** One row: a cell per column label. */
  type Row = map<string, Cell>

  /** Ordered column labels and the rows in index order. */
  datatype Table = Table(columns: seq<string>, rows: seq<Row>)

  predicate Distinct<T(==)>(s: seq<T>) {
    forall i, j :: 0 <= i < j < |s| ==> s[i] != s[j]
  }

  function ColumnSet(columns: seq<string>): set<string> {
    set c | c in columns
  }

  /** Column labels are unique and every row has exactly the table's columns. */
  ghost predicate Valid(t: Table) {
    Distinct(t.columns) && forall i :: 0 <= i < |t.rows| ==> t.rows[i].Keys == ColumnSet(t.columns)
  }

  /** `pd.DataFrame()`: no columns, no rows. */
  const EmptyTable := Table([], [])

  /** `df[c]`: the cells of column `c`, top to bottom. */
  function Column(t: Table, c: string): (col: seq<Cell>)
    requires Valid(t) && c in t.columns
    ensures |col| == |t.rows|
    ensures forall i :: 0 <= i < |col| ==> col[i] == t.rows[i][c]
  {
    seq(|t.rows|, i requires 0 <= i < |t.rows| => t.rows[i][c])
  }

  /** `df[name] = values`: an existing column is overwritten where it stands,
      a new one is appended on the right; no other cell changes. */
  function SetColumn(t: Table, name: string, values: seq<Cell>): (r: Table)
    requires Valid(t) && |values| == |t.rows|
    ensures Valid(r) && |r.rows| == |t.rows|
    ensures r.columns == if name in t.columns then t.columns else t.columns + [name]
    ensures forall i :: 0 <= i < |r.rows| ==> r.rows[i] == t.rows[i][name := values[i]]
  {
    Table(if name in t.columns then t.columns else t.columns + [name],
          seq(|t.rows|, i requires 0 <= i < |t.rows| => t.rows[i][name := values[i]]))
  }

  /** Selection of the columns `cols`, in that order, from every row. */
  function Project(t: Table, cols: seq<string>): (r: Table)
    requires Valid(t) && Distinct(cols) && forall c :: c in cols ==> c in t.columns
    ensures Valid(r) && r.columns == cols && |r.rows| == |t.rows|
    ensures forall i, c :: 0 <= i < |r.rows| && c in cols ==> r.rows[i][c] == t.rows[i][c]
  {
    Table(cols, seq(|t.rows|, i requires 0 <= i < |t.rows| => map c | c in ColumnSet(cols) :: t.rows[i][c]))
  }
}
