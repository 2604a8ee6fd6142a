/** `F1OddsProcessor`: the table loaded for one race and category, the
    fantasy-points map, and the pipeline stages that extend the table in
    place, each refusing to run before its inputs exist. */
module Processor {
  import opened Common
  import opened Text
  import opened Odds
  import opened Frame
  import opened Pipeline
  import opened Ranking

  const XPtsColumn := "xPts"
  const DefaultPointsColumn := "game_points"
  const DefaultTopCount := 5

  /** The odds file of a race and category, relative to the season
      directory. */
  function OddsFilePath(race: string, category: string): (path: string)
    ensures |path| == |race| + |category| + 10
    ensures path[..|race| + 1] == race + "/"
    ensures EndsWith(path, "/" + category + "_odds.csv")
  {
    var p := race + "/" + category + "_odds.csv";
    assert p[..|race| + 1] == race + "/";
    assert p[|race|..] == "/" + category + "_odds.csv";
    p
  }

  /** When `p` starts with the slash-free `b` and has a slash at position
      |a|, then `b` ends at or before that slash. */
  lemma SlashFreePrefix(a: string, b: string, p: string)
    requires '/' !in b
    requires |a| < |p| && p[|a|] == '/'
    requires |b| < |p| && p[..|b|] == b
    ensures |b| <= |a|
  {
  }

  /** For a race directory without a slash, the path determines the race
      and the category: no two categories share a file. */
  lemma OddsFilePathInjective(r1: string, c1: string, r2: string, c2: string)
    requires '/' !in r1 && '/' !in r2
    requires OddsFilePath(r1, c1) == OddsFilePath(r2, c2)
    ensures r1 == r2 && c1 == c2
  {
    var p := OddsFilePath(r1, c1);
    SlashFreePrefix(r1, r2, p);
    SlashFreePrefix(r2, r1, p);
    assert r1 == p[..|r1|] == r2;
    assert |c1| == |c2|;
    var k := |c1| + 10;
    assert p[|p| - k..] == "/" + c1 + "_odds.csv" && p[|p| - k..] == "/" + c2 + "_odds.csv";
    assert c1 == ("/" + c1 + "_odds.csv")[1..|c1| + 1];
  }

  // ---------------------------------------------------------------------
  // Queries

  /** The per-driver report of `get_driver_analysis`. */
  datatype Analysis = Analysis(
    driver: string,
    normalizedProbability: Cell,
    expectedPoints: Option<Cell>,
    gamePoints: Option<real>,
    providerProbabilities: map<string, Cell>)

  /** The first row whose driver is exactly `name`. */
  function FirstRowOf(rows: seq<Row>, name: string): (k: Option<nat>)
    requires forall i :: 0 <= i < |rows| ==> DriverColumn in rows[i]
    ensures k.Some? ==> k.value < |rows| && rows[k.value][DriverColumn] == Str(name)
    ensures k.Some? ==> forall j :: 0 <= j < k.value ==> rows[j][DriverColumn] != Str(name)
    ensures k.None? ==> forall j :: 0 <= j < |rows| ==> rows[j][DriverColumn] != Str(name)
  {
    if rows == [] then None
    else if rows[0][DriverColumn] == Str(name) then Some(0)
    else match FirstRowOf(rows[1..], name)
      case None => None
      case Some(k) => Some(k + 1)
  }

  /** A probability column of a single provider: the label ends in
      `_probability` and is not the normalised column. */
  predicate IsProviderProbability(c: string)
  {
    EndsWith(c, ProbabilitySuffix) && c != NormalizedColumn
  }

  /** The provider label of a probability column: its label with every
      `_probability` removed. */
  function ProviderKey(c: string): string
  {
    RemoveAll(c, ProbabilitySuffix)
  }

  /** The label `<provider>_probability` derived for a provider gives that
      provider back, unless the provider's own name already contains
      `_probability`. */
  lemma ProviderKeyOfLabel(provider: string)
    requires !OccursIn(ProbabilitySuffix, provider)
    ensures ProviderKey(provider + ProbabilitySuffix) == provider
  {
    var pat := ProbabilitySuffix;
    assert pat[0] == '_';
    assert forall k :: 0 < k < |pat| ==> pat[k] != pat[0];
    RemoveAllSuffix(provider, pat);
  }

  lemma ProviderKeyExample()
    ensures ProviderKey("Bookmaker1_probability") == "Bookmaker1"
  {
    var p := "Bookmaker1";
    forall i ensures !OccursAt(ProbabilitySuffix, p, i) {
    }
    ProviderKeyOfLabel(p);
    assert p + ProbabilitySuffix == "Bookmaker1_probability";
  }

  /** The provider probabilities of `row` keyed by provider label, taken
      over `cols` left to right, so that of two columns with the same
      provider label the later one is reported. */
  function ProviderProbabilities(row: Row, cols: seq<string>): (m: map<string, Cell>)
    requires forall c :: c in cols ==> c in row
    ensures forall c :: c in cols && IsProviderProbability(c) ==> ProviderKey(c) in m
    ensures forall key :: key in m ==> exists c :: c in cols && IsProviderProbability(c) && ProviderKey(c) == key
    decreases |cols|
  {
    if cols == [] then map[]
    else
      var init := cols[..|cols| - 1];
      var c := cols[|cols| - 1];
      assert cols == init + [c];
      var m := ProviderProbabilities(row, init);
      if IsProviderProbability(c) then m[ProviderKey(c) := row[c]] else m
  }

  /** Each provider label reports the cell of the last probability column
      that carries it. */
  lemma {:induction false} LastColumnReported(row: Row, cols: seq<string>, j: nat)
    requires forall c :: c in cols ==> c in row
    requires j < |cols| && IsProviderProbability(cols[j])
    requires forall l :: j < l < |cols| && IsProviderProbability(cols[l]) ==> ProviderKey(cols[l]) != ProviderKey(cols[j])
    ensures ProviderProbabilities(row, cols)[ProviderKey(cols[j])] == row[cols[j]]
    decreases |cols|
  {
    var init := cols[..|cols| - 1];
    var c := cols[|cols| - 1];
    assert cols == init + [c];
    if j < |cols| - 1 {
      assert init[j] == cols[j];
      LastColumnReported(row, init, j);
    }
  }

  /** No row of `t` carries the driver name `name`. */
  predicate NoRowNames(t: Table, name: string)
    requires Valid(t) && DriverColumn in t.columns
  {
    forall i :: 0 <= i < |t.rows| ==> t.rows[i][DriverColumn] != Str(name)
  }

  /** The analysis of `name` in table `t`: the `Driver` column must exist,
      some row must name the driver, and the normalised column must exist. */
  function Analyze(t: Table, gameOdds: map<string, real>, name: string): (r: Result<Analysis>)
    requires Valid(t)
    ensures DriverColumn !in t.columns ==> r == Failure(MissingColumn(DriverColumn))
    ensures DriverColumn in t.columns && NoRowNames(t, name) ==> r == Failure(DriverNotFound(name))
    ensures r.Success? <==> DriverColumn in t.columns && NormalizedColumn in t.columns && !NoRowNames(t, name)
    ensures r.Success? ==> r.value.driver == name
    ensures r.Success? ==> r.value.gamePoints == if name in gameOdds then Some(gameOdds[name]) else None
    ensures r.Success? ==> (r.value.expectedPoints.Some? <==> XPtsColumn in t.columns)
  {
    if DriverColumn !in t.columns then Failure(MissingColumn(DriverColumn))
    else match FirstRowOf(t.rows, name)
      case None => Failure(DriverNotFound(name))
      case Some(k) =>
        if NormalizedColumn !in t.columns then Failure(MissingColumn(NormalizedColumn))
        else
          var row := t.rows[k];
          Success(Analysis(
            name,
            row[NormalizedColumn],
            if XPtsColumn in t.columns then Some(row[XPtsColumn]) else None,
            if name in gameOdds then Some(gameOdds[name]) else None,
            ProviderProbabilities(row, t.columns)))
  }

  /** The analysis reports the first row carrying the driver's name. */
  lemma AnalysisReportsFirstMatch(t: Table, gameOdds: map<string, real>, name: string, k: nat)
    requires Valid(t) && DriverColumn in t.columns && NormalizedColumn in t.columns && k < |t.rows|
    requires t.rows[k][DriverColumn] == Str(name)
    requires forall j :: 0 <= j < k ==> t.rows[j][DriverColumn] != Str(name)
    ensures var r := Analyze(t, gameOdds, name);
      && r.Success?
      && r.value.normalizedProbability == t.rows[k][NormalizedColumn]
      && (XPtsColumn in t.columns ==> r.value.expectedPoints == Some(t.rows[k][XPtsColumn]))
      && r.value.providerProbabilities == ProviderProbabilities(t.rows[k], t.columns)
  {
    assert FirstRowOf(t.rows, name) == Some(k);
  }

  /** The first `n` rows, pandas `head`: a negative `n` drops the last `-n`
      rows instead. */
  function Head(rows: seq<Row>, n: int): (r: seq<Row>)
    ensures n >= 0 ==> |r| == if n <= |rows| then n else |rows|
    ensures n < 0 ==> |r| == if -n <= |rows| then |rows| + n else 0
    ensures |r| <= |rows| && r == rows[..|r|]
  {
    if n >= 0 then (if n <= |rows| then rows[..n] else rows)
    else if -n <= |rows| then rows[..|rows| + n]
    else []
  }

  const TopColumns := [DriverColumn, NormalizedColumn, XPtsColumn]

  /** `get_top_drivers` on a loaded table: the leading rows, narrowed to
      driver, normalised probability and expected points; every one of
      the three columns must exist. */
  function TopDrivers(t: Table, n: int): (r: Result<Table>)
    requires Valid(t)
    ensures r.Success? <==> forall c :: c in TopColumns ==> c in t.columns
    ensures r.Failure? ==> r.error.MissingColumn? && r.error.name in TopColumns && r.error.name !in t.columns
    ensures r.Success? ==> Valid(r.value) && r.value.columns == TopColumns && |r.value.rows| == |Head(t.rows, n)|
    ensures r.Success? ==> forall i, c :: 0 <= i < |r.value.rows| && c in TopColumns ==> r.value.rows[i][c] == t.rows[i][c]
  {
    if DriverColumn !in t.columns then Failure(MissingColumn(DriverColumn))
    else if NormalizedColumn !in t.columns then Failure(MissingColumn(NormalizedColumn))
    else if XPtsColumn !in t.columns then Failure(MissingColumn(XPtsColumn))
    else
      var head := Table(t.columns, Head(t.rows, n));
      Success(Project(head, TopColumns))
  }

  /** On a ranked table the top drivers are the leaders: each reported row
      may precede every row left out. */
  lemma TopDriversLead(t: Table, n: int, i: nat, j: nat)
    requires Valid(t) && SortedBy(t.rows, NormalizedColumn) && TopDrivers(t, n).Success?
    requires i < |TopDrivers(t, n).value.rows| <= j < |t.rows|
    ensures Before(Key(TopDrivers(t, n).value.rows[i], NormalizedColumn), Key(t.rows[j], NormalizedColumn))
  {
    var top := TopDrivers(t, n).value;
    assert top.rows[i][NormalizedColumn] == t.rows[i][NormalizedColumn];
    assert NormalizedColumn in top.rows[i] && NormalizedColumn in t.rows[i];
  }

  /** The fixture of the analysis and top-drivers test cases. */
  function FixtureRow(driver: string, normalized: real, xpts: real): Row
  {
    map[DriverColumn := Str(driver), NormalizedColumn := Num(normalized), XPtsColumn := Num(xpts)]
  }

  lemma FixtureValid(rows: seq<Row>)
    requires forall i :: 0 <= i < |rows| ==> rows[i].Keys == {DriverColumn, NormalizedColumn, XPtsColumn}
    ensures Valid(Table(TopColumns, rows))
  {
    assert ColumnSet(TopColumns) == {DriverColumn, NormalizedColumn, XPtsColumn};
  }

  /** The analysis test case: the first driver's report carries their
      normalised probability, expected points and looked-up points. */
  lemma AnalysisExample()
    ensures var t := Table(TopColumns, [FixtureRow("Max Verstappen", 60.0, 6.0), FixtureRow("Lewis Hamilton", 40.0, 4.0)]);
      Valid(t) &&
      var r := Analyze(t, map["Max Verstappen" := 10.0, "Lewis Hamilton" := 12.0], "Max Verstappen");
      r.Success? && r.value.driver == "Max Verstappen" && r.value.normalizedProbability == Num(60.0)
      && r.value.expectedPoints == Some(Num(6.0)) && r.value.gamePoints == Some(10.0)
  {
    var t := Table(TopColumns, [FixtureRow("Max Verstappen", 60.0, 6.0), FixtureRow("Lewis Hamilton", 40.0, 4.0)]);
    FixtureValid(t.rows);
    AnalysisReportsFirstMatch(t, map["Max Verstappen" := 10.0, "Lewis Hamilton" := 12.0], "Max Verstappen", 0);
  }

  /** The top-drivers test case: two of three rows, the leader first. */
  lemma TopDriversExample()
    ensures var t := Table(TopColumns, [FixtureRow("Max Verstappen", 50.0, 5.0), FixtureRow("Lewis Hamilton", 30.0, 3.0),
                                        FixtureRow("Charles Leclerc", 20.0, 2.0)]);
      Valid(t) && TopDrivers(t, 2).Success? && |TopDrivers(t, 2).value.rows| == 2
      && TopDrivers(t, 2).value.rows[0][DriverColumn] == Str("Max Verstappen")
  {
    var t := Table(TopColumns, [FixtureRow("Max Verstappen", 50.0, 5.0), FixtureRow("Lewis Hamilton", 30.0, 3.0),
                                FixtureRow("Charles Leclerc", 20.0, 2.0)]);
    FixtureValid(t.rows);
  }

  // ---------------------------------------------------------------------
  // The processor object

  class F1OddsProcessor {
    /** The loaded table, absent until odds are processed. */
    var df: Option<Table>
    /** Fantasy points per driver name. */
    var gameOdds: map<string, real>

    ghost predicate Consistent()
      reads this
    {
      df.Some? ==> Valid(df.value)
    }

    /** A processor with no table and no points. */
    constructor()
      ensures df == None && gameOdds == map[]
      ensures Consistent()
    {
      df := None;
      gameOdds := map[];
    }

    method SetGameOdds(odds: map<string, real>)
      modifies this
      ensures gameOdds == odds && df == old(df)
    {
      gameOdds := odds;
    }

    /** Loads the odds file of `race` and `category` from `files` and adds
        one probability column per provider column. */
    method ProcessBettingOdds(files: map<string, Table>, race: string, category: string) returns (res: Result<Table>)
      requires Consistent()
      requires forall path :: path in files ==> Valid(files[path])
      modifies this
      ensures Consistent() && gameOdds == old(gameOdds)
      ensures OddsFilePath(race, category) !in files ==>
                res == Failure(FileNotFound(OddsFilePath(race, category))) && df == old(df)
      ensures OddsFilePath(race, category) in files ==>
                df == Some(DeriveProbabilityColumns(files[OddsFilePath(race, category)])) && res == Success(df.value)
    {
      var path := OddsFilePath(race, category);
      if path !in files {
        return Failure(FileNotFound(path));
      }
      var t := files[path];
      df := Some(t);
      AddProbabilityColumns(ProviderColumns(t.columns));
      return Success(df.value);
    }

    /** The provider loop: one probability column per provider column, in
        order. */
    method AddProbabilityColumns(providers: seq<string>)
      requires Consistent() && df.Some?
      requires forall p :: p in providers ==> p in df.value.columns
      modifies this
      ensures df == Some(ConvertInto(old(df).value, providers, ProbabilityNames(providers)))
      ensures Consistent() && gameOdds == old(gameOdds)
    {
      var names := ProbabilityNames(providers);
      var i := 0;
      while i < |providers|
        invariant 0 <= i <= |providers|
        invariant df.Some? && Valid(df.value)
        invariant forall p :: p in providers ==> p in df.value.columns
        invariant ConvertInto(df.value, providers[i..], names[i..]) == ConvertInto(old(df).value, providers, names)
        invariant gameOdds == old(gameOdds)
      {
        ProbabilityStep(df.value, providers, i);
        AddProbabilityColumn(providers[i]);
        i := i + 1;
      }
      assert providers[i..] == [] && names[i..] == [];
    }

    /** One turn of the provider loop: the column `provider + '_probability'`
        receives the conversion of the provider's column. */
    method AddProbabilityColumn(provider: string)
      requires Consistent() && df.Some? && provider in df.value.columns
      modifies this
      ensures df == Some(SetColumn(old(df).value, provider + ProbabilitySuffix, ConvertedColumn(old(df).value, provider)))
      ensures gameOdds == old(gameOdds)
    {
      var cur := df.value;
      df := Some(SetColumn(cur, provider + ProbabilitySuffix, ConvertedColumn(cur, provider)));
    }

    method CalculateAverageProbabilities() returns (res: Result<Table>)
      requires Consistent()
      modifies this
      ensures Consistent() && gameOdds == old(gameOdds)
      ensures old(df).None? ==> res == Failure(NoData) && df == old(df)
      ensures old(df).Some? ==> df == Some(WithAverage(old(df).value)) && res == Success(df.value)
    {
      if df.None? {
        return Failure(NoData);
      }
      df := Some(WithAverage(df.value));
      return Success(df.value);
    }

    /** Normalises the averages, computing them first when the average
        column is absent. */
    method NormalizeProbabilities() returns (res: Result<Table>)
      requires Consistent()
      modifies this
      ensures Consistent() && gameOdds == old(gameOdds)
      ensures old(df).None? ==> res == Failure(NoData) && df == old(df)
      ensures old(df).Some? ==>
                var t := old(df).value;
                var a := if AverageColumn in t.columns then t else WithAverage(t);
                AverageColumn in a.columns && df == Some(WithNormalized(a)) && res == Success(df.value)
    {
      if df.None? {
        return Failure(NoData);
      }
      if AverageColumn !in df.value.columns {
        var _ := CalculateAverageProbabilities();
      }
      df := Some(WithNormalized(df.value));
      return Success(df.value);
    }

    /** Looks up each driver's points into `pointsColumn`, derives expected
        points and ranks the table. The points column is written before
        the normalised column is read, so a table without that column keeps
        the new points column. */
    method CalculateExpectedPoints(pointsColumn: string := DefaultPointsColumn) returns (res: Result<Table>)
      requires Consistent()
      modifies this
      ensures Consistent() && gameOdds == old(gameOdds)
      ensures old(df).None? ==> res == Failure(NoData) && df == old(df)
      ensures old(df).Some? && gameOdds == map[] ==> res == Failure(GameOddsNotSet) && df == old(df)
      ensures old(df).Some? && gameOdds != map[] && DriverColumn !in old(df).value.columns ==>
                res == Failure(MissingColumn(DriverColumn)) && df == old(df)
      ensures old(df).Some? && gameOdds != map[] && DriverColumn in old(df).value.columns ==>
                var u := WithPoints(old(df).value, gameOdds, pointsColumn);
                if NormalizedColumn in u.columns then
                  df == Some(Ranked(WithExpected(u, pointsColumn, XPtsColumn), NormalizedColumn)) && res == Success(df.value)
                else
                  df == Some(u) && res == Failure(MissingColumn(NormalizedColumn))
    {
      if df.None? {
        return Failure(NoData);
      }
      if gameOdds == map[] {
        return Failure(GameOddsNotSet);
      }
      if DriverColumn !in df.value.columns {
        return Failure(MissingColumn(DriverColumn));
      }
      df := Some(WithPoints(df.value, gameOdds, pointsColumn));
      if NormalizedColumn !in df.value.columns {
        return Failure(MissingColumn(NormalizedColumn));
      }
      df := Some(WithExpected(df.value, pointsColumn, XPtsColumn));
      df := Some(Ranked(df.value, NormalizedColumn));
      return Success(df.value);
    }

    method GetDriverAnalysis(name: string) returns (res: Result<Analysis>)
      requires Consistent()
      ensures df.None? ==> res == Failure(NoData)
      ensures df.Some? ==> res == Analyze(df.value, gameOdds, name)
    {
      if df.None? {
        return Failure(NoData);
      }
      return Analyze(df.value, gameOdds, name);
    }

    method GetTopDrivers(n: int := DefaultTopCount) returns (res: Result<Table>)
      requires Consistent()
      ensures df.None? ==> res == Failure(NoData)
      ensures df.Some? ==> res == TopDrivers(df.value, n)
    {
      if df.None? {
        return Failure(NoData);
      }
      return TopDrivers(df.value, n);
    }
  }
}
