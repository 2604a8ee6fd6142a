/** The `quali_bets` script: the same pipeline as free functions over a
    table read from a named CSV file, then two scripted runs, one for
    qualifying and one for the podium, each with its own points map. */
module Quali {
  import opened Common
  import opened Odds
  import opened Frame
  import opened Pipeline
  import opened Ranking

  /** Fantasy points per driver for the qualifying run. */
  const QualiGameOdds: map<string, real> := map[
    "Lando Norris" := 10.0, "Charles Leclerc" := 12.0, "Oscar Piastri" := 14.0,
    "Max Verstappen" := 12.0, "George Russell" := 16.0, "Lewis Hamilton" := 14.0,
    "Carlos Sainz" := 28.0, "Kimi Antonelli" := 18.0, "Alex Albon" := 32.0,
    "Yuki Tsunoda" := 40.0, "Isack Hadjar" := 60.0, "Fernando Alonso" := 43.0,
    "Pierre Gasly" := 40.0, "Liam Lawson" := 20.0, "Nico Hulkenberg" := 60.0,
    "Lance Stroll" := 46.0, "Gabriel Bortoleto" := 60.0, "Jack Doohan" := 56.0,
    "Esteban Ocon" := 56.0, "Oliver Bearman" := 45.0]

  /** Fantasy points per driver for the podium run (the same figures). */
  const PodiumGameOdds: map<string, real> := map[
    "Lando Norris" := 10.0, "Charles Leclerc" := 12.0, "Oscar Piastri" := 14.0,
    "Max Verstappen" := 12.0, "George Russell" := 16.0, "Lewis Hamilton" := 14.0,
    "Carlos Sainz" := 28.0, "Kimi Antonelli" := 18.0, "Alex Albon" := 32.0,
    "Yuki Tsunoda" := 40.0, "Isack Hadjar" := 60.0, "Fernando Alonso" := 43.0,
    "Pierre Gasly" := 40.0, "Liam Lawson" := 20.0, "Nico Hulkenberg" := 60.0,
    "Lance Stroll" := 46.0, "Gabriel Bortoleto" := 60.0, "Jack Doohan" := 56.0,
    "Esteban Ocon" := 56.0, "Oliver Bearman" := 45.0]

  const QualiCsv := "quali_driver_odds.csv"
  const QualiPointsColumn := "quali_game_points"
  const QualiXPtsColumn := "quali xPts"
  const PodiumCsv := "podium_odds.csv"
  const PodiumPointsColumn := "game_points"
  const PodiumXPtsColumn := "xPts"

  /** Reads `csvFile` from `files` and adds one probability column per
      provider column; a missing file is an error. */
  method ProcessBettingOdds(files: map<string, Table>, csvFile: string) returns (res: Result<Table>)
    requires forall path :: path in files ==> Valid(files[path])
    ensures csvFile !in files ==> res == Failure(FileNotFound(csvFile))
    ensures csvFile in files ==> res == Success(DeriveProbabilityColumns(files[csvFile]))
  {
    if csvFile !in files {
      return Failure(FileNotFound(csvFile));
    }
    var t := files[csvFile];
    var df := t;
    var providers := ProviderColumns(t.columns);
    var names := ProbabilityNames(providers);
    for i := 0 to |providers|
      invariant Valid(df)
      invariant forall p :: p in providers ==> p in df.columns
      invariant ConvertInto(df, providers[i..], names[i..]) == DeriveProbabilityColumns(t)
    {
      ProbabilityStep(df, providers, i);
      df := SetColumn(df, providers[i] + ProbabilitySuffix, ConvertedColumn(df, providers[i]));
    }
    return Success(df);
  }

  /** Normalisation without a guard: the average column must already
      exist, otherwise the lookup fails. */
  function NormalizeProbabilities(t: Table): (r: Result<Table>)
    requires Valid(t)
    ensures r.Failure? <==> AverageColumn !in t.columns
    ensures r.Failure? ==> r.error == MissingColumn(AverageColumn)
    ensures r.Success? ==> NormalizedColumn in r.value.columns && Valid(r.value)
  {
    if AverageColumn !in t.columns then Failure(MissingColumn(AverageColumn))
    else Success(WithNormalized(t))
  }

  /** One scripted run: process, average, normalise, then points, expected
      points and the ranking. */
  function CategoryResult(files: map<string, Table>, csvFile: string, gameOdds: map<string, real>,
                          pointsColumn: string, xColumn: string): (r: Result<Table>)
    requires forall path :: path in files ==> Valid(files[path])
    ensures csvFile !in files ==> r == Failure(FileNotFound(csvFile))
    ensures csvFile in files && DriverColumn !in files[csvFile].columns ==> r == Failure(MissingColumn(DriverColumn))
    ensures r.Success? <==> csvFile in files && DriverColumn in files[csvFile].columns
  {
    if csvFile !in files then Failure(FileNotFound(csvFile))
    else
      var t := files[csvFile];
      var a := WithAverage(DeriveProbabilityColumns(t));
      DriverColumnKept(t);
      match NormalizeProbabilities(a)
      case Failure(e) => Failure(e)
      case Success(n) =>
        if DriverColumn !in n.columns then Failure(MissingColumn(DriverColumn))
        else Success(Scored(n, gameOdds, pointsColumn, xColumn))
  }

  /** The step-by-step run, rebinding the table after each stage. */
  method RunCategory(files: map<string, Table>, csvFile: string, gameOdds: map<string, real>,
                     pointsColumn: string, xColumn: string) returns (res: Result<Table>)
    requires forall path :: path in files ==> Valid(files[path])
    ensures res == CategoryResult(files, csvFile, gameOdds, pointsColumn, xColumn)
  {
    var processed := ProcessBettingOdds(files, csvFile);
    if processed.Failure? {
      return processed;
    }
    var df := processed.value;
    df := WithAverage(df);
    var normalized := NormalizeProbabilities(df);
    if normalized.Failure? {
      return normalized;
    }
    df := normalized.value;
    if DriverColumn !in df.columns {
      return Failure(MissingColumn(DriverColumn));
    }
    df := WithPoints(df, gameOdds, pointsColumn);
    df := WithExpected(df, pointsColumn, xColumn);
    df := Ranked(df, NormalizedColumn);
    return Success(df);
  }

  /** The whole script: the qualifying run, then, if it got through, the
      podium run. */
  method RunScript(files: map<string, Table>) returns (quali: Result<Table>, podium: Option<Result<Table>>)
    requires forall path :: path in files ==> Valid(files[path])
    ensures quali == CategoryResult(files, QualiCsv, QualiGameOdds, QualiPointsColumn, QualiXPtsColumn)
    ensures quali.Failure? ==> podium == None
    ensures quali.Success? ==> podium == Some(CategoryResult(files, PodiumCsv, PodiumGameOdds, PodiumPointsColumn, PodiumXPtsColumn))
  {
    quali := RunCategory(files, QualiCsv, QualiGameOdds, QualiPointsColumn, QualiXPtsColumn);
    if quali.Failure? {
      return quali, None;
    }
    var p := RunCategory(files, PodiumCsv, PodiumGameOdds, PodiumPointsColumn, PodiumXPtsColumn);
    return quali, Some(p);
  }

  /** A successful run ends with every driver of the odds file, each row
      carrying its points and expected points, ordered by normalised
      probability from highest to lowest with undefined values last. */
  lemma CategoryResultRanked(files: map<string, Table>, csvFile: string, gameOdds: map<string, real>,
                             pointsColumn: string, xColumn: string)
    requires forall path :: path in files ==> Valid(files[path])
    requires pointsColumn != NormalizedColumn
    requires CategoryResult(files, csvFile, gameOdds, pointsColumn, xColumn).Success?
    ensures var r := CategoryResult(files, csvFile, gameOdds, pointsColumn, xColumn).value;
      var n := WithNormalized(WithAverage(DeriveProbabilityColumns(files[csvFile])));
      && |r.rows| == |files[csvFile].rows|
      && SortedBy(r.rows, NormalizedColumn)
      && multiset(r.rows) == multiset(ScoredRows(n, gameOdds, pointsColumn, xColumn))
  {
    var t := files[csvFile];
    var n := WithNormalized(WithAverage(DeriveProbabilityColumns(t)));
    DriverColumnKept(t);
    ScoredIsRankedPermutation(n, gameOdds, pointsColumn, xColumn);
  }
}
