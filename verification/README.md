# Formula 1 odds pipeline, modelled in Dafny

This project models the odds pipeline of a small Python tool. The tool
scrapes Formula 1 betting odds from an odds-comparison site and stores them
as one table per race and category. It turns each bookmaker's quotation into
an implied probability, averages across bookmakers and normalises the
averages to percentages. It then weights the percentages by the fantasy-game
points of each driver and ranks the drivers.

The model has three parts:

- **`F1OddsProcessor`** (`f1_odds_processor.py`) is a class with a mutable
  table `df` and a game-odds map. Each pipeline step is a method that
  rebinds `df`. The method's contract ties the new table to a pure
  specification function, and lemmas prove what the source promises about
  those functions.
- **The quali script** (`quali_bets.py`) is modelled as value-passing
  functions and methods. They share the specification functions with the
  processor. The script's two runs (qualifying, then podium) are one method.
- **`F1OddsScraper`** (`f1_odds_scraper.py`) covers three things: the odds URL,
  the rule that turns page rows into records (`extract_odds_data`, as
  nested loops over abstract rows) and the browser lifecycle (`setup_driver`,
  `close_driver`, `scrape_odds`, the context manager). The lifecycle is a
  class whose state includes a log of launches, visits and quits.

Modules:

- `Common`: `Option`, `Result` and the raised errors.
- `Text`: `str.strip`, `endswith`, `replace` and `float()` on strings.
- `Odds`: a pandas cell and the odds-to-probability conversion.
- `Frame`: a table as distinct column labels plus rows keyed by exactly those
  labels. `df[c] = ...` overwrites a column in place or appends it.
- `Pipeline`: the probability columns, the average, the normalisation, the
  points and the expected points.
- `Ranking`: the descending sort by normalised probability.
- `Processor`: the processor class, its report and its top-N view.
- `Quali`: the script.
- `Scraper`: the scraper.

Where the code's own comments and the code differ, the model follows the
code:

- The docstring of `calculate_average_probabilities`
  (`f1_odds_processor.py:121`) and the comment at `quali_bets.py:44` speak
  of an average "across all providers". The code averages every column whose
  label ends in `_probability`. So once `average_probability` or
  `normalized_probability` exist, they are averaged in as well
  (`Pipeline.DerivedColumnsAreAveraged`,
  `Pipeline.AverageTakesInNormalizedColumn`).
- The ranking is a plain descending sort with undefined values last. The
  order of ties is not specified, so no stable order is claimed.
- The processor and the script update the table in place rather than
  returning fresh tables.
- `calculate_expected_points` writes the points column before it reads
  `normalized_probability`. On a table without that column, the points
  column stays and the call fails.

## Model

| member | source | states |
|---|---|---|
| Odds.OddsToProbability | f1_odds_processor.py:53-72 | defined exactly when the quotation is a positive decimal (not NaN, not "N/A", accepted by `float`); the result is strictly between 0 and 1 |
| Odds.FairProbability | f1_odds_processor.py:68-70 | a quotation gives a probability exactly when it is a positive decimal, and the probability is strictly between 0 and 1 |
| Odds.FairPrice | f1_odds_processor.py:68-70 | a defined probability p of a quotation d satisfies p·(d+1) = 1 |
| Odds.ImpliedOdds | f1_odds_processor.py:68-70 | the fair decimal odds of a probability in (0,1) are positive |
| Odds.OddsRoundTrip | f1_odds_processor.py:68-70 | converting positive odds d and turning the probability back into fair odds gives d again |
| Odds.ProbabilityRoundTrip | f1_odds_processor.py:68-70 | every probability in (0,1) is the conversion of its implied odds |
| Odds.ConversionIsDecreasing | f1_odds_processor.py:70 | longer odds give a strictly smaller probability |
| Odds.ConversionExamples | tests/test_f1_odds_processor.py:36-41 | evens gives 0.5; -1, "N/A" and NaN give nothing |
| Odds.FractionalQuotationUndefined | f1_odds_processor.py:64-72 | a quotation containing '/' (fractional odds such as "5/1") makes `float` raise, so it converts to nothing |
| Odds.DecimalQuotationAgrees | f1_odds_processor.py:67-70 | a decimal quotation `w.f` stored as text converts like the number `float` reads from it |
| Odds.ScrapedPriceConverts | f1_odds_processor.py:64-70 | the scraped price "2.5" converts to the probability 1/3.5 |
| Odds.TextQuotationAgrees | f1_odds_processor.py:67 | an integer quotation stored as text converts like the same number |
| Odds.FromNumber | f1_odds_processor.py:66 | a missing number is stored as NaN and a present one as itself |
| Text.StripLeft | f1_odds_scraper.py:87 | the result is a suffix of the input that does not start with white space, and everything cut off is white space |
| Text.StripRight | f1_odds_scraper.py:87 | the result is a prefix of the input that does not end with white space, and everything cut off is white space |
| Text.Strip | f1_odds_scraper.py:87 | the stripped text is an infix of the input that neither starts nor ends with white space, over every character `str.isspace` accepts; only white space was cut off |
| Text.GraphicNotSpace | f1_odds_scraper.py:87 | no printable ASCII character other than the space is white space |
| Text.CodeInBetween | f1_odds_scraper.py:87 | a code found in a list lies within any bounds the whole list lies within |
| Text.StripTrimmed | f1_odds_scraper.py:97 | text without surrounding white space is its own strip |
| Text.ParseFloatSign | f1_odds_processor.py:67 | blank text does not parse; a value read after a leading minus is ≤ 0, and any other parsed value is ≥ 0 |
| Text.ParsedLiteralChars | f1_odds_processor.py:67 | the stripped text of an accepted string is made of digits, dots and signs |
| Text.StripCovers | f1_odds_scraper.py:87 | every character of a string is white space or lies, unchanged, inside its strip |
| Text.ParseFloatChars | f1_odds_processor.py:67 | every string `float` accepts is made of digits, a dot, a sign and white space |
| Text.FractionValue | f1_odds_processor.py:67 | the digits after a decimal point denote a value in [0, 1) |
| Text.FractionValueScaled | f1_odds_processor.py:67 | the digits `f` after a decimal point, scaled by 10 to the length of `f`, are the number the digits denote |
| Text.DigitsValueConcat | f1_odds_processor.py:67 | the value of digits `w + f` is `w` shifted left by as many decimal places as `f` has digits, plus the value of `f` |
| Text.ScaleLinear | f1_odds_processor.py:67 | scaling by a power of ten distributes over a sum and commutes with a factor of ten |
| Text.ShiftAsReal | f1_odds_processor.py:67 | shifting a natural number by decimal places agrees with scaling it as a real |
| Text.IndexOfDot | f1_odds_processor.py:67 | finds the first dot, or reports the length when there is none |
| Text.ParseUnsigned | f1_odds_processor.py:67 | an accepted unsigned literal is non-negative |
| Text.ParseUnsignedDecimal | f1_odds_processor.py:67 | a literal `w.f` is accepted, and its value scaled by 10 to the length of `f` is the number the digits `w + f` denote |
| Text.ParseDecimal | f1_odds_processor.py:67 | `float` of `w.f`, with digits on at least one side of the point, is the value whose scaling by 10 to the length of `f` is the digits `w + f` |
| Text.DecimalValue | f1_odds_processor.py:67 | `float` of `w.f` is the whole number `w` plus the fraction `0.f` |
| Text.ParseDecimalExample | f1_odds_processor.py:67 | `float("2.5")` is 2.5 |
| Text.ParseUnsignedChars | f1_odds_processor.py:67 | an accepted unsigned literal is made of digits and dots |
| Text.FractionalOddsDoNotParse | f1_odds_processor.py:67 | a string containing '/' is refused by `float` |
| Text.DotFreeDigits | f1_odds_processor.py:67 | a digit string has no dot |
| Text.ParseWholeNumber | f1_odds_processor.py:67 | a digit string without a dot is read as the number it denotes |
| Text.NatToString | f1_odds_processor.py:67 | the rendering of a natural number is a non-empty digit string without a leading zero |
| Text.ParseDigits | f1_odds_processor.py:67 | a plain digit string parses to the number it denotes |
| Text.ParseFloatOfNatToString | f1_odds_processor.py:67 | parsing the decimal rendering of a natural number gives the number back |
| Text.DigitsOfNatToString | f1_odds_processor.py:67 | the digits of a natural number's rendering denote that number |
| Text.RemoveAll | f1_odds_processor.py:201 | removing a pattern never lengthens the label |
| Text.RemoveAllSuffix | f1_odds_processor.py:201 | removing a pattern whose first character does not recur in it from `p + pattern` gives `p` back when `p` does not contain the pattern |
| Text.NoOccurrenceAtJoin | f1_odds_processor.py:201 | a label without the pattern, followed by a pattern whose first character does not recur, does not start with the pattern |
| Text.NoOccurrenceInTail | f1_odds_processor.py:201 | a pattern absent from a label is absent from its tail |
| Text.AppendSuffixInjective | f1_odds_processor.py:100 | distinct providers give distinct `_probability` labels |
| Frame.Column | f1_odds_processor.py:150 | a column has one cell per row, each the row's cell at that label |
| Frame.SetColumn | f1_odds_processor.py:100 | assigning a column keeps the table well formed and the row count; an existing label keeps its place, a new one goes last; each row gets exactly its new cell |
| Frame.Project | f1_odds_processor.py:220 | selecting columns keeps the rows and their cells under exactly the chosen labels |
| Pipeline.Filter | f1_odds_processor.py:96 | a label is selected exactly when it is present and passes the test; distinct labels stay distinct |
| Pipeline.ProbabilityNames | f1_odds_processor.py:99-100 | each provider's derived label is the provider followed by `_probability` |
| Pipeline.ConvertedColumn | f1_odds_processor.py:100 | the derived column has one cell per row |
| Pipeline.ConvertCells | f1_odds_processor.py:100 | `apply` gives one cell per input cell |
| Pipeline.ConvertFrom | f1_odds_processor.py:100 | a non-empty column converts to one cell per input cell |
| Pipeline.ConvertCellsAt | f1_odds_processor.py:100 | each converted cell is the conversion of the cell at the same position |
| Pipeline.ConvertedColumnAt | f1_odds_processor.py:100 | each cell of the derived column is the conversion of the provider's cell in the same row |
| Pipeline.AssignedColumns | f1_odds_processor.py:99-100 | assigning columns never loses an existing label |
| Pipeline.AssignedColumnsFrom | f1_odds_processor.py:99-100 | every label after the assignments was there before or was assigned |
| Pipeline.AssignedFreshColumns | f1_odds_processor.py:99-100 | assigning fresh distinct labels appends them in order |
| Pipeline.DeriveProbabilityColumns | f1_odds_processor.py:96-100 | deriving keeps the table well formed, its row count and every existing label |
| Pipeline.ConvertInto | f1_odds_processor.py:99-100 | the loop keeps the table well formed and its row count |
| Pipeline.ConvertFirst | f1_odds_processor.py:99-100 | a non-empty run of the loop keeps the table well formed and its row count |
| Pipeline.ConvertIntoColumns | f1_odds_processor.py:99-100 | the loop's labels are the original labels with each target assigned in turn: an existing one stays in place, a new one is appended |
| Pipeline.ConvertIntoStep | f1_odds_processor.py:99-100 | one turn converts the current source into its target, keeps every source column and leaves exactly the remaining turns to do |
| Pipeline.ProbabilityStep | f1_odds_processor.py:99-100 | one turn with the target `provider + '_probability'` leaves exactly the remaining turns to do |
| Pipeline.SuffixedEndsWith | f1_odds_processor.py:100 | a derived label ends in `_probability` |
| Pipeline.PendingStep | f1_odds_processor.py:99-100 | one loop step appends its label and leaves the rest of the work well posed |
| Pipeline.ConvertIntoKeepsCells | f1_odds_processor.py:99-100 | the loop leaves every original cell unchanged |
| Pipeline.ConvertIntoConverts | f1_odds_processor.py:99-100 | after the loop, each target column exists and is the converted column of its source as it was before the loop |
| Pipeline.ConvertIntoFills | f1_odds_processor.py:99-100 | a target column present after the loop is the converted column of its source |
| Pipeline.ConvertIntoConvertsFirst | f1_odds_processor.py:99-100 | the first target column is the converted first source, and later turns leave it alone |
| Pipeline.ConvertIntoShift | f1_odds_processor.py:99-100 | after the first turn, each later source column is as it was, so its conversion is unchanged |
| Pipeline.ConvertIntoUnfold | f1_odds_processor.py:99-100 | the loop is its first turn followed by the rest, which is still well posed |
| Pipeline.ConvertIntoKeepsColumn | f1_odds_processor.py:99-100 | the loop leaves every original column unchanged |
| Pipeline.ColumnAssigned | f1_odds_processor.py:100 | an assigned column reads back exactly the assigned cells |
| Pipeline.ColumnKept | f1_odds_processor.py:100 | assigning one column leaves every other column unchanged |
| Pipeline.RawTablePending | f1_odds_processor.py:96-100 | on a table without `_probability` labels, the derived labels are fresh, distinct and different from every provider |
| Pipeline.DeriveKeepsCells | f1_odds_processor.py:99-100 | deriving probabilities keeps every raw cell |
| Pipeline.DeriveConverts | f1_odds_processor.py:99-100 | every provider gets a `_probability` column holding the conversion of its odds, row by row |
| Pipeline.DeriveAddsOneColumnPerProvider | f1_odds_processor.py:96-100 | on a raw odds table, the result's labels are the original labels followed by one `_probability` label per provider in order; the rows keep their cells and gain the conversions |
| Pipeline.DeriveKeepsDriverColumn | f1_odds_processor.py:96 | deriving has a `Driver` column exactly when the input has one |
| Pipeline.DefinedValues | f1_odds_processor.py:133 | the defined values of a row are empty exactly when no selected cell holds a number |
| Pipeline.Mean | f1_odds_processor.py:133 | the mean exists exactly for a non-empty list, and the mean times the count is the sum |
| Pipeline.RowAverage | f1_odds_processor.py:130-133 | the row average is a number exactly when some selected cell is a number, and NaN otherwise |
| Pipeline.WithAverage | f1_odds_processor.py:130-133 | the table stays well formed with its row count and gains `average_probability`; each row changes only in that cell, which is the row's average over the `_probability` columns |
| Pipeline.SumBounds | f1_odds_processor.py:133 | values strictly between two bounds sum to strictly between count times each bound |
| Pipeline.MeanBetween | f1_odds_processor.py:133 | the mean of values in an open interval lies in that interval |
| Pipeline.DefinedValuesBetween | f1_odds_processor.py:133 | the defined values of a row lie in any interval that all its numeric cells lie in |
| Pipeline.AverageOfProbabilities | f1_odds_processor.py:119-134 | when every `_probability` cell of a row lies in (0,1), the average is NaN or lies in (0,1) |
| Pipeline.AverageSkipsMissing | tests/test_f1_odds_processor.py:101 | {0.4, NaN, 0.5} averages to 0.45: a missing probability is skipped, not counted as zero |
| Pipeline.DefinedValuesSnoc | f1_odds_processor.py:130-133 | adding a label at the end adds its number, if any, at the end of the defined values |
| Pipeline.SumSnoc | f1_odds_processor.py:133 | the sum of a list extended by one value is the old sum plus that value |
| Pipeline.MeanWithOwnMean | f1_odds_processor.py:133 | adding the mean of some values to them leaves the mean unchanged |
| Pipeline.AverageRecomputedIsStable | f1_odds_processor.py:126-133 | running the average step a second time leaves every row's average unchanged, although the average column is then averaged into itself |
| Pipeline.FilterSnoc | f1_odds_processor.py:130 | selecting from labels extended by one selects from the old labels, then that label if it passes |
| Pipeline.DefinedValuesAgree | f1_odds_processor.py:133 | two rows that agree on the selected labels have the same defined values |
| Pipeline.SuffixOfAverage | f1_odds_processor.py:130-133 | `average_probability` itself ends in `_probability` |
| Pipeline.SuffixOfNormalized | f1_odds_processor.py:130 | `normalized_probability` itself ends in `_probability` |
| Pipeline.DerivedColumnsAreAveraged | f1_odds_processor.py:130 | whenever `average_probability` or `normalized_probability` is a column, the average selects it as an input |
| Pipeline.FilterKeepsAll | f1_odds_processor.py:130 | selecting with a test every label passes keeps all labels in order |
| Pipeline.RowAverageOfThree | f1_odds_processor.py:133 | the average over three numeric cells is their sum divided by three |
| Pipeline.AverageTakesInNormalizedColumn | f1_odds_processor.py:130-133 | recomputing the average on a table that already holds a provider at 0.5, an average of 0.5 and a normalised 100 gives 101/3, not 0.5 |
| Pipeline.SumOfUndefinedIsZero | f1_odds_processor.py:150 | a column without any number sums to 0 |
| Pipeline.WithNormalized | f1_odds_processor.py:150-151 | the table stays well formed with its row count and gains `normalized_probability`; each row changes only in that cell, which is its average rescaled by the column's defined total |
| Pipeline.Rescale | f1_odds_processor.py:151 | a cell is defined exactly when its average is defined and the total is non-zero, and is then the average's percentage share of the total |
| Pipeline.RescaleAll | f1_odds_processor.py:151 | each cell of the normalised column is its average rescaled by the common total |
| Pipeline.SumRescaled | f1_odds_processor.py:150-151 | the defined rescaled values sum to the defined total over the divisor, times 100 |
| Pipeline.NormalizedColumnIs | f1_odds_processor.py:146-151 | the normalised column is the average column rescaled by the sum of its defined values |
| Pipeline.NormalizedSumsTo100 | f1_odds_processor.py:136-152 | when the total of the defined averages is non-zero, the defined normalised values sum to exactly 100 |
| Pipeline.NormalizedDefinedness | f1_odds_processor.py:150-151 | a normalised cell is defined exactly when its average is defined and the total is non-zero; a zero total leaves every row undefined |
| Pipeline.NormalizationIdempotent | f1_odds_processor.py:150-151 | feeding the normalised column back in as the averages reproduces it exactly |
| Pipeline.DerivedCellIsProbability | f1_odds_processor.py:96-100 | every `_probability` column of a freshly derived table holds NaN or a value in (0,1) |
| Pipeline.PipelineAverageIsProbability | f1_odds_processor.py:96-133 | after deriving and averaging, every row's average is NaN or lies in (0,1) |
| Pipeline.SumDefinedNonNegative | f1_odds_processor.py:150 | non-negative defined values have a non-negative total |
| Pipeline.PartAtMostSum | f1_odds_processor.py:150 | a non-negative defined value is at most the total |
| Pipeline.PercentBounds | f1_odds_processor.py:151 | a share of a total between 0 and the total is a percentage between 0 and 100 |
| Pipeline.NormalizedWithinPercent | f1_odds_processor.py:136-152 | with non-negative averages, every normalised cell is NaN or lies in [0, 100] |
| Pipeline.GamePoints | f1_odds_processor.py:171 | a driver's points are a number exactly when the name is in the game-odds map, and then they are its value |
| Pipeline.ExpectedPoints | f1_odds_processor.py:172 | expected points are defined exactly when both inputs are; they are normalised probability times points over 100 |
| Pipeline.ExpectedWithinPoints | f1_odds_processor.py:172 | a percentage in [0, 100] of non-negative points lies between 0 and those points |
| Pipeline.WithPoints | f1_odds_processor.py:171 | the table stays well formed with its row count and gains the points column; each row changes only in that cell, which is its driver's looked-up points |
| Pipeline.WithExpected | f1_odds_processor.py:172 | the table stays well formed with its row count and gains the expected-points column; each row changes only in that cell, which is its normalised probability times its points over 100 |
| Pipeline.PointsAndExpectedRow | f1_odds_processor.py:170-172 | after both assignments a row holds its driver's points and its normalised probability times those points over 100, and is otherwise unchanged |
| Pipeline.DriverColumnKept | f1_odds_processor.py:96-151 | deriving, averaging and normalising keep a `Driver` column exactly when the input had one |
| Ranking.BeforeTotal | f1_odds_processor.py:175 | any two keys are ordered one way or the other |
| Ranking.BeforeTransitive | f1_odds_processor.py:175 | the ranking order is transitive |
| Ranking.ConsSorted | f1_odds_processor.py:175 | a row ahead of all rows of a sorted list keeps it sorted |
| Ranking.Insert | f1_odds_processor.py:175 | inserting adds exactly that row to the multiset of rows |
| Ranking.InsertSorted | f1_odds_processor.py:175 | inserting into a sorted list keeps it sorted |
| Ranking.SortRows | f1_odds_processor.py:175 | the sorted rows are a permutation of the input in descending key order, with undefined keys last |
| Ranking.Ranked | f1_odds_processor.py:175 | ranking keeps the table well formed with the same labels and row count; its rows are a permutation of the input, sorted descending |
| Ranking.RankingOrder | f1_odds_processor.py:175 | in the ranking, no undefined key precedes a defined one, and defined keys never increase |
| Ranking.ScoredRow | f1_odds_processor.py:170-172 | a scored row gains exactly the points and expected-points labels and keeps its other cells; its points are defined exactly when the driver is in the map, and its expected points exactly when in addition its normalised probability is |
| Ranking.Scored | f1_odds_processor.py:170-175 | the scored table is well formed with the same row count, holds the points and expected-points columns, and is sorted by normalised probability |
| Ranking.ScoredIsRankedPermutation | f1_odds_processor.py:170-175 | the scored table is well formed with the same row count, sorted by normalised probability, and its rows are a permutation of the scored rows |
| Ranking.ScoringKeepsKey | f1_odds_processor.py:171-175 | adding points and expected points does not change a row's ranking key |
| Ranking.ExpectedPointsExample | tests/test_f1_odds_processor.py:127-131 | 60% of 10 points is 6; 40% of 12 points is 4.8; a driver missing from the map gets nothing |
| Processor.OddsFilePath | f1_odds_processor.py:87 | the path is the race directory, a slash, then the category followed by `_odds.csv`: it starts with `race/`, ends with `/category_odds.csv`, and holds nothing else |
| Processor.OddsFilePathInjective | f1_odds_processor.py:87 | for race names without a slash, the path determines the race and the category, so no two categories share a file |
| Processor.SlashFreePrefix | f1_odds_processor.py:87 | a slash-free prefix of a path ends at or before the path's slashes |
| Processor.FirstRowOf | f1_odds_processor.py:191-197 | finds the first row whose `Driver` cell is the name, or reports that no row has it |
| Processor.ProviderKeyOfLabel | f1_odds_processor.py:201 | the key of a provider's derived label `provider_probability` is the provider again, when the provider's name does not contain `_probability` |
| Processor.ProviderKeyExample | f1_odds_processor.py:201 | `Bookmaker1_probability` is reported under `Bookmaker1` |
| Processor.ProviderProbabilities | f1_odds_processor.py:200-204 | the key of every `_probability` column other than `normalized_probability` is reported, and every reported key comes from such a column |
| Processor.LastColumnReported | f1_odds_processor.py:200-204 | when two columns reduce to the same key, the later column's cell is the one reported |
| Processor.Analyze | f1_odds_processor.py:188-205 | fails on a missing `Driver` column, then on an unknown driver, then on a missing normalised column; on success it reports the driver, the looked-up points, and expected points exactly when `xPts` exists |
| Processor.AnalysisReportsFirstMatch | f1_odds_processor.py:191-204 | the report takes the first matching row's normalised probability, expected points and provider probabilities |
| Processor.AnalysisExample | tests/test_f1_odds_processor.py:143-147 | Max Verstappen's report shows 60, 6 expected points and 10 game points |
| Processor.Head | f1_odds_processor.py:220 | `head(n)` is the first n rows, or all rows but the last -n for negative n, never more than there are |
| Processor.TopDrivers | f1_odds_processor.py:217-220 | succeeds exactly when `Driver`, `normalized_probability` and `xPts` all exist; the result has exactly those columns over the first rows |
| Processor.TopDriversLead | f1_odds_processor.py:207-220 | on a ranked table, every top row ranks at or above every row left out |
| Processor.TopDriversExample | tests/test_f1_odds_processor.py:159-162 | the top two of three rows are two rows led by Max Verstappen |
| Processor.FixtureValid | tests/test_f1_odds_processor.py:136-141 | a fixture of driver, normalised and expected-points rows is a well-formed table |
| Processor.F1OddsProcessor.constructor | f1_odds_processor.py:10-23 | a new processor holds no table and an empty game-odds map |
| Processor.F1OddsProcessor.SetGameOdds | f1_odds_processor.py:44-51 | replaces the game-odds map and leaves the table alone |
| Processor.F1OddsProcessor.ProcessBettingOdds | f1_odds_processor.py:74-102 | a missing `<race>/<category>_odds.csv` fails with FileNotFound and leaves the table; otherwise the table becomes the file's table with one `_probability` column per provider, built by the loop |
| Processor.F1OddsProcessor.AddProbabilityColumns | f1_odds_processor.py:96-100 | the loop over the providers leaves the table the function's result for those providers and their `_probability` labels, and keeps the game odds |
| Processor.F1OddsProcessor.AddProbabilityColumn | f1_odds_processor.py:99-100 | one turn assigns `provider + '_probability'` the converted provider column and keeps the game odds |
| Processor.F1OddsProcessor.CalculateAverageProbabilities | f1_odds_processor.py:119-134 | without a table it fails with NoData; otherwise it assigns `average_probability` as the mean of the `_probability` columns |
| Processor.F1OddsProcessor.NormalizeProbabilities | f1_odds_processor.py:136-152 | without a table it fails with NoData; otherwise it computes the average if missing, then assigns the normalised column |
| Processor.F1OddsProcessor.CalculateExpectedPoints | f1_odds_processor.py:154-176 | the points column defaults to `game_points`; the call fails with NoData, then GameOddsNotSet, then a missing `Driver` column, each leaving the table; otherwise it assigns points, then expected points, and ranks; without a normalised column the points stay and the call fails |
| Processor.F1OddsProcessor.GetDriverAnalysis | f1_odds_processor.py:178-205 | without a table it fails with NoData; otherwise it returns the report of the current table |
| Processor.F1OddsProcessor.GetTopDrivers | f1_odds_processor.py:207-220 | n defaults to 5; without a table it fails with NoData; otherwise it returns the top-N view of the current table |
| Quali.ProcessBettingOdds | quali_bets.py:23-34 | a missing file fails with FileNotFound; otherwise the loop yields the file's table with its `_probability` columns |
| Quali.NormalizeProbabilities | quali_bets.py:52-57 | fails exactly when `average_probability` is missing; otherwise adds the normalised column |
| Quali.CategoryResult | quali_bets.py:107-118 | a run fails on a missing file or a missing `Driver` column, and succeeds exactly otherwise |
| Quali.RunCategory | quali_bets.py:107-118 | the step-by-step run computes the run's result |
| Quali.RunScript | quali_bets.py:107-140 | runs qualifying with its map, file and column names, and then, only if that succeeded, the podium run with its own |
| Quali.CategoryResultRanked | quali_bets.py:107-118 | a successful run holds every driver of the file, each extended by points and expected points, in descending order of normalised probability |
| Scraper.LastSegment | f1_odds_scraper.py:70-72 | the last path segment contains no slash |
| Scraper.LastSegmentAfterSlash | f1_odds_scraper.py:72 | a slash-free segment appended after a slash is the last segment |
| Scraper.Keys | f1_odds_scraper.py:83 | a record has one key per entry |
| Scraper.Lookup | f1_odds_scraper.py:99 | a key is found exactly when the record has it |
| Scraper.Put | f1_odds_scraper.py:99 | storing a key keeps its place if present and appends it otherwise; that key reads back the new value and every other key is unchanged |
| Scraper.AddCell | f1_odds_scraper.py:95-99 | recording one cell only appends keys and keeps keys distinct |
| Scraper.KeysGrow | f1_odds_scraper.py:99 | appending a key keeps the earlier keys, and keeps them distinct when the key is new |
| Scraper.AddCells | f1_odds_scraper.py:95-99 | recording cells only appends keys and keeps keys distinct |
| Scraper.LastUsable | f1_odds_scraper.py:95-99 | a bookmaker has a last usable cell exactly when some cell of the row names it with non-blank text |
| Scraper.AddCellsLookup | f1_odds_scraper.py:95-99 | after recording, a bookmaker reads its last usable price, or its earlier value when it has none |
| Scraper.AddCellsKeys | f1_odds_scraper.py:95-99 | a key is present after recording exactly when it was before or some usable cell names it |
| Scraper.NewRecordKeys | f1_odds_scraper.py:91-99 | a row's record starts with `Driver` and has distinct keys |
| Scraper.RecordHasEntry | f1_odds_scraper.py:101 | a record longer than one entry has a usable cell from some bookmaker |
| Scraper.EntryMakesRecord | f1_odds_scraper.py:101 | a usable cell from a bookmaker other than `Driver` makes the record longer than one entry |
| Scraper.ExtractRow | f1_odds_scraper.py:82-106 | an unreadable row yields nothing; a yielded record has at least two entries, `Driver` first, and distinct keys |
| Scraper.ExtractUpTo | f1_odds_scraper.py:82-106 | a non-empty run of rows yields at most one record per row, each starting with `Driver` with distinct keys and at least one price |
| Scraper.ExtractAll | f1_odds_scraper.py:82-106 | a page yields at most one record per row, each starting with `Driver` with distinct keys and at least one price |
| Scraper.ExtractRowYields | f1_odds_scraper.py:87-102 | a readable row yields a record exactly when its stripped name is non-empty and some usable cell belongs to a bookmaker other than `Driver` |
| Scraper.RecordShape | f1_odds_scraper.py:91-102 | a yielded record starts with `Driver`, has distinct keys and at least two entries; its `Driver` value is the stripped name unless a bookmaker called `Driver` overwrote it |
| Scraper.ExtractAllAppend | f1_odds_scraper.py:82-106 | the records of two pages in sequence are the records of each in sequence |
| Scraper.SkippedRow | f1_odds_scraper.py:87-89 | a row without a record (blank name, no price, or an error) leaves the other records as they were |
| Scraper.ExtractAllStep | f1_odds_scraper.py:82-106 | reading one more row appends its record, if it yields one |
| Scraper.AddCellsStep | f1_odds_scraper.py:95-99 | recording one more cell records it on top of the earlier cells |
| Scraper.ReadRow | f1_odds_scraper.py:83-106 | the body of the row loop, with its loop over the cells, returns exactly the row's record or nothing |
| Scraper.ExtractOddsData | f1_odds_scraper.py:74-108 | the loop over the rows returns exactly the records of the page in page order |
| Scraper.SingleCellRow | f1_odds_scraper.py:87-102 | a row with one usable price yields the record of the name and that price |
| Scraper.SingleCellAdded | f1_odds_scraper.py:95-99 | one usable price of a new bookmaker is appended after the name |
| Scraper.OneCellAdded | f1_odds_scraper.py:95-99 | the cell loop over one cell is that cell's step |
| Scraper.PutAfterOne | f1_odds_scraper.py:99 | a new key after a one-entry record goes second |
| Scraper.ExampleRowRecord | tests/test_f1_odds_scraper.py:56-67 | the mocked row yields the record of Max Verstappen with Bookmaker1 at 2.5 |
| Scraper.MergeColumns | f1_odds_scraper.py:142 | the merged labels start with the old labels in their order and hold exactly the old labels plus the new keys, still distinct |
| Scraper.ColumnsOf | f1_odds_scraper.py:142 | the table labels are distinct and include every key of every record |
| Scraper.ColumnsUpTo | f1_odds_scraper.py:142 | the labels of a non-empty run of records are distinct and include every key of every record |
| Scraper.ColumnsOfOnlyKeys | f1_odds_scraper.py:142 | every table label is a key of some record |
| Scraper.ColumnsOfPrefix | f1_odds_scraper.py:142 | the labels of the first records lead the labels of all records, in the same order |
| Scraper.FirstRecordLeads | f1_odds_scraper.py:142 | the first record's keys, `Driver` first, are the leading table labels in record order |
| Scraper.MergeDistinctIntoNothing | f1_odds_scraper.py:142 | merging distinct keys into no labels gives those keys in order |
| Scraper.MergeDistinctFrom | f1_odds_scraper.py:142 | merging keys that are new and distinct appends them in order |
| Scraper.RecordCell | f1_odds_scraper.py:142 | a record's cell is its text when the record has the key, and NaN otherwise |
| Scraper.FromRecords | f1_odds_scraper.py:142 | the table of records is well formed, with one row per record and each cell taken from its record |
| Scraper.PageTable | f1_odds_scraper.py:134-142 | a page's table is well formed with one row per record and the records' labels, and has no labels when there is no record |
| Scraper.ReadOddsTable | f1_odds_scraper.py:133-142 | reading the page gives the empty table without records and the table of the records otherwise |
| Scraper.ScrapeExample | tests/test_f1_odds_scraper.py:70-76 | the scraped table has one row, with `Driver` Max Verstappen and `Bookmaker1` "2.5" |
| Scraper.F1OddsScraper.constructor | f1_odds_scraper.py:18-34 | a new scraper holds its race and the site address, with no browser |
| Scraper.F1OddsScraper.GetOddsUrl | f1_odds_scraper.py:70-72 | the URL is the site address, a slash, the race, a slash and the category: it starts with `base_url/`, ends with `/race/category`, and holds nothing else; for slash-free names the last two segments read back as the race and the category |
| Scraper.F1OddsScraper.CategoriesHaveDistinctUrls | f1_odds_scraper.py:70-72 | two different slash-free categories have different addresses |
| Scraper.F1OddsScraper.SetupDriver | f1_odds_scraper.py:48-62 | launches a fresh browser, holds it and logs the launch; an already held browser stays open |
| Scraper.F1OddsScraper.CloseDriver | f1_odds_scraper.py:64-68 | quits the held browser, if any, exactly once and holds none afterwards |
| Scraper.F1OddsScraper.LoadPage | f1_odds_scraper.py:112-119 | the held browser, launched first when none is held, visits the address; the log gains the launch, if any, and the visit |
| Scraper.F1OddsScraper.ScrapeOdds | f1_odds_scraper.py:110-152 | launches a browser only if none is held and visits the category URL; a page that cannot be read fails after the visit, keeping the browser and saving nothing; otherwise it returns the page's table (empty without records), saved under `<race>/<category>_odds.csv` when asked and not empty |
| Scraper.F1OddsScraper.Enter | f1_odds_scraper.py:162-166 | entering the context launches a browser only when none is held |
| Scraper.F1OddsScraper.Exit | f1_odds_scraper.py:168-170 | leaving the context closes the browser |
| Scraper.VisitedSessionClosed | tests/test_f1_odds_scraper.py:42-47 | a launch, one visit and a quit leave no browser open |
| Scraper.VisitedSessionOpen | tests/test_f1_odds_scraper.py:123-129 | a launch and one visit leave that browser open |
| Scraper.ContextManagerQuitsOnce | tests/test_f1_odds_scraper.py:42-47 | a context launches one browser and quits it once, leaving none open |
| Scraper.ScrapeWithinContext | f1_odds_scraper.py:110-170 | scraping inside a context reuses its browser: one launch, one visit, one quit, whether or not the page can be read |
| Scraper.ScrapeFailure | tests/test_f1_odds_scraper.py:123-129 | an error while reading the page is reported after one launch and one visit; the browser is still held and nothing is saved |

## Left out

- Reading and writing CSV files are not modelled. The file system is a map from the path `<race>/<category>_odds.csv` (or the script's bare file name) to a table. pandas' type inference on reading is not modelled: a cell is NaN, text or a number as given.
- The data and year directories (`setup_directories`, `get_race_dir`, the year default) are not modelled. The path is relative to the year directory.
- `save_processed_data` is not modelled. `save_odds_data` is modelled only as the scraper's `saved` map.
- Selenium is not modelled: the browser options, the implicit wait, `time.sleep`, the close-button click and the XPath and CSS queries. A page is a sequence of abstract rows, and a row that raises is `Unreadable`.
- `print` output is left out, including the script's final display.
- Arithmetic is exact real arithmetic. IEEE rounding, infinities and NaN arithmetic are not modelled. A zero total yields NaN for every row instead of inf or NaN from the division.
- `float()` is modelled for an optional sign and `digits[.digits]` surrounded by any white space `str.isspace` accepts. Exponents, `inf`/`nan` spellings, underscores and non-ASCII digits are not modelled.
- A text cell in a column that is averaged, summed, multiplied or sorted counts as undefined. pandas would raise a TypeError there instead.
- Ranking.SortRows: does not fix the order of equal keys, because pandas' default sort is not stable.
- The script's in-place updates and DataFrame aliasing are modelled as rebinding a table value.
- `OddsOverview.py`, `scrape_and_process_odds.py` and the scraper's `__main__` block are not part of this model.
- Processor.TopDrivers: reports only the first missing column, where a pandas KeyError names every missing label.
- Scraper.F1OddsScraper.SetupDriver: a second call while a browser is held launches another browser without quitting the first. The model keeps that behaviour, so the log then shows a browser that is never quit.

