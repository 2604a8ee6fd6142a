/** `F1OddsScraper`: the odds page address of a race and category, the
    assembly of one record per driver row from the page, and the life cycle
    of the browser handle. The page itself is abstracted to the rows it
    shows, each a name cell and a list of odds cells. */
module Scraper {
  import opened Common
  import opened Text
  import opened Odds
  import opened Frame
  import Processor

  const BaseUrl := "https://www.oddschecker.com/motorsport/formula-1"

  // ---------------------------------------------------------------------
  // Page address

  /** The text after the last `/` of `s`, or all of `s` when it has none. */
  function LastSegment(s: string): (r: string)
    ensures '/' !in r
    decreases |s|
  {
    if s == [] then []
    else if s[|s| - 1] == '/' then []
    else LastSegment(s[..|s| - 1]) + [s[|s| - 1]]
  }

  lemma {:induction false} LastSegmentAfterSlash(p: string, q: string)
    ensures '/' !in q ==> LastSegment(p + "/" + q) == q
    decreases |q|
  {
    var s := p + "/" + q;
    if '/' in q {
    } else if q == [] {
      assert s[|s| - 1] == '/';
    } else {
      var init := q[..|q| - 1];
      var c := q[|q| - 1];
      assert q == init + [c];
      assert s == (p + "/" + init) + [c];
      LastSegmentAfterSlash(p, init);
    }
  }

  // ---------------------------------------------------------------------
  // Records: a driver's odds keyed by bookmaker, in insertion order

  /** A dictionary as an association list, keys in insertion order. */
  type Record = seq<(string, string)>

  function Keys(rec: Record): (ks: seq<string>)
    ensures |ks| == |rec|
  {
    if rec == [] then [] else [rec[0].0] + Keys(rec[1..])
  }

  function Lookup(rec: Record, key: string): (v: Option<string>)
    ensures v.Some? <==> key in Keys(rec)
  {
    if rec == [] then None
    else if rec[0].0 == key then Some(rec[0].1)
    else Lookup(rec[1..], key)
  }

  /** `d[key] = value`: an existing key keeps its place and takes the new
      value, a new key goes at the end. */
  function Put(rec: Record, key: string, value: string): (r: Record)
    ensures Keys(r) == if key in Keys(rec) then Keys(rec) else Keys(rec) + [key]
    ensures Lookup(r, key) == Some(value)
    ensures forall k :: k != key ==> Lookup(r, k) == Lookup(rec, k)
  {
    if rec == [] then [(key, value)]
    else if rec[0].0 == key then [(key, value)] + rec[1..]
    else [rec[0]] + Put(rec[1..], key, value)
  }

  // ---------------------------------------------------------------------
  // Rows of the odds page

  /** An odds cell: its bookmaker attribute (absent or possibly empty) and
      its text. */
  datatype DomCell = DomCell(provider: Option<string>, text: string)

  /** A driver row: the text of its first cell and its odds cells; or a row
      whose reading fails part way. */
  datatype DomRow = DomRow(nameText: string, cells: seq<DomCell>) | Unreadable

  /** A cell is recorded when both its bookmaker and its stripped text are
      non-empty. */
  predicate Usable(cell: DomCell)
  {
    cell.provider.Some? && cell.provider.value != "" && Strip(cell.text) != ""
  }

  /** A usable cell of bookmaker `provider`. */
  predicate UsableFor(cell: DomCell, provider: string)
  {
    Usable(cell) && cell.provider.value == provider
  }

  function AddCell(rec: Record, cell: DomCell): (r: Record)
    ensures |r| >= |rec| && Keys(r)[..|rec|] == Keys(rec)
    ensures Distinct(Keys(rec)) ==> Distinct(Keys(r))
  {
    if Usable(cell) then
      var key := cell.provider.value;
      var r := Put(rec, key, Strip(cell.text));
      KeysGrow(Keys(rec), key);
      assert Keys(r) == if key in Keys(rec) then Keys(rec) else Keys(rec) + [key];
      r
    else rec
  }

  /** Appending a key keeps the keys before it, and keeps keys distinct
      when the key is new. */
  lemma KeysGrow(ks: seq<string>, key: string)
    ensures (ks + [key])[..|ks|] == ks
    ensures key !in ks && Distinct(ks) ==> Distinct(ks + [key])
  {
    assert (ks + [key])[..|ks|] == ks;
  }

  lemma PrefixOfPrefix(a: seq<string>, b: seq<string>, c: seq<string>)
    requires |a| <= |b| <= |c| && b[..|a|] == a && c[..|b|] == b
    ensures c[..|a|] == a
  {
    assert c[..|a|] == c[..|b|][..|a|];
  }

  /** The cells recorded into `rec` in page order. */
  function AddCells(rec: Record, cells: seq<DomCell>): (r: Record)
    ensures |r| >= |rec| && Keys(r)[..|rec|] == Keys(rec)
    ensures Distinct(Keys(rec)) ==> Distinct(Keys(r))
    decreases |cells|
  {
    if cells == [] then rec
    else
      var prev := AddCells(rec, cells[..|cells| - 1]);
      var r := AddCell(prev, cells[|cells| - 1]);
      PrefixOfPrefix(Keys(rec), Keys(prev), Keys(r));
      r
  }

  /** The record of one row, when the row yields one: a non-empty name and
      at least one bookmaker entry besides it. */
  function ExtractRow(row: DomRow): (r: Option<Record>)
    ensures row.Unreadable? ==> r == None
    ensures r.Some? ==> |r.value| >= 2 && Keys(r.value)[0] == "Driver" && Distinct(Keys(r.value))
  {
    match row
    case Unreadable => None
    case DomRow(nameText, cells) =>
      var name := Strip(nameText);
      if name == "" then None
      else
        var rec := AddCells([("Driver", name)], cells);
        NewRecordKeys(name, cells);
        if |rec| > 1 then Some(rec) else None
  }

  /** The records of a page, in page order. */
  function ExtractAll(rows: seq<DomRow>): (r: seq<Record>)
    ensures |r| <= |rows|
    ensures forall k :: 0 <= k < |r| ==> |r[k]| >= 2 && Keys(r[k])[0] == "Driver" && Distinct(Keys(r[k]))
    decreases |rows|, 1
  {
    if rows == [] then [] else ExtractUpTo(rows)
  }

  /** The records of a non-empty run of rows: those before its last row,
      then the last row's own record if it yields one. */
  function ExtractUpTo(rows: seq<DomRow>): (r: seq<Record>)
    requires rows != []
    ensures |r| <= |rows|
    ensures forall k :: 0 <= k < |r| ==> |r[k]| >= 2 && Keys(r[k])[0] == "Driver" && Distinct(Keys(r[k]))
    decreases |rows|, 0
  {
    var init := ExtractAll(rows[..|rows| - 1]);
    match ExtractRow(rows[|rows| - 1])
    case Some(rec) => init + [rec]
    case None => init
  }

  /** The last usable cell for `provider`, stripped. */
  function LastUsable(cells: seq<DomCell>, provider: string): (v: Option<string>)
    ensures v.Some? <==> exists k :: 0 <= k < |cells| && UsableFor(cells[k], provider)
    decreases |cells|
  {
    if cells == [] then None
    else
      var last := cells[|cells| - 1];
      if UsableFor(last, provider) then Some(Strip(last.text))
      else
        var v := LastUsable(cells[..|cells| - 1], provider);
        assert forall k :: 0 <= k < |cells| - 1 ==> cells[..|cells| - 1][k] == cells[k];
        v
  }

  /** Cell by cell, each bookmaker ends up with the text of its last usable
      cell; a bookmaker with no usable cell keeps what it had. */
  lemma {:induction false} AddCellsLookup(rec: Record, cells: seq<DomCell>, provider: string)
    ensures Lookup(AddCells(rec, cells), provider)
              == if LastUsable(cells, provider).Some? then LastUsable(cells, provider) else Lookup(rec, provider)
    decreases |cells|
  {
    if cells != [] {
      AddCellsLookup(rec, cells[..|cells| - 1], provider);
    }
  }

  /** A bookmaker absent from `rec` gains an entry exactly when one of its
      cells is usable. */
  lemma {:induction false} AddCellsKeys(rec: Record, cells: seq<DomCell>, provider: string)
    ensures provider in Keys(AddCells(rec, cells)) <==>
              provider in Keys(rec) || exists k :: 0 <= k < |cells| && UsableFor(cells[k], provider)
    decreases |cells|
  {
    AddCellsLookup(rec, cells, provider);
  }

  /** Some usable cell names a bookmaker other than `Driver`. */
  predicate HasBookmakerEntry(cells: seq<DomCell>)
  {
    exists k :: 0 <= k < |cells| && Usable(cells[k]) && cells[k].provider.value != "Driver"
  }

  /** The keys of a fresh record: `Driver` first, no repeats. */
  lemma NewRecordKeys(name: string, cells: seq<DomCell>)
    ensures var r := AddCells([("Driver", name)], cells);
      |r| >= 1 && Keys(r)[0] == "Driver" && Distinct(Keys(r))
  {
    var rec0: Record := [("Driver", name)];
    assert Keys(rec0) == ["Driver"];
    var r := AddCells(rec0, cells);
    assert Keys(r)[0] == Keys(r)[..1][0];
  }

  lemma RecordHasEntry(name: string, cells: seq<DomCell>)
    requires |AddCells([("Driver", name)], cells)| > 1
    ensures HasBookmakerEntry(cells)
  {
    var rec0: Record := [("Driver", name)];
    var r := AddCells(rec0, cells);
    NewRecordKeys(name, cells);
    var q := Keys(r)[1];
    assert q != Keys(r)[0];
    AddCellsKeys(rec0, cells, q);
    assert Keys(rec0) == ["Driver"];
    var k :| 0 <= k < |cells| && UsableFor(cells[k], q);
  }

  lemma EntryMakesRecord(name: string, cells: seq<DomCell>)
    requires HasBookmakerEntry(cells)
    ensures |AddCells([("Driver", name)], cells)| > 1
  {
    var rec0: Record := [("Driver", name)];
    var r := AddCells(rec0, cells);
    NewRecordKeys(name, cells);
    var k :| 0 <= k < |cells| && Usable(cells[k]) && cells[k].provider.value != "Driver";
    AddCellsKeys(rec0, cells, cells[k].provider.value);
    assert UsableFor(cells[k], cells[k].provider.value);
  }

  /** A row yields a record exactly when its stripped name is non-empty and
      one of its usable cells belongs to a bookmaker other than `Driver`. */
  lemma ExtractRowYields(nameText: string, cells: seq<DomCell>)
    ensures ExtractRow(DomRow(nameText, cells)).Some? <==> Strip(nameText) != "" && HasBookmakerEntry(cells)
  {
    var name := Strip(nameText);
    if name != "" {
      if |AddCells([("Driver", name)], cells)| > 1 {
        RecordHasEntry(name, cells);
      }
      if HasBookmakerEntry(cells) {
        EntryMakesRecord(name, cells);
      }
    }
  }

  /** A record starts with the `Driver` key, has at least one bookmaker key
      after it, never repeats a key, and its `Driver` value is the stripped
      name unless a cell for a bookmaker called `Driver` overwrote it. */
  lemma RecordShape(nameText: string, cells: seq<DomCell>)
    requires ExtractRow(DomRow(nameText, cells)).Some?
    ensures var rec := ExtractRow(DomRow(nameText, cells)).value;
      && |rec| >= 2 && Keys(rec)[0] == "Driver" && Distinct(Keys(rec))
      && Lookup(rec, "Driver") == if LastUsable(cells, "Driver").Some? then LastUsable(cells, "Driver") else Some(Strip(nameText))
  {
    var rec0: Record := [("Driver", Strip(nameText))];
    NewRecordKeys(Strip(nameText), cells);
    AddCellsLookup(rec0, cells, "Driver");
  }

  /** Rows are handled one at a time: the records of two stretches of page
      are the records of each, in page order. */
  lemma {:induction false} ExtractAllAppend(a: seq<DomRow>, b: seq<DomRow>)
    ensures ExtractAll(a + b) == ExtractAll(a) + ExtractAll(b)
    decreases |b|
  {
    if b == [] {
      assert a + b == a;
    } else {
      var init := b[..|b| - 1];
      assert (a + b)[..|a + b| - 1] == a + init;
      assert (a + b)[|a + b| - 1] == b[|b| - 1];
      ExtractAllAppend(a, init);
    }
  }

  /** A row that yields nothing (unreadable, nameless, or without odds) is
      skipped and the rows after it are still read. */
  lemma SkippedRow(a: seq<DomRow>, row: DomRow, b: seq<DomRow>)
    requires ExtractRow(row).None?
    ensures ExtractAll(a + [row] + b) == ExtractAll(a + b)
  {
    ExtractAllAppend(a + [row], b);
    ExtractAllAppend(a, [row]);
    ExtractAllAppend(a, b);
    assert [row][..0] == [];
  }

  lemma ExtractAllStep(rows: seq<DomRow>, i: nat)
    requires i < |rows|
    ensures ExtractAll(rows[..i + 1])
              == ExtractAll(rows[..i]) + (if ExtractRow(rows[i]).Some? then [ExtractRow(rows[i]).value] else [])
  {
    assert rows[..i + 1][..i] == rows[..i];
  }

  lemma AddCellsStep(rec: Record, cells: seq<DomCell>, j: nat)
    requires j < |cells|
    ensures AddCells(rec, cells[..j + 1]) == AddCell(AddCells(rec, cells[..j]), cells[j])
  {
    assert cells[..j + 1][..j] == cells[..j];
  }

  /** The body of the loop over the rows: the row's name, then the loop over
      its cells; an unreadable row is skipped. */
  method ReadRow(row: DomRow) returns (r: Option<Record>)
    ensures r == ExtractRow(row)
  {
    if row.Unreadable? {
      return None;
    }
    var name := Strip(row.nameText);
    if name == "" {
      return None;
    }
    var rec: Record := [("Driver", name)];
    for j := 0 to |row.cells|
      invariant rec == AddCells([("Driver", name)], row.cells[..j])
    {
      AddCellsStep([("Driver", name)], row.cells, j);
      var cell := row.cells[j];
      var odds := Strip(cell.text);
      if cell.provider.Some? && cell.provider.value != "" && odds != "" {
        rec := Put(rec, cell.provider.value, odds);
      }
    }
    assert row.cells[..|row.cells|] == row.cells;
    r := if |rec| > 1 then Some(rec) else None;
  }

  /** The loop over the page's rows. */
  method ExtractOddsData(rows: seq<DomRow>) returns (data: seq<Record>)
    ensures data == ExtractAll(rows)
  {
    data := [];
    for i := 0 to |rows|
      invariant data == ExtractAll(rows[..i])
    {
      ExtractAllStep(rows, i);
      var rec := ReadRow(rows[i]);
      if rec.Some? {
        data := data + [rec.value];
      }
    }
    assert rows[..|rows|] == rows;
  }

  // ---------------------------------------------------------------------
  // From records to a table

  /** `cols` followed by the keys of `keys` not yet among them, in order. */
  function MergeColumns(cols: seq<string>, keys: seq<string>): (r: seq<string>)
    ensures forall c :: c in r <==> c in cols || c in keys
    ensures Distinct(cols) ==> Distinct(r)
    ensures |cols| <= |r| && r[..|cols|] == cols
    decreases |keys|
  {
    if keys == [] then cols
    else MergeColumns(if keys[0] in cols then cols else cols + [keys[0]], keys[1..])
  }

  /** The column labels of a table built from `records`: every key of every
      record, once, in order of first appearance. */
  function ColumnsOf(records: seq<Record>): (r: seq<string>)
    ensures Distinct(r)
    ensures forall i, c :: 0 <= i < |records| && c in Keys(records[i]) ==> c in r
    decreases |records|, 1
  {
    if records == [] then [] else ColumnsUpTo(records)
  }

  /** The labels of a non-empty run of records: those of all but the last,
      merged with the keys of the last. */
  function ColumnsUpTo(records: seq<Record>): (r: seq<string>)
    requires records != []
    ensures Distinct(r)
    ensures forall i, c :: 0 <= i < |records| && c in Keys(records[i]) ==> c in r
    decreases |records|, 0
  {
    var init := records[..|records| - 1];
    assert forall i :: 0 <= i < |init| ==> init[i] == records[i];
    MergeColumns(ColumnsOf(init), Keys(records[|records| - 1]))
  }

  /** Every column label is the key of some record. */
  lemma {:induction false} ColumnsOfOnlyKeys(records: seq<Record>, c: string)
    requires c in ColumnsOf(records)
    ensures exists i :: 0 <= i < |records| && c in Keys(records[i])
    decreases |records|
  {
    var init := records[..|records| - 1];
    if c !in Keys(records[|records| - 1]) {
      ColumnsOfOnlyKeys(init, c);
      var i :| 0 <= i < |init| && c in Keys(init[i]);
      assert init[i] == records[i];
    }
  }

  /** Columns are added, never reordered: the labels of the first `n`
      records come first, in the order they had. */
  lemma {:induction false} ColumnsOfPrefix(records: seq<Record>, n: nat)
    requires n <= |records|
    ensures var p := ColumnsOf(records[..n]); |p| <= |ColumnsOf(records)| && ColumnsOf(records)[..|p|] == p
    decreases |records|
  {
    if n < |records| {
      var init := records[..|records| - 1];
      assert init[..n] == records[..n];
      ColumnsOfPrefix(init, n);
    } else {
      assert records[..n] == records;
    }
  }

  /** The first record's keys, `Driver` first, are the table's leading
      columns in record order. */
  lemma FirstRecordLeads(records: seq<Record>)
    requires records != [] && Distinct(Keys(records[0]))
    ensures var k := Keys(records[0]); |k| <= |ColumnsOf(records)| && ColumnsOf(records)[..|k|] == k
  {
    var first := records[..1];
    assert first[..0] == [] && first[0] == records[0];
    assert ColumnsOf(first) == ColumnsUpTo(first) == MergeColumns(ColumnsOf([]), Keys(records[0]));
    MergeDistinctIntoNothing(Keys(records[0]));
    ColumnsOfPrefix(records, 1);
  }

  lemma {:induction false} MergeDistinctIntoNothing(keys: seq<string>)
    requires Distinct(keys)
    ensures MergeColumns([], keys) == keys
  {
    MergeDistinctFrom([], keys);
  }

  lemma {:induction false} MergeDistinctFrom(cols: seq<string>, keys: seq<string>)
    requires Distinct(cols + keys)
    ensures MergeColumns(cols, keys) == cols + keys
    decreases |keys|
  {
    if keys != [] {
      assert (cols + keys)[|cols|] == keys[0];
      assert keys[0] !in cols by {
        forall k | 0 <= k < |cols| ensures cols[k] != keys[0] {
          assert (cols + keys)[k] == cols[k];
        }
      }
      assert cols + [keys[0]] + keys[1..] == cols + keys;
      MergeDistinctFrom(cols + [keys[0]], keys[1..]);
    }
  }

  function RecordCell(rec: Record, c: string): (cell: Cell)
    ensures cell.Str? <==> c in Keys(rec)
    ensures cell.Str? ==> Lookup(rec, c) == Some(cell.s)
    ensures cell == NaN || cell.Str?
  {
    match Lookup(rec, c)
    case Some(v) => Str(v)
    case None => NaN
  }

  /** The table of `records`: one row per record, a record's missing keys
      undefined. */
  function FromRecords(records: seq<Record>): (t: Table)
    ensures Valid(t) && t.columns == ColumnsOf(records) && |t.rows| == |records|
    ensures forall i, c :: 0 <= i < |records| && c in t.columns ==> t.rows[i][c] == RecordCell(records[i], c)
  {
    var cols := ColumnsOf(records);
    Table(cols, seq(|records|, i requires 0 <= i < |records| => map c | c in ColumnSet(cols) :: RecordCell(records[i], c)))
  }

  /** The table `scrape_odds` returns for a page: the table of its records,
      or an empty table, with no columns, when the page yields none. */
  function PageTable(rows: seq<DomRow>): (t: Table)
    ensures Valid(t) && |t.rows| == |ExtractAll(rows)|
    ensures ExtractAll(rows) == [] ==> t.columns == []
    ensures t.columns == ColumnsOf(ExtractAll(rows))
  {
    var records := ExtractAll(rows);
    if records == [] then EmptyTable else FromRecords(records)
  }

  /** The table read from a page: no records give the empty table,
      otherwise the table of the records. */
  method ReadOddsTable(rows: seq<DomRow>) returns (df: Table)
    ensures df == PageTable(rows)
  {
    var records := ExtractOddsData(rows);
    if records == [] {
      return EmptyTable;
    }
    df := FromRecords(records);
  }

  // ---------------------------------------------------------------------
  // The scraper object and its browser handle

  /** What the scraper does to the browser: launch one, visit a page with
      one, quit one. Handles are numbered in launch order. */
  datatype Event = Launch(handle: nat) | Quit(handle: nat) | Visit(handle: nat, url: string)

  /** The handles launched and not yet quit. */
  function Open(log: seq<Event>): set<nat>
    decreases |log|
  {
    if log == [] then {}
    else
      var prev := Open(log[..|log| - 1]);
      match log[|log| - 1]
      case Launch(h) => prev + {h}
      case Quit(h) => prev - {h}
      case Visit(_, _) => prev
  }

  class F1OddsScraper {
    const race: string
    const baseUrl: string
    /** The live browser handle, absent when none is held. */
    var driver: Option<nat>
    /** How many browsers have been launched. */
    var launched: nat
    var log: seq<Event>
    /** The odds tables written so far, by path below the season directory. */
    var saved: map<string, Table>

    /** A held handle is open, and every open handle was launched here. */
    ghost predicate Consistent()
      reads this
    {
      (driver.Some? ==> driver.value in Open(log)) && forall h :: h in Open(log) ==> h < launched
    }

    constructor(race: string)
      ensures this.race == race && baseUrl == BaseUrl
      ensures driver == None && launched == 0 && log == [] && saved == map[]
      ensures Consistent()
    {
      this.race := race;
      baseUrl := BaseUrl;
      driver := None;
      launched := 0;
      log := [];
      saved := map[];
    }

    /** The odds page of `category` for this race: the base address, the
        race and the category, separated by `/`. */
    function GetOddsUrl(category: string): (url: string)
      ensures |url| == |baseUrl| + |race| + |category| + 2
      ensures url[..|baseUrl| + 1] == baseUrl + "/"
      ensures EndsWith(url, "/" + race + "/" + category)
      ensures '/' !in category ==> LastSegment(url) == category
      ensures '/' !in race ==> LastSegment(url[..|url| - |category| - 1]) == race
    {
      var u := baseUrl + "/" + race + "/" + category;
      LastSegmentAfterSlash(baseUrl + "/" + race, category);
      LastSegmentAfterSlash(baseUrl, race);
      assert u[..|baseUrl| + 1] == baseUrl + "/";
      assert u[|u| - |race| - |category| - 2..] == "/" + race + "/" + category;
      assert u[..|u| - |category| - 1] == baseUrl + "/" + race;
      u
    }

    /** Two categories without a slash have different addresses. */
    lemma CategoriesHaveDistinctUrls(c1: string, c2: string)
      requires '/' !in c1 && '/' !in c2 && c1 != c2
      ensures GetOddsUrl(c1) != GetOddsUrl(c2)
    {
    }

    /** Launches a new browser and holds it; a handle already held is
        replaced without being quit. */
    method SetupDriver()
      requires Consistent()
      modifies this
      ensures Consistent()
      ensures driver == Some(old(launched)) && launched == old(launched) + 1
      ensures log == old(log) + [Launch(old(launched))] && saved == old(saved)
      ensures Open(log) == Open(old(log)) + {old(launched)}
    {
      log := log + [Launch(launched)];
      assert log[..|log| - 1] == old(log);
      driver := Some(launched);
      launched := launched + 1;
    }

    /** Quits the held browser, if any, and drops the handle. */
    method CloseDriver()
      requires Consistent()
      modifies this
      ensures Consistent()
      ensures driver == None && launched == old(launched) && saved == old(saved)
      ensures old(driver).None? ==> log == old(log)
      ensures old(driver).Some? ==> log == old(log) + [Quit(old(driver).value)]
      ensures Open(log) == if old(driver).Some? then Open(old(log)) - {old(driver).value} else Open(old(log))
    {
      if driver.Some? {
        log := log + [Quit(driver.value)];
        assert log[..|log| - 1] == old(log);
        driver := None;
      }
    }

    /** `driver.get(url)`: the held browser visits `url`, a new one being
        launched first when none is held. */
    method LoadPage(url: string)
      requires Consistent()
      modifies this
      ensures Consistent() && saved == old(saved)
      ensures old(driver).Some? ==> driver == old(driver) && launched == old(launched)
      ensures old(driver).None? ==> driver == Some(old(launched)) && launched == old(launched) + 1
      ensures driver.Some? && log == old(log) + (if old(driver).None? then [Launch(old(launched))] else [])
                                           + [Visit(driver.value, url)]
    {
      if driver.None? {
        SetupDriver();
      }
      var before := log;
      log := log + [Visit(driver.value, url)];
      assert log[..|log| - 1] == before;
    }

    /** Scrapes the odds of `category`, with `page` the rows the browser
        shows at the category's address, or `None` when loading or reading
        the page fails. A browser is launched only when none is held. A
        failure is reported after the visit, with the browser still held and
        nothing saved. No records give an empty table and nothing is saved;
        otherwise the table is saved when `save` is set. */
    method ScrapeOdds(category: string, save: bool, page: Option<seq<DomRow>>) returns (res: Result<Table>)
      requires Consistent()
      modifies this
      ensures Consistent()
      ensures old(driver).Some? ==> driver == old(driver) && launched == old(launched)
      ensures old(driver).None? ==> driver == Some(old(launched)) && launched == old(launched) + 1
      ensures driver.Some? && log == old(log) + (if old(driver).None? then [Launch(old(launched))] else [])
                                           + [Visit(driver.value, GetOddsUrl(category))]
      ensures page.None? ==> res == Failure(PageUnavailable(GetOddsUrl(category)))
      ensures page.Some? ==> res == Success(PageTable(page.value))
      ensures !save || page.None? ==> saved == old(saved)
      ensures save && page.Some? ==>
                saved == if |PageTable(page.value).rows| > 0
                         then old(saved)[Processor.OddsFilePath(race, category) := PageTable(page.value)]
                         else old(saved)
    {
      var url := GetOddsUrl(category);
      LoadPage(url);
      match page
      case None =>
        res := Failure(PageUnavailable(url));
      case Some(rows) =>
        var df := ReadOddsTable(rows);
        if save && |df.rows| > 0 {
          saved := saved[Processor.OddsFilePath(race, category) := df];
        }
        res := Success(df);
    }

    /** Entering the context: launches a browser only when none is held. */
    method Enter()
      requires Consistent()
      modifies this
      ensures Consistent() && driver.Some? && saved == old(saved)
      ensures old(driver).Some? ==> driver == old(driver) && launched == old(launched) && log == old(log)
      ensures old(driver).None? ==> driver == Some(old(launched)) && launched == old(launched) + 1
                                    && log == old(log) + [Launch(old(launched))]
    {
      if driver.None? {
        SetupDriver();
      }
    }

    /** Leaving the context closes the browser. */
    method Exit()
      requires Consistent()
      modifies this
      ensures Consistent()
      ensures driver == None && launched == old(launched) && saved == old(saved)
      ensures old(driver).None? ==> log == old(log)
      ensures old(driver).Some? ==> log == old(log) + [Quit(old(driver).value)]
    {
      CloseDriver();
    }
  }

  /** The context-manager test case: a fresh scraper used as a context
      launches one browser and quits it exactly once, leaving none open. */
  method ContextManagerQuitsOnce(race: string) returns (s: F1OddsScraper)
    ensures s.log == [Launch(0), Quit(0)] && s.driver == None && Open(s.log) == {}
  {
    s := new F1OddsScraper(race);
    s.Enter();
    s.Exit();
    assert s.log[..1] == [Launch(0)];
  }

  /** Scraping inside the context reuses the context's browser: one launch,
      one visit, one quit. */
  method ScrapeWithinContext(race: string, category: string, page: Option<seq<DomRow>>) returns (s: F1OddsScraper, res: Result<Table>)
    ensures s.log == [Launch(0), Visit(0, s.GetOddsUrl(category)), Quit(0)]
    ensures s.driver == None && Open(s.log) == {} && s.saved == map[]
  {
    s := new F1OddsScraper(race);
    s.Enter();
    assert s.log == [Launch(0)];
    var url := s.GetOddsUrl(category);
    res := s.ScrapeOdds(category, false, page);
    ghost var visited := s.log;
    assert visited == [Launch(0)] + [Visit(0, url)] && s.driver == Some(0);
    s.Exit();
    assert s.log == visited + [Quit(0)];
    VisitedSessionClosed(url);
  }

  /** Launching a browser, visiting one address and quitting leaves no
      browser open. */
  lemma VisitedSessionClosed(url: string)
    ensures Open([Launch(0), Visit(0, url), Quit(0)]) == {}
  {
    var log := [Launch(0), Visit(0, url), Quit(0)];
    assert log[..2] == [Launch(0), Visit(0, url)];
    assert log[..2][..1] == [Launch(0)];
    assert Open([Launch(0)]) == {0};
    assert Open(log[..2]) == {0};
  }

  /** The error-handling test case: when the page cannot be read, scraping
      reports the failure after launching a browser and visiting the
      address; the browser stays held and nothing is saved. */
  method ScrapeFailure(race: string, category: string) returns (s: F1OddsScraper, res: Result<Table>)
    ensures res.Failure? && res.error == PageUnavailable(s.GetOddsUrl(category))
    ensures s.log == [Launch(0), Visit(0, s.GetOddsUrl(category))]
    ensures s.driver == Some(0) && Open(s.log) == {0} && s.saved == map[]
  {
    s := new F1OddsScraper(race);
    var url := s.GetOddsUrl(category);
    res := s.ScrapeOdds(category, true, None);
    assert s.log == [Launch(0)] + [Visit(0, url)];
    VisitedSessionOpen(url);
  }

  /** After launching a browser and visiting one address, that browser is
      the one open. */
  lemma VisitedSessionOpen(url: string)
    ensures Open([Launch(0), Visit(0, url)]) == {0}
  {
    var log := [Launch(0), Visit(0, url)];
    assert log[..1] == [Launch(0)];
    assert Open([Launch(0)]) == {0};
  }

  const ExampleRow := DomRow("Max Verstappen", [DomCell(Some("Bookmaker1"), "2.5")])
  const ExampleRecord: Record := [("Driver", "Max Verstappen"), ("Bookmaker1", "2.5")]

  /** A row holding one usable price from a bookmaker other than "Driver"
      yields the record of the name and that price. */
  lemma SingleCellRow(name: string, provider: string, text: string)
    requires name != [] && Strip(name) == name
    requires provider != "" && provider != "Driver"
    requires text != [] && Strip(text) == text
    ensures ExtractRow(DomRow(name, [DomCell(Some(provider), text)])) == Some([("Driver", name), (provider, text)])
  {
    var cells := [DomCell(Some(provider), text)];
    var rec: Record := [("Driver", name)];
    SingleCellAdded(rec, provider, text);
    assert ExtractRow(DomRow(name, cells)) == Some(AddCells(rec, cells));
  }

  /** A usable price of a new bookmaker is appended to the record. */
  lemma {:induction false} SingleCellAdded(rec: Record, provider: string, text: string)
    requires |rec| == 1 && rec[0].0 != provider
    requires provider != "" && text != [] && Strip(text) == text
    ensures AddCells(rec, [DomCell(Some(provider), text)]) == [rec[0], (provider, text)]
  {
    var cell := DomCell(Some(provider), text);
    OneCellAdded(rec, cell);
    assert Usable(cell);
    assert AddCell(rec, cell) == Put(rec, provider, text);
    PutAfterOne(rec, provider, text);
  }

  /** Recording a single cell is one step of the loop. */
  lemma OneCellAdded(rec: Record, cell: DomCell)
    ensures AddCells(rec, [cell]) == AddCell(rec, cell)
  {
    assert [cell][..0] == [];
  }

  /** A new key after a one-entry record goes second. */
  lemma PutAfterOne(rec: Record, key: string, value: string)
    requires |rec| == 1 && rec[0].0 != key
    ensures Put(rec, key, value) == [rec[0], (key, value)]
  {
    assert rec[1..] == [];
  }

  lemma ExampleRowRecord()
    ensures ExtractAll([ExampleRow]) == [ExampleRecord]
  {
    GraphicNotSpace('M');
    GraphicNotSpace('n');
    StripTrimmed("Max Verstappen");
    GraphicNotSpace('2');
    GraphicNotSpace('5');
    StripTrimmed("2.5");
    SingleCellRow("Max Verstappen", "Bookmaker1", "2.5");
    assert [ExampleRow][..0] == [];
  }

  /** The scraping test case: one row for Max Verstappen with a single
      Bookmaker1 price of 2.5 gives a one-row table holding both. */
  lemma ScrapeExample()
    ensures var t := FromRecords(ExtractAll([ExampleRow]));
      && |t.rows| == 1
      && "Driver" in t.columns && t.rows[0]["Driver"] == Str("Max Verstappen")
      && "Bookmaker1" in t.columns && t.rows[0]["Bookmaker1"] == Str("2.5")
  {
    ExampleRowRecord();
    assert Keys(ExampleRecord) == ["Driver", "Bookmaker1"];
    assert Keys([ExampleRecord][0]) == ["Driver", "Bookmaker1"];
  }
}
