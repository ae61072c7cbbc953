/** The data explorer's load block, shared by the dataset effect and the
    refresh handler: parse the fetched CSV into records, sort them by value
    (largest first) and number their ranks, then build the simulated
    history of the five best-ranked provinces. */
module ExplorerParse {
  import opened Wrappers
  import opened JsString
  import opened CsvTable
  import opened RowOrder

  /** The two `Math.random()` draws made for one data line: `up` stands for
      `Math.random() > 0.5`, `change` for the rounded second draw. */
  datatype Noise = Noise(up: bool, change: real)

  /** The CSV the parser can turn into table records: every non-blank data
      line has a `province` cell and a `value` cell that `parseFloat` reads.
      (Without a province cell, filtering later calls `toLowerCase` on
      `undefined`; a `NaN` value makes the ranking comparator inconsistent.) */
  predicate WellFormed(csvText: string) {
    var rows := Rows(csvText);
    var provinceIndex := ColumnIndex(csvText, "province");
    var valueIndex := ColumnIndex(csvText, "value");
    forall i :: 1 <= i < |rows| && !IsBlank(rows[i]) ==>
      && Cell(rows[i], provinceIndex).Some?
      && Cell(rows[i], valueIndex).Some?
      && JsParseFloat(Cell(rows[i], valueIndex).value).Some?
  }

  /** The record the loop pushes for data line `i`, before ranking: raw
      province and year cells, the parsed value, the line's random draws,
      and the line number as provisional rank. */
  function RowAt(csvText: string, i: nat, draw: nat -> Noise): Row
    requires WellFormed(csvText)
    requires 1 <= i < |Rows(csvText)| && !IsBlank(Rows(csvText)[i])
  {
    var line := Rows(csvText)[i];
    Row(Cell(line, ColumnIndex(csvText, "province")).value,
        JsParseFloat(Cell(line, ColumnIndex(csvText, "value")).value).value,
        Cell(line, ColumnIndex(csvText, "year")),
        if draw(i).up then Up else Down,
        draw(i).change,
        i)
  }

  /** The records the loop has pushed once it has looked at lines `[1, hi)`. */
  function ParsedLines(csvText: string, hi: nat, draw: nat -> Noise): seq<Row>
    requires WellFormed(csvText)
    requires hi <= |Rows(csvText)|
  {
    if hi <= 1 then []
    else ParsedLines(csvText, hi - 1, draw)
         + (if IsBlank(Rows(csvText)[hi - 1]) then [] else [RowAt(csvText, hi - 1, draw)])
  }

  /** The records parsed from a CSV: one per kept (non-blank) data line, in line order. */
  function Parsed(csvText: string, draw: nat -> Noise): seq<Row>
    requires WellFormed(csvText)
  {
    ParsedLines(csvText, |Rows(csvText)|, draw)
  }

  /** The parse yields exactly one record per kept line: record `j` is the
      record of the `j`-th non-blank data line. */
  lemma {:induction false} ParsedLinesAreKeptLines(csvText: string, hi: nat, draw: nat -> Noise)
    requires WellFormed(csvText)
    requires hi <= |Rows(csvText)|
    ensures var kept := KeptLines(Rows(csvText), hi);
      && |ParsedLines(csvText, hi, draw)| == |kept|
      && forall j :: 0 <= j < |kept| ==> ParsedLines(csvText, hi, draw)[j] == RowAt(csvText, kept[j], draw)
  {
    if hi > 1 {
      ParsedLinesAreKeptLines(csvText, hi - 1, draw);
    }
  }

  /** The parsing loop: the header gives the columns; blank lines are
      skipped and every other data line yields one record, in line order. */
  method ParseRows(csvText: string, draw: nat -> Noise) returns (csvData: seq<Row>)
    requires WellFormed(csvText)
    ensures csvData == Parsed(csvText, draw)
  {
    var rows := Split(csvText, '\n');
    var headers := Split(rows[0], ',');
    var provinceIndex := IndexOf(headers, "province");
    var valueIndex := IndexOf(headers, "value");
    var yearIndex := IndexOf(headers, "year");
    assert rows == Rows(csvText) && headers == Headers(csvText);
    csvData := [];
    var i := 1;
    while i < |rows|
      invariant 1 <= i <= |rows|
      invariant csvData == ParsedLines(csvText, i, draw)
    {
      TrimEmptyIffBlank(rows[i]);
      ParsedLinesStep(csvText, i, draw);
      if Trim(rows[i]) == "" {
        i := i + 1;
        continue;
      }
      var columns := Split(rows[i], ',');
      LineColumns(csvText, i);
      var province := columns[provinceIndex];
      var value := JsParseFloat(columns[valueIndex]).value;
      var year := At(columns, yearIndex);
      var noise := draw(i);
      csvData := csvData + [Row(province, value, year, if noise.up then Up else Down, noise.change, i)];
      i := i + 1;
    }
  }

  /** One more line: a blank line adds nothing, another line its record. */
  lemma ParsedLinesStep(csvText: string, i: nat, draw: nat -> Noise)
    requires WellFormed(csvText)
    requires 1 <= i < |Rows(csvText)|
    ensures ParsedLines(csvText, i + 1, draw)
         == ParsedLines(csvText, i, draw) + (if IsBlank(Rows(csvText)[i]) then [] else [RowAt(csvText, i, draw)])
  {
  }

  /** A kept line of a well-formed CSV has its province and value columns. */
  lemma LineColumns(csvText: string, i: nat)
    requires WellFormed(csvText)
    requires 1 <= i < |Rows(csvText)| && !IsBlank(Rows(csvText)[i])
    ensures var columns := Split(Rows(csvText)[i], ',');
      && 0 <= ColumnIndex(csvText, "province") < |columns|
      && 0 <= ColumnIndex(csvText, "value") < |columns|
      && JsParseFloat(columns[ColumnIndex(csvText, "value")]).Some?
  {
    assert Cell(Rows(csvText)[i], ColumnIndex(csvText, "province")).Some?;
    assert Cell(Rows(csvText)[i], ColumnIndex(csvText, "value")).Some?;
  }

  /** The ranking: sort by `b.value - a.value` (stable), then `rank` is
      position + 1. The result is the stable value-descending sort of the
      input with ranks renumbered 1..n. */
  method RankRows(csvData: seq<Row>) returns (ranked: seq<Row>)
    ensures |ranked| == |csvData|
    ensures forall i :: 0 <= i < |ranked| ==> ranked[i] == SortRows(csvData, ByValueDesc)[i].(rank := i + 1)
    ensures forall i, j :: 0 <= i < j < |ranked| ==> ranked[i].value >= ranked[j].value
    ensures forall i :: 0 <= i < |ranked| ==> ranked[i].rank == i + 1
  {
    SortRowsSpec(csvData, ByValueDesc);
    var sorted := SortRows(csvData, ByValueDesc);
    ranked := sorted;
    var index := 0;
    while index < |ranked|
      invariant 0 <= index <= |ranked| == |sorted|
      invariant forall i :: 0 <= i < index ==> ranked[i] == sorted[i].(rank := i + 1)
      invariant forall i :: index <= i < |ranked| ==> ranked[i] == sorted[i]
    {
      ranked := ranked[index := ranked[index].(rank := index + 1)];
      index := index + 1;
    }
    forall i, j | 0 <= i < j < |ranked| ensures ranked[i].value >= ranked[j].value {
      assert !KeyLess(sorted[i], sorted[j], Value);
    }
  }

  /** The whole block: parse, then rank. */
  method ReadDataset(csvText: string, draw: nat -> Noise) returns (data: seq<Row>)
    requires WellFormed(csvText)
    ensures |data| == |Parsed(csvText, draw)|
    ensures forall i :: 0 <= i < |data| ==> data[i] == SortRows(Parsed(csvText, draw), ByValueDesc)[i].(rank := i + 1)
    ensures forall i, j :: 0 <= i < j < |data| ==> data[i].value >= data[j].value
    ensures forall i :: 0 <= i < |data| ==> data[i].rank == i + 1
  {
    var csvData := ParseRows(csvText, draw);
    data := RankRows(csvData);
  }

  /** Every record read from a CSV has clean province and year cells: no
      comma, no line break. */
  lemma ParsedRowIsClean(csvText: string, i: nat, draw: nat -> Noise)
    requires WellFormed(csvText)
    requires 1 <= i < |Rows(csvText)| && !IsBlank(Rows(csvText)[i])
    ensures Clean(RowAt(csvText, i, draw).province)
    ensures RowAt(csvText, i, draw).year.Some? ==> Clean(RowAt(csvText, i, draw).year.value)
  {
    CellIsClean(csvText, i, ColumnIndex(csvText, "province"));
    if RowAt(csvText, i, draw).year.Some? {
      CellIsClean(csvText, i, ColumnIndex(csvText, "year"));
    }
  }

  /** The province and year cells of a record hold no comma and no line break. */
  predicate CleanCells(r: Row) {
    Clean(r.province) && (r.year.Some? ==> Clean(r.year.value))
  }

  /** Every parsed record has clean province and year cells. */
  lemma ParsedIsClean(csvText: string, draw: nat -> Noise)
    requires WellFormed(csvText)
    ensures forall r :: r in Parsed(csvText, draw) ==> CleanCells(r)
  {
    var parsed := Parsed(csvText, draw);
    var kept := KeptLines(Rows(csvText), |Rows(csvText)|);
    ParsedLinesAreKeptLines(csvText, |Rows(csvText)|, draw);
    forall r | r in parsed
      ensures CleanCells(r)
    {
      var j :| 0 <= j < |parsed| && parsed[j] == r;
      ParsedRowIsClean(csvText, kept[j], draw);
    }
  }

  /** Ranking only reorders the records and rewrites their ranks, so clean
      cells stay clean. */
  lemma RankedIsClean(csvData: seq<Row>, data: seq<Row>)
    requires forall r :: r in csvData ==> CleanCells(r)
    requires |data| == |csvData|
    requires forall i :: 0 <= i < |data| ==> data[i] == SortRows(csvData, ByValueDesc)[i].(rank := i + 1)
    ensures forall r :: r in data ==> CleanCells(r)
  {
    var sorted := SortRows(csvData, ByValueDesc);
    SortRowsSpec(csvData, ByValueDesc);
    forall r | r in data
      ensures CleanCells(r)
    {
      var i :| 0 <= i < |data| && data[i] == r;
      assert sorted[i] in multiset(sorted);
      assert sorted[i] in csvData;
    }
  }

  // ---------------------------------------------------------------------
  // Simulated history

  datatype YearValue = YearValue(year: string, value: real)

  /** One province's series for the trend chart. */
  datatype History = History(province: string, values: seq<YearValue>)

  /** The seven years ending at the selected year:
      `(parseInt(selectedYear) - 6 + i).toString()`, or `"NaN"` seven
      times when the year is missing or unreadable. */
  function HistoricalYears(selectedYear: Option<string>): (years: seq<string>)
    ensures |years| == 7
  {
    var start := match selectedYear
                 case Some(y) => JsParseInt(y)
                 case None => None;
    seq(7, i => match start
                case Some(y) => IntToString(y - 6 + i)
                case None => "NaN")
  }

  /** The seven labels are consecutive years that end at the selected
      year: each reads back with `parseInt` as its year. Without a readable
      year every label is `"NaN"`. */
  lemma HistoricalYearsConsecutive(selectedYear: Option<string>)
    ensures var years := HistoricalYears(selectedYear);
      match (if selectedYear.Some? then JsParseInt(selectedYear.value) else None)
      case Some(y) =>
        forall i :: 0 <= i < 7 ==> years[i] == IntToString(y - 6 + i) && JsParseInt(years[i]) == Some(y - 6 + i)
      case None =>
        forall i :: 0 <= i < 7 ==> years[i] == "NaN"
  {
    var years := HistoricalYears(selectedYear);
    if selectedYear.Some? && JsParseInt(selectedYear.value).Some? {
      var y := JsParseInt(selectedYear.value).value;
      forall i | 0 <= i < 7
        ensures years[i] == IntToString(y - 6 + i) && JsParseInt(years[i]) == Some(y - 6 + i)
      {
        ParseIntOfIntToString(y - 6 + i);
      }
    }
  }

  /** The history of the first five ranked records: the real value in the
      year that equals `selectedYear` (with `===`), a simulated one
      (`jitter(k, j)` for province `k` and year `j`) in every other year. */
  function HistoryOf(ranked: seq<Row>, selectedYear: Option<string>, jitter: (nat, nat) -> real): seq<History> {
    var top := if |ranked| <= 5 then ranked else ranked[..5];
    var years := HistoricalYears(selectedYear);
    seq(|top|, k requires 0 <= k < |top| =>
      History(top[k].province,
              seq(7, j requires 0 <= j < 7 =>
                YearValue(years[j], if Some(years[j]) == selectedYear then top[k].value else jitter(k, j)))))
  }

  /** When the manifest's year is a plain decimal year, the history covers
      the five best-ranked provinces (or all, when fewer), the last of its
      seven years is the selected year and carries the real value, and the
      six earlier years carry simulated values. */
  lemma HistoryEndsAtSelectedYear(ranked: seq<Row>, year: nat, jitter: (nat, nat) -> real)
    ensures var h := HistoryOf(ranked, Some(NatToString(year)), jitter);
      && |h| == (if |ranked| <= 5 then |ranked| else 5)
      && forall k :: 0 <= k < |h| ==>
           && h[k].province == ranked[k].province
           && |h[k].values| == 7
           && h[k].values[6] == YearValue(NatToString(year), ranked[k].value)
           && forall j :: 0 <= j < 6 ==> h[k].values[j].value == jitter(k, j)
  {
    var selected := Some(NatToString(year));
    var years := HistoricalYears(selected);
    assert IntToString(year) == NatToString(year);
    ParseIntOfIntToString(year);
    assert years[6] == NatToString(year);
    forall j | 0 <= j < 6 ensures years[j] != NatToString(year) {
      IntToStringInjective(year - 6 + j, year);
    }
  }

  /** Without a manifest year every year reads `"NaN"` and every value is simulated. */
  lemma HistoryWithoutYear(ranked: seq<Row>, jitter: (nat, nat) -> real)
    ensures var h := HistoryOf(ranked, None, jitter);
      forall k, j :: 0 <= k < |h| && 0 <= j < 7 ==> h[k].values[j] == YearValue("NaN", jitter(k, j))
  {
  }
}
