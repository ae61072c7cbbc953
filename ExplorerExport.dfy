/** The CSV the data explorer offers for download: a `data:` URI prefix, a
    fixed Indonesian header line, and one comma-separated line per shown
    record, each ending in a line break. Numbers go through JavaScript's
    number-to-string, which is the parameter `fmt` here. */
module ExplorerExport {
  import opened Wrappers
  import opened JsString
  import opened CsvTable
  import opened RowOrder

  /** The outcome of the download handler: nothing (no dataset selected or
      no data), a `TypeError` (the selected id is not in the manifest), or
      a file with its name and the content of its link. */
  datatype Export = Skipped | Failed | File(fileName: string, content: string)

  const DataUriPrefix := "data:text/csv;charset=utf-8,"

  /** The column names of the downloaded file, in order. */
  const HeaderNames: seq<string> := ["Provinsi", "Nilai", "Tahun", "Trend", "Perubahan", "Peringkat"]

  /** `"Provinsi,Nilai,Tahun,Trend,Perubahan,Peringkat"`. */
  const HeaderLine := Join(HeaderNames, ',')

  /** `item.trend === 'up' ? 'Naik' : 'Turun'`. */
  function TrendWord(t: Trend): string {
    if t == Up then "Naik" else "Turun"
  }

  /** A template literal writes a missing year as `undefined`. */
  function YearText(year: Option<string>): string {
    match year
    case Some(y) => y
    case None => "undefined"
  }

  /** The six fields written for a record, in header order. */
  function Fields(r: Row, fmt: real -> string): (fields: seq<string>)
    ensures |fields| == 6
  {
    [r.province, fmt(r.value), YearText(r.year), TrendWord(r.trend), fmt(r.change), NatToString(r.rank)]
  }

  /** One data line, without its line break. */
  function Line(r: Row, fmt: real -> string): string {
    Join(Fields(r, fmt), ',')
  }

  /** The data lines, each followed by `'\n'`. */
  function Body(rows: seq<Row>, fmt: real -> string): string
    decreases |rows|
  {
    if rows == [] then "" else Line(rows[0], fmt) + "\n" + Body(rows[1..], fmt)
  }

  /** The CSV text: the header line, then the data lines. */
  function CsvText(rows: seq<Row>, fmt: real -> string): string {
    HeaderLine + "\n" + Body(rows, fmt)
  }

  /** The content of the download link, before `encodeURI`. */
  function Content(rows: seq<Row>, fmt: real -> string): string {
    DataUriPrefix + CsvText(rows, fmt)
  }

  /** Appending a record appends its line: the body the handler's loop
      builds one record at a time. */
  lemma {:induction false} BodyAppend(rows: seq<Row>, r: Row, fmt: real -> string)
    ensures Body(rows + [r], fmt) == Body(rows, fmt) + Line(r, fmt) + "\n"
    decreases |rows|
  {
    if rows == [] {
      assert Body([r], fmt) == Line(r, fmt) + "\n" + Body([], fmt);
    } else {
      assert (rows + [r])[1..] == rows[1..] + [r];
      BodyAppend(rows[1..], r, fmt);
    }
  }

  /** A record the export writes unambiguously: no field holds a comma or a
      line break. Province and year cells read from a CSV are always so;
      the numbers depend on `fmt`. */
  predicate Exportable(r: Row, fmt: real -> string) {
    && Clean(r.province)
    && (r.year.Some? ==> Clean(r.year.value))
    && Clean(fmt(r.value))
    && Clean(fmt(r.change))
  }

  /** Every field of an exportable record is clean. */
  lemma FieldsAreClean(r: Row, fmt: real -> string)
    requires Exportable(r, fmt)
    ensures forall k :: 0 <= k < 6 ==> Clean(Fields(r, fmt)[k])
  {
    var digits := NatToString(r.rank);
    forall i | 0 <= i < |digits| ensures digits[i] != ',' && digits[i] != '\n' {
      assert IsDigit(digits[i]);
    }
  }

  /** Splitting a data line on commas gives back its six fields. */
  lemma LineRoundTrip(r: Row, fmt: real -> string)
    requires Exportable(r, fmt)
    ensures Split(Line(r, fmt), ',') == Fields(r, fmt)
    ensures '\n' !in Line(r, fmt)
  {
    FieldsAreClean(r, fmt);
    SplitJoin(Fields(r, fmt), ',');
    JoinAvoids(Fields(r, fmt), ',', '\n');
  }

  /** Splitting the body on line breaks gives the data lines and a final
      empty piece after the last break. */
  lemma {:induction false} BodyRoundTrip(rows: seq<Row>, fmt: real -> string)
    requires forall i :: 0 <= i < |rows| ==> Exportable(rows[i], fmt)
    ensures Split(Body(rows, fmt), '\n') == seq(|rows|, i requires 0 <= i < |rows| => Line(rows[i], fmt)) + [""]
    decreases |rows|
  {
    if rows != [] {
      LineRoundTrip(rows[0], fmt);
      BodyRoundTrip(rows[1..], fmt);
      SplitAtFirstSeparator(Line(rows[0], fmt), '\n', Body(rows[1..], fmt));
    }
  }

  /** The header line splits back into the six column names and holds no line break. */
  lemma HeaderRoundTrip()
    ensures Split(HeaderLine, ',') == HeaderNames
    ensures '\n' !in HeaderLine
  {
    HeaderNamesClean();
    JoinAvoids(HeaderNames, ',', '\n');
    SplitJoin(HeaderNames, ',');
  }

  /** No column name holds a comma or a line break. */
  lemma HeaderNamesClean()
    ensures forall k :: 0 <= k < |HeaderNames| ==> Clean(HeaderNames[k])
  {
    assert Clean("Provinsi") && Clean("Nilai") && Clean("Tahun");
    assert Clean("Trend") && Clean("Perubahan") && Clean("Peringkat");
  }

  /** The lines of the CSV text: the header line, the data lines, and the
      empty piece after the final break. */
  lemma CsvTextLines(rows: seq<Row>, fmt: real -> string)
    requires forall i :: 0 <= i < |rows| ==> Exportable(rows[i], fmt)
    ensures Split(CsvText(rows, fmt), '\n')
         == [HeaderLine] + seq(|rows|, i requires 0 <= i < |rows| => Line(rows[i], fmt)) + [""]
  {
    HeaderRoundTrip();
    BodyRoundTrip(rows, fmt);
    assert CsvText(rows, fmt) == HeaderLine + ['\n'] + Body(rows, fmt);
    SplitAtFirstSeparator(HeaderLine, '\n', Body(rows, fmt));
  }

  /** What the downloaded file reads as CSV: line 0 is the six header
      names, line `i + 1` holds the six fields of record `i`, and a last
      empty line follows the final break. */
  lemma CsvTextRoundTrip(rows: seq<Row>, fmt: real -> string)
    requires forall i :: 0 <= i < |rows| ==> Exportable(rows[i], fmt)
    ensures var lines := Split(CsvText(rows, fmt), '\n');
      && |lines| == |rows| + 2
      && Split(lines[0], ',') == HeaderNames
      && (forall i :: 0 <= i < |rows| ==> Split(lines[i + 1], ',') == Fields(rows[i], fmt))
      && lines[|rows| + 1] == ""
  {
    var lines := Split(CsvText(rows, fmt), '\n');
    CsvTextLines(rows, fmt);
    HeaderRoundTrip();
    forall i | 0 <= i < |rows| ensures Split(lines[i + 1], ',') == Fields(rows[i], fmt) {
      assert lines[i + 1] == Line(rows[i], fmt);
      LineRoundTrip(rows[i], fmt);
    }
  }

  /** The link's content is the URI prefix followed by that CSV text. */
  lemma ContentIsDataUri(rows: seq<Row>, fmt: real -> string)
    ensures |Content(rows, fmt)| > |DataUriPrefix|
    ensures Content(rows, fmt)[..|DataUriPrefix|] == DataUriPrefix
    ensures Content(rows, fmt)[|DataUriPrefix|..] == CsvText(rows, fmt)
  {
  }
}
