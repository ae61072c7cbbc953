# Indonesian provincial statistics: data explorer and choropleth map

This project models the data logic of two React pages of a web app that
shows BPS (Statistics Indonesia) datasets by province. Each page reads a
naive CSV file: the text is split on line breaks, the first line is the
header, columns are found by header name, each other line is split on
commas, and blank lines are skipped.

- **Data explorer** (`src/pages/DataExplorer.js`). The page does the following:
  - parses the CSV into records;
  - ranks them by value, largest first, with ranks 1..n;
  - simulates a seven-year history for the five best provinces;
  - filters the records by a case-insensitive substring of the province name;
  - sorts them by a clicked column, ascending or descending;
  - shows one page of them;
  - exports every filtered, sorted record, on all pages, as a CSV `data:` URI named after the dataset.

  The page state (selected dataset, page, page size, tab, view mode, search
  term, sort configuration, records, history) is the class
  `ExplorerPage.Explorer`. Each handler is one of its methods.
- **Map** (`src/pages/MapPage.js`). The page does the following:
  - turns the same CSV into a dictionary from province to value, where a later line for a province overwrites an earlier one;
  - joins that dictionary onto a deep copy of the GeoJSON features, with 0 for a missing or falsy value;
  - picks a five-colour palette by the dataset's indicator;
  - colours a feature by normalising its value between the least and the greatest truthy joined value, giving one of five buckets.

  The page state is the class `MapPage.MapView`. The feature collections are arrays, and the join writes a fresh one.

The JavaScript primitives this code relies on are stated explicitly in
`JsString`:

- `split` and `join` on one character;
- `indexOf`, and indexing that yields `undefined`;
- `trim`, and the skip of leading whitespace inside `parseInt` and `parseFloat` (stated as `TrimStart`);
- ASCII `toLowerCase` and `includes`;
- `replace(/\s+/g, '_')`;
- `<` on strings, which is not Dafny's prefix order;
- the decimal subset of `parseInt` and `parseFloat`;
- number-to-string for integers.

`undefined` and `NaN` are `Option.None`.

Two behaviours of the source are stated as proved lemmas:

- **CRLF files.** A line break `"\r\n"` leaves `"\r"` in the last header name. A lookup of that column by its plain name then fails, unless the name also occurs earlier in the header (`CsvTable.CrlfHeaderHidesLastColumn`). A `"\r"` after a whole or decimal value such as `57.31` is ignored by `parseFloat` (`JsString.ParseFloatOfNatural`, `JsString.ParseFloatOfNumeral`).
- **File names.** The fetch path lower-cases the stem of the dataset's name; the download name keeps its case (`Datasets.FileNamesShareStem`).

Values are mathematical reals; randomness, fetches and float formatting are
parameters (see "Left out").

## Model

| member | source | states |
|---|---|---|
| CsvTable.Rows | src/pages/DataExplorer.js:129 | `csvText.split('\n')` has at least one line, so `rows[0]` (the header) always exists |
| CsvTable.Headers | src/pages/DataExplorer.js:130 | `rows[0].split(',')`, the header names (also MapPage.js line 174); `CrlfHeaderNames` states what a CRLF file gives |
| CsvTable.ColumnIndex | src/pages/DataExplorer.js:131-133 | `headers.indexOf(name)` (also MapPage.js lines 175-176); `IndexOf`'s contract states it is -1 exactly for a missing name and otherwise the first position, and `CrlfHeaderHidesLastColumn` what CRLF does to it |
| CsvTable.Cell | src/pages/DataExplorer.js:143-145 | `row.split(',')[index]` (also MapPage.js lines 186-187): `At`'s contract states it is defined exactly inside the columns, and `CellIsClean` that it holds no comma or line break |
| CsvTable.KeptLines | src/pages/DataExplorer.js:139-140 | the kept data lines are exactly the non-blank lines from 1 on, strictly increasing |
| CsvTable.CellIsClean | src/pages/DataExplorer.js:142-145 | a cell read from a line holds neither a comma nor a line break |
| CsvTable.CrlfHeaderLine | src/pages/DataExplorer.js:129 | for any header line without a line break, a CRLF file's first line is that header with a trailing `'\r'` |
| CsvTable.CrlfHeaderNames | src/pages/DataExplorer.js:130 | splitting a CRLF header of comma-free names gives the names, with `'\r'` appended to the last one |
| CsvTable.CrlfHeaderHidesLastColumn | src/pages/DataExplorer.js:131-133 | on any CRLF header, `indexOf` of the last name finds only an earlier occurrence (otherwise -1), and every other name is found where an LF header has it |
| CsvTable.CrlfHidesYear | src/pages/DataExplorer.js:131-133 | example: on the header `province,value,year` with CRLF line ends, `indexOf('year')` is -1 and `indexOf('value')` is 1 |
| JsString.IsSpace | src/pages/DataExplorer.js:140 | the characters `trim()` removes and `\s` matches: ECMAScript WhiteSpace and LineTerminator; `LowerCharSpace` states lower-casing keeps this set |
| JsString.IsBlank | src/pages/DataExplorer.js:140 | a line of whitespace only; `TrimEmptyIffBlank` states that `!rows[i].trim()` holds exactly for such lines |
| JsString.TrimStart | src/pages/DataExplorer.js:140 | the result is a suffix of the input, starts with no whitespace, and only whitespace was removed |
| JsString.TrimEnd | src/pages/DataExplorer.js:140 | the result is a prefix of the input, ends with no whitespace, and only whitespace was removed |
| JsString.Trim | src/pages/DataExplorer.js:140 | `trim()` removes leading and trailing whitespace; `TrimEmptyIffBlank` states that it is empty exactly for an all-whitespace line |
| JsString.TrimEmptyIffBlank | src/pages/DataExplorer.js:140 | `!line.trim()` holds exactly when every character of the line is whitespace |
| JsString.Split | src/pages/DataExplorer.js:129 | `split` always yields at least one piece |
| JsString.SplitPieces | src/pages/DataExplorer.js:142 | no piece holds the separator and every character of a piece comes from the input |
| JsString.Join | src/pages/DataExplorer.js:328 | the comma-separated template of a data line is `join(',')` of its fields; `JoinSplit` and `SplitJoin` make it the inverse of `split` on separator-free pieces |
| JsString.JoinSplit | src/pages/DataExplorer.js:129 | joining the pieces of a split gives back the text |
| JsString.SplitWithoutSeparator | src/pages/DataExplorer.js:142 | a text without the separator splits into itself |
| JsString.SplitAtFirstSeparator | src/pages/DataExplorer.js:129 | splitting `a + sep + b` cuts at that separator when `a` holds none |
| JsString.SplitJoin | src/pages/DataExplorer.js:328 | splitting a join of separator-free pieces gives back the pieces |
| JsString.IndexOf | src/pages/DataExplorer.js:131-133 | `indexOf` is -1 exactly when the name is absent; otherwise it is the first position holding it |
| JsString.At | src/pages/DataExplorer.js:143-145 | `columns[i]` is defined exactly for an index inside the array, and is then that element |
| JsString.Lower | src/pages/DataExplorer.js:198 | `toLowerCase` keeps the length and maps every character by the ASCII case map |
| JsString.LowerIsLowerCase | src/pages/DataExplorer.js:198 | the result has no upper-case ASCII letter, and lower-casing twice is lower-casing once |
| JsString.Includes | src/pages/DataExplorer.js:198 | `includes` tries every start position from the left; `IncludesIffOccurs` states it holds exactly when the term occurs somewhere |
| JsString.IncludesIffOccurs | src/pages/DataExplorer.js:198 | `includes` holds exactly when the term occurs at some position |
| JsString.IncludesEmpty | src/pages/DataExplorer.js:198 | every string includes the empty term |
| JsString.ReplaceSpaceRuns | src/pages/DataExplorer.js:335 | `replace(/\s+/g, '_')` leaves no whitespace and never lengthens the name |
| JsString.ReplaceSpaceRunsRun | src/pages/DataExplorer.js:335 | a maximal whitespace run becomes exactly one `'_'`: the whitespace-free text before it is kept in order and the rest is replaced in the same way |
| JsString.ReplaceSpaceRunsKeepsSpaceFree | src/pages/DataExplorer.js:335 | a name without whitespace is unchanged |
| JsString.ReplaceSpaceRunsIdempotent | src/pages/DataExplorer.js:335 | replacing twice is replacing once |
| JsString.TrimStartLower | src/pages/DataExplorer.js:125 | lower-casing commutes with removing leading whitespace |
| JsString.LowerCharSpace | src/pages/DataExplorer.js:125 | lower-casing neither creates nor changes whitespace |
| JsString.LowerConcat | src/pages/DataExplorer.js:125 | proof helper: lower-casing distributes over concatenation |
| JsString.LowerReplaceSpaceRunsCommute | src/pages/DataExplorer.js:125 | `replace(/\s+/g, '_').toLowerCase()` equals lower-casing first and replacing afterwards |
| JsString.JsLess | src/pages/DataExplorer.js:206-209 | string `<`: the first differing character decides and a proper prefix comes first; the four `JsLess` lemmas below state that it is a strict total order |
| JsString.JsLessIrreflexive | src/pages/DataExplorer.js:206 | no province name is `<` itself |
| JsString.JsLessTransitive | src/pages/DataExplorer.js:206 | `<` on strings is transitive |
| JsString.JsLessTrichotomy | src/pages/DataExplorer.js:206-212 | two different names are ordered one way and never both ways |
| JsString.JsLessProperPrefix | src/pages/DataExplorer.js:206 | a proper prefix is `<` the longer name |
| JsString.NatToString | src/pages/DataExplorer.js:166 | number-to-string of a natural number is a non-empty digit string without a leading zero |
| JsString.DigitRun | src/pages/DataExplorer.js:144 | the digit run read by the parsers is all digits and stops at the first non-digit |
| JsString.DigitsValueOfNatToString | src/pages/DataExplorer.js:166 | the digits of a number read back as that number |
| JsString.DigitRunOfDigits | src/pages/DataExplorer.js:144 | the parsers read all digits of a digit string followed by a non-digit |
| JsString.FractionDigits | src/pages/DataExplorer.js:144 | the fraction digits `parseFloat` reads after a point are all digits |
| JsString.FractionValue | src/pages/DataExplorer.js:144 | the value of the fraction digits lies in [0, 1) |
| JsString.ParsersSkipLeadingSpace | src/pages/DataExplorer.js:231 | `parseInt` and `parseFloat` read what `trimStart()` leaves |
| JsString.LeadingDigit | src/pages/DataExplorer.js:144 | proof helper: a text starting with a digit has no leading whitespace or sign |
| JsString.ParseDigitsOfNat | src/pages/DataExplorer.js:166 | reading a number's decimal form back yields the number |
| JsString.UnsignedNatString | src/pages/DataExplorer.js:166 | the decimal form of a number or of its negation starts with no whitespace, reads as the number's digits once a sign is skipped, and starts with `'-'` exactly in the negated form |
| JsString.IntToString | src/pages/DataExplorer.js:166 | `(n).toString()` of an integer: a minus sign for negatives, then the decimal digits of the magnitude; `UnsignedNatString`, `ParseIntOfIntToString` and `IntToStringInjective` state its digits, its read-back and its injectivity |
| JsString.JsParseInt | src/pages/DataExplorer.js:166 | `parseInt`: skips leading whitespace, reads an optional sign and the leading digits, and is NaN (`None`) without digits; `ParsersSkipLeadingSpace` and `ParseIntOfIntToString` state its behaviour |
| JsString.ParseIntOfIntToString | src/pages/DataExplorer.js:166 | `parseInt(x.toString())` is `x` for every integer |
| JsString.IntToStringInjective | src/pages/DataExplorer.js:166 | different years have different decimal forms |
| JsString.JsParseFloat | src/pages/DataExplorer.js:144 | `parseFloat` on decimal numerals: skips leading whitespace, reads an optional sign, digits and an optional fraction, and is NaN (`None`) without digits; `ParsersSkipLeadingSpace`, `ParseFloatOfNatural` and `ParseFloatOfNumeral` state what it reads |
| JsString.ParseFloatOfNatural | src/pages/DataExplorer.js:144 | `parseFloat` reads a whole number and ignores a rest that does not start with a digit or `'.'`, such as a trailing `'\r'`; a rest starting with `e` or `E` is an exponent in JavaScript, which the model does not read (see `JsString.JsParseFloat` under Left out) |
| JsString.ParseFloatOfNumeral | src/pages/DataExplorer.js:144 | `parseFloat` reads a decimal numeral `d.f` as its integer digits plus its fraction, and ignores a rest that does not start with a digit, such as a trailing `'\r'`; a rest starting with `e` or `E` is an exponent in JavaScript, which the model does not read (see `JsString.JsParseFloat` under Left out) |
| Datasets.FindIndex | src/pages/DataExplorer.js:321 | `find` looks at the first entry with the id, and at none exactly when no entry has it |
| Datasets.FindDataset | src/pages/DataExplorer.js:321 | `datasets.find(d => d.id === id)` is `undefined` exactly when no entry has the id, otherwise the first such entry |
| Datasets.CsvPath | src/pages/DataExplorer.js:125 | the fetch path `./data/bps/<id>_<stem>.csv` (also MapPage.js line 169), with the whitespace-free, lower-cased stem of the dataset's name, or `undefined` when no entry has the id; `FileNamesShareStem` states it |
| Datasets.DownloadName | src/pages/DataExplorer.js:335 | the download name `<stem>_<year>.csv` with the whitespace-free stem, not lower-cased; `FileNamesShareStem` states it |
| Datasets.FileNamesShareStem | src/pages/DataExplorer.js:125 | the first two conjuncts only unfold `CsvPath` and `DownloadName` for a present id; what the lemma adds is that the shared stem `name.replace(/\s+/g, '_')` is whitespace-free, also once lower-cased, and that lower-casing and the replacement commute |
| RowOrder.KeyLess | src/pages/DataExplorer.js:206-209 | `a[key] < b[key]`: string `<` on the province, numeric `<` on value and rank; `KeyOrder` states that it is a strict total order |
| RowOrder.Compare | src/pages/DataExplorer.js:205-213 | the comparator: -1 or 1 by the direction when the keys are ordered, 0 otherwise; `CompareProperties` and `CompareTransitive` state that it is consistent |
| RowOrder.KeyOrder | src/pages/DataExplorer.js:206-212 | the key order is a strict total order whose incomparable pairs have equal keys |
| RowOrder.CompareProperties | src/pages/DataExplorer.js:205-213 | the comparator is antisymmetric and is 0 exactly on equal keys |
| RowOrder.CompareTransitive | src/pages/DataExplorer.js:205-213 | "not after" under the comparator is transitive |
| RowOrder.RankingComparator | src/pages/DataExplorer.js:159 | `b.value - a.value` has the sign of the value/descending comparator |
| RowOrder.Insert | src/pages/DataExplorer.js:205 | one insertion step adds exactly one element |
| RowOrder.SortRows | src/pages/DataExplorer.js:205 | the sort keeps the length |
| RowOrder.InsertPermutes | src/pages/DataExplorer.js:205 | one insertion adds exactly the inserted record |
| RowOrder.InsertKeepsSorted | src/pages/DataExplorer.js:205-213 | inserting into a sorted sequence keeps it sorted |
| RowOrder.AppendKeepsSorted | src/pages/DataExplorer.js:205-213 | appending an element no element compares after keeps a sequence sorted |
| RowOrder.InsertKeepsGroups | src/pages/DataExplorer.js:212 | inserting a record appends it to its group of equal keys and leaves the other groups alone |
| RowOrder.SortPermutes | src/pages/DataExplorer.js:203-205 | the sorted copy is a permutation of the input |
| RowOrder.SortSorts | src/pages/DataExplorer.js:205-213 | the sorted copy is ordered by the comparator |
| RowOrder.SortIsStable | src/pages/DataExplorer.js:212 | records with equal keys keep their input order |
| RowOrder.SortRowsSpec | src/pages/DataExplorer.js:202-216 | `sortedData` is a permutation, non-decreasing on the key for `asc`, non-increasing for `desc`, stable on equal keys |
| ExplorerParse.WellFormed | src/pages/DataExplorer.js:139-156 | every non-blank data line has a province cell and a value cell that `parseFloat` reads; the requirement listed under Left out, and `LineColumns` states what it gives |
| ExplorerParse.RowAt | src/pages/DataExplorer.js:142-155 | the record pushed for line `i`: the raw province and year cells, `parseFloat` of the value cell, the line's draws and the provisional rank `i`; `ParsedRowIsClean` states its cells are clean |
| ExplorerParse.ParsedLines | src/pages/DataExplorer.js:139-156 | the records the loop has pushed after lines `[1, hi)`; `ParsedLinesStep` and `ParsedLinesAreKeptLines` state one record per non-blank line, in order |
| ExplorerParse.Parsed | src/pages/DataExplorer.js:139-156 | the records of the whole loop; `ParsedLinesAreKeptLines` states that record `j` is the record of the `j`-th non-blank data line |
| ExplorerParse.ParsedLinesAreKeptLines | src/pages/DataExplorer.js:139-156 | the parse yields exactly one record per non-blank data line, in line order |
| ExplorerParse.ParseRows | src/pages/DataExplorer.js:129-156 | the parsing loop builds exactly the parse of the whole file: one record per non-blank data line |
| ExplorerParse.ParsedLinesStep | src/pages/DataExplorer.js:140-155 | one more line adds nothing when blank and its record otherwise |
| ExplorerParse.LineColumns | src/pages/DataExplorer.js:142-144 | a kept line of a well-formed file has its province and value cells, and the value parses |
| ExplorerParse.RankRows | src/pages/DataExplorer.js:158-162 | the ranked records are the stable value-descending sort of the input, values non-increasing, and `rank` is position + 1 |
| ExplorerParse.ReadDataset | src/pages/DataExplorer.js:129-162 | loading a CSV yields one ranked record per non-blank line, in the value-descending order |
| ExplorerParse.ParsedRowIsClean | src/pages/DataExplorer.js:143-145 | a parsed record's province and year hold neither a comma nor a line break |
| ExplorerParse.ParsedIsClean | src/pages/DataExplorer.js:139-156 | every parsed record's province and year hold no comma or line break |
| ExplorerParse.RankedIsClean | src/pages/DataExplorer.js:158-162 | ranking only reorders the records and rewrites their ranks, so clean province and year cells stay clean |
| ExplorerParse.HistoricalYears | src/pages/DataExplorer.js:166 | the history always covers seven years |
| ExplorerParse.HistoricalYearsConsecutive | src/pages/DataExplorer.js:165-166 | the seven labels are the years `parseInt(selectedYear) - 6` to `parseInt(selectedYear)`, each reading back as its year, or `"NaN"` seven times when the year is missing or does not parse |
| ExplorerParse.HistoryOf | src/pages/DataExplorer.js:167-182 | the five best-ranked records (or all, when fewer), each with seven year values; `HistoryEndsAtSelectedYear` and `HistoryWithoutYear` state which are real and which simulated |
| ExplorerParse.HistoryEndsAtSelectedYear | src/pages/DataExplorer.js:165-182 | for a decimal year the history covers the top five (or fewer) records, ends at the selected year with the real value, and simulates the six earlier years |
| ExplorerParse.HistoryWithoutYear | src/pages/DataExplorer.js:165-182 | without a manifest year every history year is `"NaN"` and every value simulated |
| ExplorerTable.Matches | src/pages/DataExplorer.js:198 | the filter test `province.toLowerCase().includes(term.toLowerCase())`; `FilterIgnoresCase` and `FilterEmptyTerm` state its case-insensitivity and that the empty term matches all |
| ExplorerTable.FilterRows | src/pages/DataExplorer.js:197-199 | the filter never adds records |
| ExplorerTable.FilterKeepsMatches | src/pages/DataExplorer.js:197-199 | a record is kept exactly when it is in the data and its lower-cased province includes the lower-cased term, as often as it occurs |
| ExplorerTable.FilterKeepsOrder | src/pages/DataExplorer.js:197-199 | the filtered records are a subsequence of the data |
| ExplorerTable.FilterEmptyTerm | src/pages/DataExplorer.js:197-199 | an empty search keeps every record |
| ExplorerTable.FilterIgnoresCase | src/pages/DataExplorer.js:198 | the case of the term does not matter, and filtering twice is filtering once |
| ExplorerTable.Slice | src/pages/DataExplorer.js:912 | `slice` clamps both bounds to the length and keeps the elements in place |
| ExplorerTable.PageSlice | src/pages/DataExplorer.js:911-912 | a page has at most `rowsPerPage` rows, holds row `page * rowsPerPage + i` at `i`, is full when the data reaches its end, and is empty past the end |
| ExplorerTable.Clamp | src/pages/DataExplorer.js:912 | a clamped bound is at most the length and the bound, and equals one of them |
| ExplorerTable.PagesCover | src/pages/DataExplorer.js:1071-1072 | the first `n` pages show the first `n * rowsPerPage` rows, each once and in order |
| ExplorerTable.PagesStep | src/pages/DataExplorer.js:1071-1072 | page `n - 1` continues exactly where the first `n - 1` pages end |
| ExplorerTable.PageSliceRange | src/pages/DataExplorer.js:912 | a page is the stretch between its clamped start and end |
| ExplorerTable.RowOnItsPage | src/pages/DataExplorer.js:911-912 | with a positive page size row `i` is shown on page `i / rowsPerPage` at position `i % rowsPerPage` |
| ExplorerTable.NextSortConfig | src/pages/DataExplorer.js:254-260 | a click sets the key, and the direction is `desc` exactly when the table was ascending by that key |
| ExplorerTable.SortedView | src/pages/DataExplorer.js:197-216 | `sortedData`: a sorted copy of the filtered records; `SortedViewSpec` states its contents, order and stability |
| ExplorerTable.SortedViewSpec | src/pages/DataExplorer.js:197-216 | the table holds every matching record as often as the data does, ordered by the key in the configured direction, stable on equal keys |
| ExplorerTable.SortedViewMembers | src/pages/DataExplorer.js:197-216 | every record of `sortedData` is a record of the data whose province matches the term |
| ExplorerTable.PageMembers | src/pages/DataExplorer.js:912 | proof helper: a page holds only records of the paged sequence |
| ExplorerTable.PageOfView | src/pages/DataExplorer.js:911-912 | a page of `sortedData` holds only matching records of the data |
| ExplorerTable.ClicksAlternate | src/pages/DataExplorer.js:254-260 | repeated clicks on one header alternate the direction, starting with `asc` unless the table was already ascending by it |
| ExplorerExport.TrendWord | src/pages/DataExplorer.js:328 | `item.trend === 'up' ? 'Naik' : 'Turun'`; `FieldsAreClean` states the word holds no comma or line break |
| ExplorerExport.YearText | src/pages/DataExplorer.js:328 | the template literal writes a year cell as it is and a missing year as `undefined`; `FieldsAreClean` states it is clean for an exportable record |
| ExplorerExport.Fields | src/pages/DataExplorer.js:328 | each exported record has six fields |
| ExplorerExport.Line | src/pages/DataExplorer.js:328 | one record's data line, its six fields joined by commas; `LineRoundTrip` states that it splits back into them |
| ExplorerExport.Body | src/pages/DataExplorer.js:327-329 | the data lines, each followed by a line break; `BodyAppend` and `BodyRoundTrip` state how it grows and that it splits back |
| ExplorerExport.CsvText | src/pages/DataExplorer.js:325-329 | the header line, a line break and the body; `CsvTextLines` and `CsvTextRoundTrip` state its lines and read-back |
| ExplorerExport.Content | src/pages/DataExplorer.js:324-329 | the `data:` prefix followed by the CSV text; `ContentIsDataUri` states it |
| ExplorerExport.BodyAppend | src/pages/DataExplorer.js:327-329 | appending a record appends its line and a line break |
| JsString.JoinAvoids | src/pages/DataExplorer.js:328 | a join of comma- and break-free fields holds no line break |
| ExplorerExport.FieldsAreClean | src/pages/DataExplorer.js:328 | the fields of an exportable record hold neither a comma nor a line break |
| ExplorerExport.LineRoundTrip | src/pages/DataExplorer.js:328 | splitting a data line on commas gives back its six fields, in header order |
| ExplorerExport.BodyRoundTrip | src/pages/DataExplorer.js:327-329 | splitting the body on line breaks gives the data lines, in order, and a last empty piece |
| ExplorerExport.HeaderRoundTrip | src/pages/DataExplorer.js:325 | the header line splits into the six column names and holds no line break |
| ExplorerExport.HeaderNamesClean | src/pages/DataExplorer.js:325 | no column name holds a comma or a line break |
| ExplorerExport.CsvTextLines | src/pages/DataExplorer.js:325-329 | the lines of the CSV are the header line, one line per record, and an empty piece |
| ExplorerExport.CsvTextRoundTrip | src/pages/DataExplorer.js:324-329 | the file reads back as the header names, then the six fields of each shown record in order, then an empty line |
| ExplorerExport.ContentIsDataUri | src/pages/DataExplorer.js:324 | the link content is the `data:` prefix followed by the CSV text |
| ExplorerPage.Explorer.constructor | src/pages/DataExplorer.js:71-82 | the initial state of every piece of page state |
| ExplorerPage.Explorer.SortedData | src/pages/DataExplorer.js:202-216 | `sortedData` for the current state; `SortedViewSpec` states its contents and order |
| ExplorerPage.Explorer.DisplayedRows | src/pages/DataExplorer.js:911-912 | the rendered page `sortedData.slice(page * rowsPerPage, page * rowsPerPage + rowsPerPage)`; `PageSlice` and `DisplayedRowsMatch` state its contents |
| ExplorerPage.Explorer.LoadDatasets | src/pages/DataExplorer.js:86-98 | the manifest replaces `datasets`; a failed fetch changes nothing |
| ExplorerPage.Explorer.LoadProvinces | src/pages/DataExplorer.js:101-114 | the provinces are the features' `state` values; a failed fetch changes nothing |
| ExplorerPage.Explorer.LoadSelectedDataset | src/pages/DataExplorer.js:117-194 | with a dataset and provinces, the records become the ranked parse of the fetched CSV and the history is that of the top five; otherwise nothing changes |
| ExplorerPage.Explorer.DatasetChange | src/pages/DataExplorer.js:219-222 | sets the dataset and resets the page, touching nothing else |
| ExplorerPage.Explorer.ChangePage | src/pages/DataExplorer.js:225-227 | sets the page and nothing else |
| ExplorerPage.Explorer.ChangeRowsPerPage | src/pages/DataExplorer.js:230-233 | the page size becomes `parseInt(value, 10)` and the page resets to 0 |
| ExplorerPage.Explorer.TabChange | src/pages/DataExplorer.js:236-238 | sets the tab and nothing else |
| ExplorerPage.Explorer.ViewModeChange | src/pages/DataExplorer.js:241-245 | a `null` mode keeps the view mode, any other mode replaces it |
| ExplorerPage.Explorer.Search | src/pages/DataExplorer.js:248-251 | sets the search term and resets the page |
| ExplorerPage.Explorer.RequestSort | src/pages/DataExplorer.js:254-260 | the sort configuration becomes the toggled one |
| ExplorerPage.Explorer.Refresh | src/pages/DataExplorer.js:263-315 | with a dataset selected the records become the ranked parse of the fetched CSV; the history and the page stay |
| ExplorerPage.Explorer.DownloadData | src/pages/DataExplorer.js:318-341 | nothing without a dataset or data; a `TypeError` when the id is not in the manifest; otherwise the file named `<stem>_<year>.csv` whose content is the CSV of every shown record |
| ExplorerPage.AppendLine | src/pages/DataExplorer.js:327-329 | one pass of the export loop appends one record's line |
| ExplorerPage.ContentOfBody | src/pages/DataExplorer.js:324-329 | the accumulated content is the prefix, the header line and the body |
| ExplorerPage.DisplayedRowsMatch | src/pages/DataExplorer.js:911-912 | the rendered rows are at most one page, and each is a record of the data whose province matches the search term |
| ExplorerPage.LoadedExportRoundTrip | src/pages/DataExplorer.js:318-329 | after a well-formed CSV is loaded, the export of every filtered, sorted record reads back as the header names and each record's six fields, assuming only that `fmt` writes no comma or line break |
| ExplorerPage.SelectedYear | src/pages/DataExplorer.js:165 | the selected year is defined exactly when the id is in the manifest, and is then that entry's year |
| MapJoin.Key | src/pages/MapPage.js:189 | a defined province name is its own dictionary key |
| MapJoin.LineKey | src/pages/MapPage.js:186 | the dictionary key line `i` writes: its province cell, or `"undefined"` when missing; `LineSetsItsKey` and `LastLineWins` state its effect |
| MapJoin.LineValue | src/pages/MapPage.js:187 | the value line `i` writes: `parseFloat` of its value cell, NaN (`None`) when missing; `LineSetsItsKey` and `LastLineWins` state its effect |
| MapJoin.ValuesUpTo | src/pages/MapPage.js:179-190 | the dictionary after lines `[1, hi)`; `ValuesUpToStep`, `KeysAreNamedProvinces` and `LastLineWins` state its keys and values |
| MapJoin.ProvinceValuesOf | src/pages/MapPage.js:179-190 | the dictionary the whole loop builds; `KeysAreNamedProvinces` and `LastLineWins` state its keys and values |
| MapJoin.ProvinceValues | src/pages/MapPage.js:173-190 | the dictionary loop builds exactly the dictionary of the non-blank lines, in line order |
| MapJoin.ReadLine | src/pages/MapPage.js:185-187 | the loop body's split and cell reads for line `i` give exactly the key and value the specification assigns that line |
| MapJoin.ValuesUpToStep | src/pages/MapPage.js:182-190 | a blank line leaves the dictionary alone; another line sets its province's entry |
| MapJoin.KeysAreNamedProvinces | src/pages/MapPage.js:182-190 | the dictionary has a key exactly for the provinces some non-blank data line names |
| MapJoin.LastLineWins | src/pages/MapPage.js:189 | a province's value is that of the last non-blank line naming it |
| MapJoin.LineSetsItsKey | src/pages/MapPage.js:189 | a non-blank line sets its province's entry to its value |
| MapJoin.LineForOtherKey | src/pages/MapPage.js:189 | a line for another province leaves an entry unchanged |
| MapJoin.JoinedValue | src/pages/MapPage.js:196 | `provinceData[state] || 0` is non-zero exactly when the entry is a non-zero number, and is then that number |
| MapJoin.JoinValues | src/pages/MapPage.js:193-197 | the join writes a fresh copy of the same length and order, each feature with its joined value; the original is untouched |
| MapColor.SelectedIndicator | src/pages/MapPage.js:215-216 | `datasets.find(...)?.indicator`: the indicator of the selected entry, undefined when no entry has the id; `ColorScale` states the palette it selects |
| MapColor.Palette | src/pages/MapPage.js:216-231 | five colours, and the default palette for a missing or unknown indicator |
| MapColor.ColorScale | src/pages/MapPage.js:212-231 | five colours: five times `#3a7bd5` without a dataset, otherwise the palette of the dataset's indicator |
| MapColor.LegendColorScale | src/pages/MapPage.js:438-458 | the legend's colours are the map's colours for every state |
| MapColor.Truthy | src/pages/MapPage.js:235-246 | a value is truthy when it is defined and not 0 (NaN is `None`); `RangeIsMinMax` and `JoinedValueBucket` state the range and colours over the truthy values |
| MapColor.Min | src/pages/MapPage.js:247 | `Math.min` of two numbers: at most both, and one of them |
| MapColor.Max | src/pages/MapPage.js:248 | `Math.max` of two numbers: at least both, and one of them |
| MapColor.Range | src/pages/MapPage.js:241-251 | when defined, `min <= max` |
| MapColor.RangeIsMinMax | src/pages/MapPage.js:241-251 | the range is the least and the greatest truthy value, and undefined exactly when no value is truthy |
| MapColor.ValueRange | src/pages/MapPage.js:244-251 | the `forEach` over the joined collection computes that range |
| MapColor.Bucket | src/pages/MapPage.js:254-257 | the index is at most 4, non-negative exactly from `min` on, 0 at `min`, 4 from `max` on when `min < max` |
| MapColor.MultiplyByPositive | src/pages/MapPage.js:254 | proof helper: scaling by the positive divisor keeps the order |
| MapColor.DivideByPositive | src/pages/MapPage.js:254 | proof helper: dividing by the positive divisor keeps the sign and maps the divisor to 1 |
| MapColor.DivideMonotone | src/pages/MapPage.js:254 | proof helper: normalisation keeps the order |
| MapColor.ScaleByFifth | src/pages/MapPage.js:257 | proof helper: a fifth of a product is a product with a fifth |
| MapColor.BucketMonotone | src/pages/MapPage.js:254-257 | a larger value never falls in a lower bucket |
| MapColor.BucketThresholds | src/pages/MapPage.js:254-257 | a value reaches bucket `k` exactly when it is at least `min + k * (max - min) / 5` |
| MapColor.JoinedValueBucket | src/pages/MapPage.js:241-257 | every truthy joined value gets an index in 0..4, the least 0, the greatest 4 (or 0 when all are equal) |
| MapPage.EffectiveMaxZoom | src/pages/MapPage.js:61 | `maxZoom || 19`: the provider's limit, or 19 when it has none |
| MapPage.ProviderZoomLimits | src/pages/MapPage.js:84-125 | every offered provider sets its limit: 17 for OpenTopoMap and 19 for the others |
| MapPage.MapView.constructor | src/pages/MapPage.js:72-128 | the initial state: drawer open except on small screens, opacity 0.7, legend open, first provider selected |
| MapPage.MapView.ToggleDrawer | src/pages/MapPage.js:423-425 | flips the drawer and changes nothing else |
| MapPage.MapView.DatasetChange | src/pages/MapPage.js:411-413 | sets the dataset and nothing else |
| MapPage.MapView.OpacityChange | src/pages/MapPage.js:415-417 | sets the opacity and nothing else |
| MapPage.MapView.TileProviderChange | src/pages/MapPage.js:419-421 | sets the provider and nothing else |
| MapPage.MapView.LoadDatasets | src/pages/MapPage.js:148-160 | the manifest replaces `datasets`; a failed fetch changes nothing |
| MapPage.MapView.LoadGeoJson | src/pages/MapPage.js:131-145 | the collection replaces `geojsonData`; a failed fetch changes nothing |
| MapPage.MapView.LoadDatasetValues | src/pages/MapPage.js:163-207 | with a dataset and GeoJSON, the joined collection is a fresh copy carrying the dictionary's values; otherwise nothing changes |
| MapPage.MapView.GetColor | src/pages/MapPage.js:234-260 | `colors[0]` without a dataset or for a falsy value; otherwise the palette colour of the value's bucket, `undefined` below `min` or when no joined value is truthy |

## Left out

- Fetching, JSON decoding and effect scheduling: every fetch is a parameter `fetch` from a path to `Some(text)`, or to `None` when the request throws, and decoded JSON is a parameter of the loading methods. The loading flag `isLoading` is not modelled.
- `Math.random()`: the draws for a line's `trend` and `change` are the parameter `draw`, indexed by line number. The simulated history values are the parameter `jitter`. `toFixed(2)` on those draws is not modelled.
- Number-to-string of the exported values and changes is the parameter `fmt`. Ranks and years use the integer conversion that is modelled.
- JsString.JsParseInt: models `parseInt(s, 10)`. DataExplorer.js line 166 calls `parseInt(selectedYear)` without a radix, and JavaScript then reads a `0x` or `0X` prefix after the sign as hexadecimal: `parseInt("0x7E4")` is 2020 there and 0 here, so the history labels would differ. For a year written in decimal digits, such as `"2023"`, the two agree.
- JsString.JsParseFloat: reads decimal numerals with an optional sign and fraction, and stops before an exponent. A numeral with an exponent therefore reads as its mantissa: `parseFloat("1e3")` is 1 here and 1000 in JavaScript. `"Infinity"` reads as `NaN` (`None`) here. `WellFormed` does not exclude such cells. IEEE rounding is not modelled; values are mathematical reals.
- `toLowerCase` covers ASCII letters only; the rest of Unicode case mapping is not modelled.
- String `<` compares code points here, and JavaScript compares UTF-16 code units; the two differ only for characters outside the Basic Multilingual Plane.
- ExplorerParse.ParseRows, ExplorerParse.RowAt, ExplorerParse.Parsed, ExplorerParse.ReadDataset, ExplorerPage.Explorer.LoadSelectedDataset, ExplorerPage.Explorer.Refresh: require `WellFormed`, that every non-blank line has a province and a parseable value. The source's loop keeps such lines: a line without a value cell gets the value NaN, and one without a province cell gets the province `undefined`. Without a province cell the filter throws on `undefined.toLowerCase()`. A `NaN` value makes the ranking comparator inconsistent, and `Array.prototype.sort` then gives an implementation-defined order.
- ExplorerPage.Explorer.ChangeRowsPerPage: requires a positive `parseInt` of the option's value. The page-size selector only offers 5, 10, 25 or 6, 12, 24.
- `encodeURI` and the download link in the DOM: the model returns the file name and the unencoded content.
- Dictionary keys that clash with object prototype properties (`__proto__`) are not modelled; the dictionary is a plain map.
- GeoJSON geometry and every feature property other than `state` and `value` are not modelled.
- The tile providers' attribution, icon and colour are not modelled, and neither are Leaflet, Chart.js, Framer Motion or MUI.
- The info panel and hover state (`activeRegion`, `showInfoPanel`) are not modelled.
- The map renders the GeoJSON layer from `geojsonData` (src/pages/MapPage.js:1065), not from the joined collection. `GetColor` models the colour function as written, over a given feature and the joined collection; what reaches the screen is not modelled.
- The other pages, the layout components, the theme toggle in `src/App.js` and the scraping script are not part of this model.
