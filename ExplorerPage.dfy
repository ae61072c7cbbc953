/** The data explorer page's state and its handlers. Each piece of React
    state is a field; each handler is a method that sets the fields its
    setters set. Fetches are parameters: `fetch` maps a path to the text it
    returns, or to `None` when the request fails (the handler's `catch`). */
module ExplorerPage {
  import opened Wrappers
  import opened JsString
  import opened CsvTable
  import opened RowOrder
  import opened Datasets
  import opened ExplorerParse
  import opened ExplorerTable
  import opened ExplorerExport

  class Explorer {
    var selectedDataset: string
    var datasets: seq<Descriptor>
    var provinces: seq<string>
    var data: seq<Row>
    var historyData: seq<History>
    var page: nat
    var rowsPerPage: nat
    var tabValue: nat
    var viewMode: string
    var searchTerm: string
    var sortConfig: SortConfig

    /** The initial state of every `useState`. */
    constructor ()
      ensures selectedDataset == "" && datasets == [] && provinces == []
      ensures data == [] && historyData == []
      ensures page == 0 && rowsPerPage == 10 && tabValue == 0
      ensures viewMode == "grid" && searchTerm == ""
      ensures sortConfig == SortConfig(Province, Asc)
    {
      selectedDataset := "";
      datasets := [];
      provinces := [];
      data := [];
      historyData := [];
      page := 0;
      rowsPerPage := 10;
      tabValue := 0;
      viewMode := "grid";
      searchTerm := "";
      sortConfig := SortConfig(Province, Asc);
    }

    /** `sortedData` for the current state. */
    function SortedData(): seq<Row>
      reads this
    {
      SortedView(data, searchTerm, sortConfig)
    }

    /** The rows the table and the cards render: one page of `sortedData`. */
    function DisplayedRows(): seq<Row>
      reads this
    {
      PageSlice(SortedData(), page, rowsPerPage)
    }

    /** The manifest effect: `setDatasets` with the parsed manifest; a failed
        fetch leaves the state as it is. */
    method LoadDatasets(manifest: Option<seq<Descriptor>>)
      modifies this`datasets
      ensures datasets == if manifest.Some? then manifest.value else old(datasets)
    {
      if manifest.Some? {
        datasets := manifest.value;
      }
    }

    /** The province effect: the `state` of every GeoJSON feature, in order. */
    method LoadProvinces(states: Option<seq<string>>)
      modifies this`provinces
      ensures provinces == if states.Some? then states.value else old(provinces)
    {
      if states.Some? {
        provinces := states.value;
      }
    }

    /** The dataset effect: with a dataset selected and the provinces loaded,
        fetch the dataset's CSV, then set the ranked records and the history
        of the top five. Otherwise, or when the fetch fails, nothing changes. */
    method LoadSelectedDataset(fetch: string -> Option<string>, draw: nat -> Noise, jitter: (nat, nat) -> real)
      requires var text := fetch(CsvPath(selectedDataset, datasets));
        selectedDataset != "" && |provinces| > 0 && text.Some? ==> WellFormed(text.value)
      modifies this`data, this`historyData
      ensures var text := fetch(CsvPath(selectedDataset, datasets));
        if selectedDataset == "" || |provinces| == 0 || text.None? then
          data == old(data) && historyData == old(historyData)
        else
          && |data| == |Parsed(text.value, draw)|
          && (forall i :: 0 <= i < |data| ==>
                data[i] == SortRows(Parsed(text.value, draw), ByValueDesc)[i].(rank := i + 1))
          && historyData == HistoryOf(data, SelectedYear(datasets, selectedDataset), jitter)
    {
      if selectedDataset == "" || |provinces| == 0 {
        return;
      }
      var text := fetch(CsvPath(selectedDataset, datasets));
      if text.None? {
        return;
      }
      var csvData := ReadDataset(text.value, draw);
      var historicalData := HistoryOf(csvData, SelectedYear(datasets, selectedDataset), jitter);
      data := csvData;
      historyData := historicalData;
    }

    /** `handleDatasetChange`. */
    method DatasetChange(value: string)
      modifies this`selectedDataset, this`page
      ensures selectedDataset == value && page == 0
    {
      selectedDataset := value;
      page := 0;
    }

    /** `handleChangePage`. */
    method ChangePage(newPage: nat)
      modifies this`page
      ensures page == newPage
    {
      page := newPage;
    }

    /** `handleChangeRowsPerPage`: `parseInt(value, 10)` of the selected
        option, and back to the first page. */
    method ChangeRowsPerPage(value: string)
      requires JsParseInt(value).Some? && JsParseInt(value).value > 0
      modifies this`rowsPerPage, this`page
      ensures rowsPerPage == JsParseInt(value).value && page == 0
    {
      rowsPerPage := JsParseInt(value).value as nat;
      page := 0;
    }

    /** `handleTabChange`. */
    method TabChange(newValue: nat)
      modifies this`tabValue
      ensures tabValue == newValue
    {
      tabValue := newValue;
    }

    /** `handleViewModeChange`: a toggle group reports `null` when the
        active button is clicked again, and the mode then stays. */
    method ViewModeChange(newMode: Option<string>)
      modifies this`viewMode
      ensures viewMode == if newMode.Some? then newMode.value else old(viewMode)
    {
      if newMode.Some? {
        viewMode := newMode.value;
      }
    }

    /** `handleSearch`: the new term, and back to the first page. */
    method Search(value: string)
      modifies this`searchTerm, this`page
      ensures searchTerm == value && page == 0
    {
      searchTerm := value;
      page := 0;
    }

    /** `requestSort`. */
    method RequestSort(key: SortKey)
      modifies this`sortConfig
      ensures sortConfig == NextSortConfig(old(sortConfig), key)
    {
      var direction := Asc;
      if sortConfig.key == key && sortConfig.direction == Asc {
        direction := Desc;
      }
      sortConfig := SortConfig(key, direction);
    }

    /** `handleRefreshData`: with a dataset selected, fetch and rank its CSV
        again. Unlike the dataset effect it neither waits for the provinces
        nor rebuilds the history, and it keeps the page. */
    method Refresh(fetch: string -> Option<string>, draw: nat -> Noise)
      requires var text := fetch(CsvPath(selectedDataset, datasets));
        selectedDataset != "" && text.Some? ==> WellFormed(text.value)
      modifies this`data
      ensures var text := fetch(CsvPath(selectedDataset, datasets));
        if selectedDataset == "" || text.None? then data == old(data)
        else
          && |data| == |Parsed(text.value, draw)|
          && (forall i :: 0 <= i < |data| ==>
                data[i] == SortRows(Parsed(text.value, draw), ByValueDesc)[i].(rank := i + 1))
    {
      if selectedDataset == "" {
        return;
      }
      var text := fetch(CsvPath(selectedDataset, datasets));
      if text.None? {
        return;
      }
      data := ReadDataset(text.value, draw);
    }

    /** `handleDownloadData`: nothing without a selected dataset or without
        data; otherwise the CSV of the records as shown (filtered and
        sorted, all pages), named after the dataset. When the selected id is
        not in the manifest, reading `dataset.name` throws. */
    method DownloadData(fmt: real -> string) returns (e: Export)
      ensures selectedDataset == "" || data == [] ==> e == Skipped
      ensures selectedDataset != "" && data != [] ==>
        match FindDataset(datasets, selectedDataset)
        case None => e == Failed
        case Some(d) => e == File(DownloadName(d), Content(SortedData(), fmt))
    {
      if selectedDataset == "" || |data| == 0 {
        return Skipped;
      }
      var dataset := FindDataset(datasets, selectedDataset);
      var rows := SortedData();
      var csvContent := DataUriPrefix;
      csvContent := csvContent + HeaderLine + "\n";
      ghost var head := csvContent;
      var i := 0;
      while i < |rows|
        invariant 0 <= i <= |rows|
        invariant csvContent == head + Body(rows[..i], fmt)
      {
        AppendLine(head, csvContent, rows, i, fmt);
        csvContent := csvContent + Line(rows[i], fmt) + "\n";
        i := i + 1;
      }
      assert rows[..i] == rows;
      ContentOfBody(rows, fmt);
      match dataset {
        case None => e := Failed;
        case Some(d) => e := File(DownloadName(d), csvContent);
      }
    }
  }

  /** One pass of the download loop appends one line to the content. */
  lemma AppendLine(head: string, content: string, rows: seq<Row>, i: nat, fmt: real -> string)
    requires i < |rows|
    requires content == head + Body(rows[..i], fmt)
    ensures content + Line(rows[i], fmt) + "\n" == head + Body(rows[..i + 1], fmt)
  {
    assert rows[..i + 1] == rows[..i] + [rows[i]];
    BodyAppend(rows[..i], rows[i], fmt);
  }

  /** The content is the prefix, the header line and the body. */
  lemma ContentOfBody(rows: seq<Row>, fmt: real -> string)
    ensures DataUriPrefix + HeaderLine + "\n" + Body(rows, fmt) == Content(rows, fmt)
  {
  }

  /** The rendered rows are at most one page, and each is a record of the
      data whose province matches the search term. */
  lemma DisplayedRowsMatch(e: Explorer)
    ensures |e.DisplayedRows()| <= e.rowsPerPage
    ensures forall x :: x in e.DisplayedRows() ==> x in e.data && Matches(x, e.searchTerm)
  {
    PageOfView(e.data, e.searchTerm, e.sortConfig, e.page, e.rowsPerPage);
  }

  /** The download of a loaded page reads back: when `data` is what loading
      a well-formed CSV sets, every filtered, sorted record the export
      writes splits back into its six fields, provided only that `fmt`
      writes numbers without commas or line breaks. */
  lemma LoadedExportRoundTrip(csvText: string, draw: nat -> Noise, data: seq<Row>,
                              term: string, config: SortConfig, fmt: real -> string)
    requires WellFormed(csvText)
    requires |data| == |Parsed(csvText, draw)|
    requires forall i :: 0 <= i < |data| ==> data[i] == SortRows(Parsed(csvText, draw), ByValueDesc)[i].(rank := i + 1)
    requires forall x :: Clean(fmt(x))
    ensures var rows := SortedView(data, term, config);
      var lines := Split(CsvText(rows, fmt), '\n');
      && |lines| == |rows| + 2
      && Split(lines[0], ',') == HeaderNames
      && (forall i :: 0 <= i < |rows| ==> Split(lines[i + 1], ',') == Fields(rows[i], fmt))
      && lines[|rows| + 1] == ""
  {
    var rows := SortedView(data, term, config);
    ParsedIsClean(csvText, draw);
    RankedIsClean(Parsed(csvText, draw), data);
    SortedViewMembers(data, term, config);
    assert forall i :: 0 <= i < |rows| ==> Exportable(rows[i], fmt) by {
      forall i | 0 <= i < |rows|
        ensures Exportable(rows[i], fmt)
      {
        assert rows[i] in rows;
        assert CleanCells(rows[i]);
      }
    }
    CsvTextRoundTrip(rows, fmt);
  }

  /** `datasets.find(d => d.id === selectedDataset)?.year`. */
  function SelectedYear(datasets: seq<Descriptor>, selectedDataset: string): (year: Option<string>)
    ensures year.Some? <==> FindDataset(datasets, selectedDataset).Some?
    ensures year.Some? ==> year.value == FindDataset(datasets, selectedDataset).value.year
  {
    match FindDataset(datasets, selectedDataset)
    case Some(d) => Some(d.year)
    case None => None
  }
}
