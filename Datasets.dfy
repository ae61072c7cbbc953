/** The dataset manifest and the file names derived from a dataset's
    name: the CSV both pages fetch and the file the data explorer offers
    for download. */
module Datasets {
  import opened Wrappers
  import opened JsString

  /** One manifest entry `{ id, name, year, indicator, unit }`; `indicator`
      is absent from some entries. */
  datatype Descriptor = Descriptor(id: string, name: string, year: string, indicator: Option<string>, unit: string)

  /** `datasets.findIndex(d => d.id === id)`: the first position with that id, or -1. */
  function FindIndex(datasets: seq<Descriptor>, id: string): (k: int)
    ensures -1 <= k < |datasets|
    ensures k == -1 <==> forall j :: 0 <= j < |datasets| ==> datasets[j].id != id
    ensures 0 <= k ==> datasets[k].id == id && forall j :: 0 <= j < k ==> datasets[j].id != id
    decreases |datasets|
  {
    if datasets == [] then -1
    else if datasets[0].id == id then 0
    else
      var k := FindIndex(datasets[1..], id);
      if k == -1 then -1 else k + 1
  }

  /** `datasets.find(d => d.id === id)`: the first entry with that id, or `undefined`. */
  function FindDataset(datasets: seq<Descriptor>, id: string): (r: Option<Descriptor>)
    ensures r.None? <==> forall k :: 0 <= k < |datasets| ==> datasets[k].id != id
    ensures r.Some? ==> r.value == datasets[FindIndex(datasets, id)] && r.value.id == id
  {
    var k := FindIndex(datasets, id);
    if k < 0 then None else Some(datasets[k])
  }

  /** The fetch path `./data/bps/<id>_<stem, lower-cased>.csv`. When no
      entry has the id, optional chaining yields `undefined`, which the
      template literal writes out. */
  function CsvPath(selectedDataset: string, datasets: seq<Descriptor>): string {
    var stem := match FindDataset(datasets, selectedDataset)
                case Some(d) => Lower(ReplaceSpaceRuns(d.name))
                case None => "undefined";
    "./data/bps/" + selectedDataset + "_" + stem + ".csv"
  }

  /** The download name `<stem>_<year>.csv`, without lower-casing. */
  function DownloadName(d: Descriptor): string {
    ReplaceSpaceRuns(d.name) + "_" + d.year + ".csv"
  }

  /** The fetched file and the downloaded file share the stem of the
      dataset's name: whitespace-free, and lower-cased only in the fetch
      path; lower-casing and the whitespace replacement may be applied in
      either order. */
  lemma FileNamesShareStem(datasets: seq<Descriptor>, id: string)
    requires FindDataset(datasets, id).Some?
    ensures var d := FindDataset(datasets, id).value;
      && CsvPath(id, datasets) == "./data/bps/" + id + "_" + Lower(ReplaceSpaceRuns(d.name)) + ".csv"
      && DownloadName(d) == ReplaceSpaceRuns(d.name) + "_" + d.year + ".csv"
      && SpaceFree(ReplaceSpaceRuns(d.name)) && SpaceFree(Lower(ReplaceSpaceRuns(d.name)))
      && Lower(ReplaceSpaceRuns(d.name)) == ReplaceSpaceRuns(Lower(d.name))
  {
    var d := FindDataset(datasets, id).value;
    LowerReplaceSpaceRunsCommute(d.name);
  }
}
