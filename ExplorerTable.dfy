/** What the data explorer's table shows of its records: the search
    filter `filteredData`, the page of rows the table and the cards render,
    and the sort configuration a click on a column header produces. */
module ExplorerTable {
  import opened JsString
  import opened RowOrder

  // ---------------------------------------------------------------------
  // Search

  /** `item.province.toLowerCase().includes(searchTerm.toLowerCase())`. */
  predicate Matches(row: Row, term: string) {
    Includes(Lower(row.province), Lower(term))
  }

  /** `data.filter(...)`: the records whose province matches the term, in order. */
  function FilterRows(data: seq<Row>, term: string): (r: seq<Row>)
    ensures |r| <= |data|
    decreases |data|
  {
    if data == [] then []
    else (if Matches(data[0], term) then [data[0]] else []) + FilterRows(data[1..], term)
  }

  /** `sub` is `s` with some elements left out, the rest in their order. */
  predicate IsSubsequence(sub: seq<Row>, s: seq<Row>)
    decreases |s|
  {
    if s == [] then sub == []
    else IsSubsequence(sub, s[1..]) || (sub != [] && sub[0] == s[0] && IsSubsequence(sub[1..], s[1..]))
  }

  /** A record is kept exactly when it is in the data and matches, and the
      filter keeps every matching record as often as it occurs. */
  lemma {:induction false} FilterKeepsMatches(data: seq<Row>, term: string)
    ensures forall x :: x in FilterRows(data, term) <==> x in data && Matches(x, term)
    ensures forall x :: multiset(FilterRows(data, term))[x] == if Matches(x, term) then multiset(data)[x] else 0
    decreases |data|
  {
    if data != [] {
      FilterKeepsMatches(data[1..], term);
      assert data == [data[0]] + data[1..];
    }
  }

  /** The filter keeps the records in their order. */
  lemma {:induction false} FilterKeepsOrder(data: seq<Row>, term: string)
    ensures IsSubsequence(FilterRows(data, term), data)
    decreases |data|
  {
    if data != [] {
      FilterKeepsOrder(data[1..], term);
      var rest := FilterRows(data[1..], term);
      if Matches(data[0], term) {
        assert ([data[0]] + rest)[1..] == rest;
      } else {
        assert FilterRows(data, term) == rest;
      }
    }
  }

  /** An empty search shows every record. */
  lemma {:induction false} FilterEmptyTerm(data: seq<Row>)
    ensures FilterRows(data, "") == data
    decreases |data|
  {
    if data != [] {
      IncludesEmpty(Lower(data[0].province));
      assert Lower("") == "";
      FilterEmptyTerm(data[1..]);
      assert data == [data[0]] + data[1..];
    }
  }

  /** The search ignores the case of its term, and filtering twice with the
      same term is filtering once. */
  lemma {:induction false} FilterIgnoresCase(data: seq<Row>, term: string)
    ensures FilterRows(data, term) == FilterRows(data, Lower(term))
    ensures FilterRows(FilterRows(data, term), term) == FilterRows(data, term)
    decreases |data|
  {
    LowerIsLowerCase(term);
    if data != [] {
      FilterIgnoresCase(data[1..], term);
      var rest := FilterRows(data[1..], term);
      assert Matches(data[0], term) == Matches(data[0], Lower(term));
      assert FilterRows(data, Lower(term))
          == (if Matches(data[0], term) then [data[0]] else []) + FilterRows(data[1..], Lower(term));
      if Matches(data[0], term) {
        assert ([data[0]] + rest)[1..] == rest;
      } else {
        assert FilterRows(data, term) == rest;
      }
    }
  }

  // ---------------------------------------------------------------------
  // Pagination

  /** `s.slice(start, end)` for non-negative bounds: both are clamped to the
      length and an empty range gives `[]`. */
  function Slice(s: seq<Row>, start: nat, end: nat): (r: seq<Row>)
    ensures |r| == if start < end && start < |s| then (if end < |s| then end else |s|) - start else 0
    ensures forall i :: 0 <= i < |r| ==> r[i] == s[start + i]
  {
    var hi := if end < |s| then end else |s|;
    if start < hi then s[start..hi] else []
  }

  /** `sortedData.slice(page * rowsPerPage, page * rowsPerPage + rowsPerPage)`. */
  function PageSlice(s: seq<Row>, page: nat, rowsPerPage: nat): (r: seq<Row>)
    ensures |r| <= rowsPerPage
    ensures |r| > 0 ==> page * rowsPerPage + |r| <= |s|
    ensures forall i :: 0 <= i < |r| ==> r[i] == s[page * rowsPerPage + i]
    ensures page * rowsPerPage + rowsPerPage <= |s| ==> |r| == rowsPerPage
    ensures |s| <= page * rowsPerPage ==> r == []
  {
    Slice(s, page * rowsPerPage, page * rowsPerPage + rowsPerPage)
  }

  /** The pages `0 .. n-1`, one after the other. */
  function Pages(s: seq<Row>, rowsPerPage: nat, n: nat): seq<Row> {
    if n == 0 then [] else Pages(s, rowsPerPage, n - 1) + PageSlice(s, n - 1, rowsPerPage)
  }

  /** `k` clamped to the length `len`. */
  function Clamp(k: nat, len: nat): (r: nat)
    ensures r <= len && r <= k
    ensures r == k || r == len
  {
    if k < len then k else len
  }

  /** The first `n` pages show the first `n * rowsPerPage` rows (all of them
      once that reaches the length), each row once and in order. */
  lemma {:induction false} PagesCover(s: seq<Row>, rowsPerPage: nat, n: nat)
    ensures Pages(s, rowsPerPage, n) == s[..Clamp(n * rowsPerPage, |s|)]
  {
    if n > 0 {
      PagesCover(s, rowsPerPage, n - 1);
      PagesStep(s, rowsPerPage, n);
      ClampedConcat(s, (n - 1) * rowsPerPage, n * rowsPerPage);
    }
  }

  /** Page `n - 1` is the stretch between the clamped ends of the first
      `n - 1` and the first `n` pages. */
  lemma PagesStep(s: seq<Row>, rowsPerPage: nat, n: nat)
    requires n > 0
    ensures (n - 1) * rowsPerPage <= n * rowsPerPage
    ensures var a := Clamp((n - 1) * rowsPerPage, |s|);
      var b := Clamp(n * rowsPerPage, |s|);
      a <= b && Pages(s, rowsPerPage, n) == Pages(s, rowsPerPage, n - 1) + s[a..b]
  {
    MultiplyStep(n, rowsPerPage);
    PageSliceRange(s, n - 1, rowsPerPage);
  }

  /** The rows before `p` followed by those from `p` to `q`, all clamped,
      are the rows before `q`. */
  lemma ClampedConcat(s: seq<Row>, p: nat, q: nat)
    requires p <= q
    ensures s[..Clamp(p, |s|)] + s[Clamp(p, |s|)..Clamp(q, |s|)] == s[..Clamp(q, |s|)]
  {
  }

  /** `n * m` is `(n - 1) * m + m`. */
  lemma MultiplyStep(n: nat, m: nat)
    requires n > 0
    ensures n * m == (n - 1) * m + m
  {
  }

  /** A page is the stretch of rows from its first index to the next page's,
      both clamped to the length. */
  lemma PageSliceRange(s: seq<Row>, page: nat, rowsPerPage: nat)
    ensures var lo := page * rowsPerPage;
      PageSlice(s, page, rowsPerPage) == s[Clamp(lo, |s|)..Clamp(lo + rowsPerPage, |s|)]
  {
  }

  /** With a positive page size, row `i` is shown on page `i / rowsPerPage`
      at position `i % rowsPerPage`. */
  lemma RowOnItsPage(s: seq<Row>, rowsPerPage: nat, i: nat)
    requires rowsPerPage > 0 && i < |s|
    ensures var page := PageSlice(s, i / rowsPerPage, rowsPerPage);
      i % rowsPerPage < |page| && page[i % rowsPerPage] == s[i]
  {
    var p := i / rowsPerPage;
    var k := i % rowsPerPage;
    assert p * rowsPerPage + k == i;
    assert p * rowsPerPage <= i;
    var page := PageSlice(s, p, rowsPerPage);
    assert |page| == (if p * rowsPerPage + rowsPerPage < |s| then p * rowsPerPage + rowsPerPage else |s|) - p * rowsPerPage;
  }

  // ---------------------------------------------------------------------
  // Sorting by column header

  /** `requestSort(key)`: ascending, unless the table is already sorted
      ascending by that key, in which case descending. */
  function NextSortConfig(config: SortConfig, key: SortKey): (r: SortConfig)
    ensures r.key == key
    ensures r.direction == Desc <==> config == SortConfig(key, Asc)
  {
    SortConfig(key, if config.key == key && config.direction == Asc then Desc else Asc)
  }

  /** `sortedData`: a sorted copy of the filtered records. */
  function SortedView(data: seq<Row>, term: string, config: SortConfig): seq<Row> {
    SortRows(FilterRows(data, term), config)
  }

  /** The table holds every matching record as often as the data does and
      nothing else, ordered by the key in the configured direction, with
      records of equal key in their order in the data. */
  lemma SortedViewSpec(data: seq<Row>, term: string, config: SortConfig)
    ensures var r := SortedView(data, term, config);
      && (forall x :: multiset(r)[x] == if Matches(x, term) then multiset(data)[x] else 0)
      && (config.direction == Asc ==>
            forall i, j :: 0 <= i < j < |r| ==> !KeyLess(r[j], r[i], config.key))
      && (config.direction == Desc ==>
            forall i, j :: 0 <= i < j < |r| ==> !KeyLess(r[i], r[j], config.key))
      && (forall y :: KeyGroup(r, y, config.key) == KeyGroup(FilterRows(data, term), y, config.key))
  {
    FilterKeepsMatches(data, term);
    SortRowsSpec(FilterRows(data, term), config);
  }

  /** A page holds only records of the paged sequence. */
  lemma PageMembers(s: seq<Row>, page: nat, rowsPerPage: nat)
    ensures forall x :: x in PageSlice(s, page, rowsPerPage) ==> x in s
  {
    var r := PageSlice(s, page, rowsPerPage);
    forall x | x in r
      ensures x in s
    {
      var i :| 0 <= i < |r| && r[i] == x;
      assert s[page * rowsPerPage + i] == x;
    }
  }

  /** Every record the table holds is a record of the data whose province
      matches the term. */
  lemma SortedViewMembers(data: seq<Row>, term: string, config: SortConfig)
    ensures forall x :: x in SortedView(data, term, config) ==> x in data && Matches(x, term)
  {
    var r := SortedView(data, term, config);
    SortedViewSpec(data, term, config);
    forall x | x in r
      ensures x in data && Matches(x, term)
    {
      assert multiset(r)[x] > 0;
    }
  }

  /** One page of the table holds only matching records of the data. */
  lemma PageOfView(data: seq<Row>, term: string, config: SortConfig, page: nat, rowsPerPage: nat)
    ensures forall x :: x in PageSlice(SortedView(data, term, config), page, rowsPerPage) ==> x in data && Matches(x, term)
  {
    SortedViewMembers(data, term, config);
    PageMembers(SortedView(data, term, config), page, rowsPerPage);
  }

  /** The configuration after `n` clicks on the header of `key`. */
  function Clicks(config: SortConfig, key: SortKey, n: nat): SortConfig {
    if n == 0 then config else NextSortConfig(Clicks(config, key, n - 1), key)
  }

  /** Clicking a header repeatedly alternates ascending and descending,
      starting with ascending unless the table is already ascending by it. */
  lemma {:induction false} ClicksAlternate(config: SortConfig, key: SortKey, n: nat)
    requires n >= 1
    ensures Clicks(config, key, n).key == key
    ensures Clicks(config, key, n).direction
         == if (n % 2 == 1) != (config == SortConfig(key, Asc)) then Asc else Desc
  {
    if n > 1 {
      ClicksAlternate(config, key, n - 1);
    }
  }
}
