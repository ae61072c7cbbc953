/** The records of the data explorer's table and the orders it puts them
    in: the comparator of `sortedData` for a sort key and direction, and the
    stable sort `Array.prototype.sort` performs with it. The ranking sort
    `(a, b) => b.value - a.value` is the same comparator for the key
    `value` and the direction `desc`. */
module RowOrder {
  import opened Wrappers
  import opened JsString

  datatype Trend = Up | Down

  /** One table record. `province` and `year` are the raw CSV cells (`year`
      is `undefined` when the header has no `year` column or the line is
      short); `trend` and `change` come from random draws; `rank` is the
      position after ranking, counted from 1. */
  datatype Row = Row(province: string, value: real, year: Option<string>, trend: Trend, change: real, rank: nat)

  /** The columns a table header can sort by. */
  datatype SortKey = Province | Value | Rank

  datatype Direction = Asc | Desc

  /** `sortConfig`: `{ key, direction }`. */
  datatype SortConfig = SortConfig(key: SortKey, direction: Direction)

  /** The configuration of the ranking sort. */
  const ByValueDesc := SortConfig(Value, Desc)

  /** `a[key] < b[key]`: strings by JavaScript's `<`, numbers numerically. */
  predicate KeyLess(a: Row, b: Row, key: SortKey) {
    match key
    case Province => JsLess(a.province, b.province)
    case Value => a.value < b.value
    case Rank => a.rank < b.rank
  }

  /** `a[key]` and `b[key]` are equal. */
  predicate SameKey(a: Row, b: Row, key: SortKey) {
    match key
    case Province => a.province == b.province
    case Value => a.value == b.value
    case Rank => a.rank == b.rank
  }

  /** The comparator of `sortedData`: -1, 1 or 0. */
  function Compare(a: Row, b: Row, config: SortConfig): int {
    if KeyLess(a, b, config.key) then (if config.direction == Asc then -1 else 1)
    else if KeyLess(b, a, config.key) then (if config.direction == Asc then 1 else -1)
    else 0
  }

  /** The key order is a strict total order whose incomparable pairs are the
      pairs with equal keys. */
  lemma KeyOrder(a: Row, b: Row, c: Row, key: SortKey)
    ensures !(KeyLess(a, b, key) && KeyLess(b, a, key))
    ensures KeyLess(a, b, key) || KeyLess(b, a, key) || SameKey(a, b, key)
    ensures SameKey(a, b, key) ==> !KeyLess(a, b, key)
    ensures KeyLess(a, b, key) && KeyLess(b, c, key) ==> KeyLess(a, c, key)
  {
    if key == Province {
      JsLessTrichotomy(a.province, b.province);
      JsLessIrreflexive(a.province);
      if KeyLess(a, b, key) && KeyLess(b, c, key) {
        JsLessTransitive(a.province, b.province, c.province);
      }
    }
  }

  /** The comparator is antisymmetric and is 0 exactly on equal keys. */
  lemma CompareProperties(a: Row, b: Row, config: SortConfig)
    ensures Compare(a, b, config) == -Compare(b, a, config)
    ensures Compare(a, b, config) == 0 <==> SameKey(a, b, config.key)
  {
    KeyOrder(a, b, a, config.key);
    KeyOrder(b, a, b, config.key);
  }

  /** "Not after" is transitive. */
  lemma CompareTransitive(a: Row, b: Row, c: Row, config: SortConfig)
    requires Compare(a, b, config) <= 0 && Compare(b, c, config) <= 0
    ensures Compare(a, c, config) <= 0
  {
    var k := config.key;
    KeyOrder(a, b, c, k);
    KeyOrder(c, b, a, k);
    KeyOrder(a, c, b, k);
    KeyOrder(b, a, c, k);
    KeyOrder(b, c, a, k);
  }

  /** The ranking comparator `b.value - a.value` has the sign of the
      `value`/`desc` comparator, so both sort the same way. */
  lemma RankingComparator(a: Row, b: Row)
    ensures (b.value - a.value < 0.0) <==> Compare(a, b, ByValueDesc) < 0
    ensures (b.value - a.value > 0.0) <==> Compare(a, b, ByValueDesc) > 0
  {
  }

  // ---------------------------------------------------------------------
  // The stable sort

  /** Inserts `x` after every element of `s` that does not compare after it. */
  function Insert(x: Row, s: seq<Row>, config: SortConfig): (r: seq<Row>)
    ensures |r| == |s| + 1
    decreases |s|
  {
    if s == [] then [x]
    else if Compare(s[|s| - 1], x, config) > 0 then Insert(x, s[..|s| - 1], config) + [s[|s| - 1]]
    else s + [x]
  }

  /** `rows.sort(comparator)`: a stable sort, here by insertion. */
  function SortRows(s: seq<Row>, config: SortConfig): (r: seq<Row>)
    ensures |r| == |s|
    decreases |s|
  {
    if s == [] then [] else Insert(s[|s| - 1], SortRows(s[..|s| - 1], config), config)
  }

  /** No element compares after a later one. */
  predicate Sorted(s: seq<Row>, config: SortConfig) {
    forall i, j :: 0 <= i < j < |s| ==> Compare(s[i], s[j], config) <= 0
  }

  /** The elements of `s` whose key equals that of `x`, in their order in `s`. */
  function KeyGroup(s: seq<Row>, x: Row, key: SortKey): seq<Row>
    decreases |s|
  {
    if s == [] then []
    else KeyGroup(s[..|s| - 1], x, key) + (if SameKey(s[|s| - 1], x, key) then [s[|s| - 1]] else [])
  }

  lemma {:induction false} InsertPermutes(x: Row, s: seq<Row>, config: SortConfig)
    ensures multiset(Insert(x, s, config)) == multiset(s) + multiset{x}
    ensures |Insert(x, s, config)| == |s| + 1
    decreases |s|
  {
    if s != [] && Compare(s[|s| - 1], x, config) > 0 {
      InsertPermutes(x, s[..|s| - 1], config);
      assert s == s[..|s| - 1] + [s[|s| - 1]];
    }
  }

  lemma {:induction false} InsertKeepsSorted(x: Row, s: seq<Row>, config: SortConfig)
    requires Sorted(s, config)
    ensures Sorted(Insert(x, s, config), config)
    decreases |s|
  {
    if s != [] {
      var last := s[|s| - 1];
      var init := s[..|s| - 1];
      CompareProperties(last, x, config);
      if Compare(last, x, config) > 0 {
        InsertKeepsSorted(x, init, config);
        InsertPermutes(x, init, config);
        var r := Insert(x, init, config);
        forall i | 0 <= i < |r| ensures Compare(r[i], last, config) <= 0 {
          assert r[i] in multiset(r);
          if r[i] != x {
            var k :| 0 <= k < |init| && init[k] == r[i];
            assert s[k] == r[i];
          }
        }
        AppendKeepsSorted(r, last, config);
      } else {
        forall i | 0 <= i < |s| ensures Compare(s[i], x, config) <= 0 {
          if i < |s| - 1 {
            CompareTransitive(s[i], last, x, config);
          }
        }
        AppendKeepsSorted(s, x, config);
      }
    }
  }

  /** Appending an element that no element compares after keeps a sequence sorted. */
  lemma AppendKeepsSorted(s: seq<Row>, x: Row, config: SortConfig)
    requires Sorted(s, config)
    requires forall i :: 0 <= i < |s| ==> Compare(s[i], x, config) <= 0
    ensures Sorted(s + [x], config)
  {
    var t := s + [x];
    forall i, j | 0 <= i < j < |t| ensures Compare(t[i], t[j], config) <= 0 {
      if j == |s| {
        assert t[i] == s[i];
      } else {
        assert t[i] == s[i] && t[j] == s[j];
      }
    }
  }

  lemma {:induction false} InsertKeepsGroups(x: Row, s: seq<Row>, config: SortConfig, y: Row)
    ensures KeyGroup(Insert(x, s, config), y, config.key)
         == KeyGroup(s, y, config.key) + (if SameKey(x, y, config.key) then [x] else [])
    decreases |s|
  {
    var key := config.key;
    if s == [] {
      assert Insert(x, s, config) == [] + [x];
      KeyGroupSnoc([], x, y, key);
    } else {
      var last := s[|s| - 1];
      var init := s[..|s| - 1];
      var r := Insert(x, s, config);
      assert s == init + [last];
      KeyGroupSnoc(init, last, y, key);
      if Compare(last, x, config) > 0 {
        var q := Insert(x, init, config);
        assert r == q + [last];
        InsertKeepsGroups(x, init, config, y);
        KeyGroupSnoc(q, last, y, key);
        NotBothInGroup(last, x, y, config);
      } else {
        assert r == s + [x];
        KeyGroupSnoc(s, x, y, key);
      }
    }
  }

  /** Appending an element appends it to its key group. */
  lemma KeyGroupSnoc(s: seq<Row>, x: Row, y: Row, key: SortKey)
    ensures KeyGroup(s + [x], y, key) == KeyGroup(s, y, key) + (if SameKey(x, y, key) then [x] else [])
  {
    assert (s + [x])[..|s|] == s;
  }

  /** Two elements that compare unequal are not both in the key group of `y`. */
  lemma NotBothInGroup(a: Row, b: Row, y: Row, config: SortConfig)
    requires Compare(a, b, config) != 0
    ensures !(SameKey(a, y, config.key) && SameKey(b, y, config.key))
  {
    CompareProperties(a, b, config);
  }

  /** The sort returns a permutation of its input. */
  lemma {:induction false} SortPermutes(s: seq<Row>, config: SortConfig)
    ensures multiset(SortRows(s, config)) == multiset(s)
    ensures |SortRows(s, config)| == |s|
    decreases |s|
  {
    if s != [] {
      var init, last := s[..|s| - 1], s[|s| - 1];
      SortPermutes(init, config);
      InsertPermutes(last, SortRows(init, config), config);
      assert SortRows(s, config) == Insert(last, SortRows(init, config), config);
      assert multiset(s) == multiset(init) + multiset{last} by {
        assert s == init + [last];
      }
    }
  }

  /** The sort's output is sorted by the comparator. */
  lemma {:induction false} SortSorts(s: seq<Row>, config: SortConfig)
    ensures Sorted(SortRows(s, config), config)
    decreases |s|
  {
    if s != [] {
      SortSorts(s[..|s| - 1], config);
      InsertKeepsSorted(s[|s| - 1], SortRows(s[..|s| - 1], config), config);
    }
  }

  /** The sort is stable: rows with equal keys keep their relative order. */
  lemma {:induction false} SortIsStable(s: seq<Row>, config: SortConfig, y: Row)
    ensures KeyGroup(SortRows(s, config), y, config.key) == KeyGroup(s, y, config.key)
    decreases |s|
  {
    if s != [] {
      SortIsStable(s[..|s| - 1], config, y);
      InsertKeepsGroups(s[|s| - 1], SortRows(s[..|s| - 1], config), config, y);
    }
  }

  /** What `sortedData` promises for its key and direction: a permutation of
      the input of the same length, non-decreasing on the key for `asc`,
      non-increasing for `desc`, with equal keys in their input order. */
  lemma SortRowsSpec(s: seq<Row>, config: SortConfig)
    ensures |SortRows(s, config)| == |s|
    ensures multiset(SortRows(s, config)) == multiset(s)
    ensures config.direction == Asc ==>
      forall i, j :: 0 <= i < j < |SortRows(s, config)| ==>
        !KeyLess(SortRows(s, config)[j], SortRows(s, config)[i], config.key)
    ensures config.direction == Desc ==>
      forall i, j :: 0 <= i < j < |SortRows(s, config)| ==>
        !KeyLess(SortRows(s, config)[i], SortRows(s, config)[j], config.key)
    ensures forall y :: KeyGroup(SortRows(s, config), y, config.key) == KeyGroup(s, y, config.key)
  {
    SortPermutes(s, config);
    SortSorts(s, config);
    forall y ensures KeyGroup(SortRows(s, config), y, config.key) == KeyGroup(s, y, config.key) {
      SortIsStable(s, config, y);
    }
    var r := SortRows(s, config);
    forall i, j | 0 <= i < j < |r| ensures config.direction == Asc ==> !KeyLess(r[j], r[i], config.key) {
      KeyOrder(r[i], r[j], r[i], config.key);
    }
    forall i, j | 0 <= i < j < |r| ensures config.direction == Desc ==> !KeyLess(r[i], r[j], config.key) {
      KeyOrder(r[i], r[j], r[i], config.key);
    }
  }
}
