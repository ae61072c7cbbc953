/** The naive CSV scheme both pages use: the text is split on `'\n'`, the
    first line is the header, columns are found by header name with
    `indexOf`, every other line is split on `','`, and lines that are blank
    after `trim()` are skipped. There is no quoting or escaping, and a CRLF
    line keeps its `'\r'` in its last field. */
module CsvTable {
  import opened Wrappers
  import opened JsString

  /** `csvText.split('\n')`. */
  function Rows(csvText: string): (rows: seq<string>)
    ensures |rows| >= 1
  {
    Split(csvText, '\n')
  }

  /** `rows[0].split(',')`: the header names. */
  function Headers(csvText: string): seq<string> {
    Split(Rows(csvText)[0], ',')
  }

  /** `headers.indexOf(name)`: the column of `name`, or -1. */
  function ColumnIndex(csvText: string, name: string): int {
    IndexOf(Headers(csvText), name)
  }

  /** `row.split(',')[index]`: the cell, or `undefined`. */
  function Cell(row: string, index: int): Option<string> {
    At(Split(row, ','), index)
  }

  /** The data lines the parsing loops keep, in order: the indexes in
      `[1, hi)` of the lines that are not blank. */
  function KeptLines(rows: seq<string>, hi: nat): (kept: seq<nat>)
    requires hi <= |rows|
    ensures forall j :: 0 <= j < |kept| ==> 1 <= kept[j] < hi && !IsBlank(rows[kept[j]])
    ensures forall j, k :: 0 <= j < k < |kept| ==> kept[j] < kept[k]
    ensures forall i :: 1 <= i < hi && !IsBlank(rows[i]) ==> i in kept
  {
    if hi <= 1 then []
    else KeptLines(rows, hi - 1) + (if IsBlank(rows[hi - 1]) then [] else [hi - 1])
  }

  /** A cell holds neither a comma nor a line break. */
  predicate Clean(s: string) {
    ',' !in s && '\n' !in s
  }

  /** Every cell of every line is clean: the split removed the separators. */
  lemma CellIsClean(csvText: string, i: nat, index: int)
    requires i < |Rows(csvText)|
    requires Cell(Rows(csvText)[i], index).Some?
    ensures Clean(Cell(Rows(csvText)[i], index).value)
  {
    var rows := Rows(csvText);
    SplitPieces(csvText, '\n');
    SplitPieces(rows[i], ',');
  }

  /** With CRLF line ends the header line keeps its `'\r'`. */
  lemma CrlfHeaderLine(header: string, rest: string)
    requires '\n' !in header
    ensures Rows(header + "\r\n" + rest)[0] == header + "\r"
  {
    assert header + "\r\n" + rest == (header + "\r") + ['\n'] + rest;
    SplitAtFirstSeparator(header + "\r", '\n', rest);
  }

  /** Splitting such a header line on commas leaves the `'\r'` on the last name. */
  lemma CrlfHeaderNames(names: seq<string>)
    requires |names| >= 1 && forall k :: 0 <= k < |names| ==> ',' !in names[k]
    ensures Split(Join(names, ',') + "\r", ',') == names[..|names| - 1] + [names[|names| - 1] + "\r"]
  {
    var n := |names| - 1;
    var crlf := names[..n] + [names[n] + "\r"];
    forall k | 0 <= k < |crlf|
      ensures ',' !in crlf[k]
    {
      if k < n {
        assert crlf[k] == names[k];
      } else {
        assert crlf[k] == names[n] + "\r";
        assert ',' !in names[n];
      }
    }
    assert Split(Join(crlf, ','), ',') == crlf by {
      SplitJoin(crlf, ',');
    }
    JoinAppendToLast(names, ',', "\r");
  }

  /** With CRLF line ends the last header name keeps its `'\r'`, so looking
      that column up by its plain name finds it only where the name also
      occurs earlier in the header (otherwise -1), while every other column
      is found where a file with LF line ends has it. */
  lemma CrlfHeaderHidesLastColumn(names: seq<string>, rest: string)
    requires |names| >= 1 && forall k :: 0 <= k < |names| ==> Clean(names[k])
    ensures var text := Join(names, ',') + "\r\n" + rest;
      var n := |names| - 1;
      && ColumnIndex(text, names[n]) == IndexOf(names[..n], names[n])
      && forall k :: 0 <= k < n ==> ColumnIndex(text, names[k]) == IndexOf(names, names[k])
  {
    var text := Join(names, ',') + "\r\n" + rest;
    var n := |names| - 1;
    var last := names[n] + "\r";
    LastSplitOff(names);
    assert Headers(text) == names[..n] + [last] by {
      JoinAvoids(names, ',', '\n');
      CrlfHeaderLine(Join(names, ','), rest);
      CrlfHeaderNames(names);
    }
    assert |last| != |names[n]|;
    IndexOfSnoc(names[..n], last, names[n]);
    forall k | 0 <= k < n
      ensures ColumnIndex(text, names[k]) == IndexOf(names, names[k])
    {
      assert names[k] in names[..n];
      IndexOfSnoc(names[..n], last, names[k]);
      IndexOfSnoc(names[..n], names[n], names[k]);
    }
  }

  /** A non-empty sequence is its front followed by its last element. */
  lemma LastSplitOff(xs: seq<string>)
    requires |xs| >= 1
    ensures xs == xs[..|xs| - 1] + [xs[|xs| - 1]]
  {
  }

  /** `indexOf` in an array with one more element at the end. */
  lemma IndexOfSnoc(xs: seq<string>, y: string, x: string)
    ensures IndexOf(xs + [y], x) == if x in xs then IndexOf(xs, x) else if x == y then |xs| else -1
  {
    var r := IndexOf(xs + [y], x);
    var ys := xs + [y];
    if x in xs {
      var q := IndexOf(xs, x);
      assert ys[q] == x;
      assert r <= q;
      assert ys[r] == xs[r];
    } else if x == y {
      assert ys[|xs|] == x;
      assert forall j :: 0 <= j < |xs| ==> ys[j] == xs[j];
    }
  }

  /** For example, `indexOf('year')` is -1 on the header of a CRLF file
      whose last column is `year`, and `value` is still column 1. */
  lemma CrlfHidesYear()
    ensures ColumnIndex("province,value,year\r\n", "year") == -1
    ensures ColumnIndex("province,value,year\r\n", "value") == 1
  {
    var names := ["province", "value", "year"];
    ExampleHeader();
    CrlfHeaderHidesLastColumn(names, "");
    assert names[..2] == ["province", "value"];
  }

  /** The example header, as a join of its names. */
  lemma ExampleHeader()
    ensures "province,value,year\r\n" == Join(["province", "value", "year"], ',') + "\r\n" + ""
  {
    var names := ["province", "value", "year"];
    assert names[1..] == ["value", "year"];
    assert names[1..][1..] == ["year"];
  }
}
