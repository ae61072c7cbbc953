/** The map page's data join: the dataset's CSV becomes a dictionary from
    province name to value, and a deep copy of the GeoJSON collection gets
    each feature's value from that dictionary, 0 when there is none. */
module MapJoin {
  import opened Wrappers
  import opened JsString
  import opened CsvTable

  /** The properties of a GeoJSON feature the map reads: the province name
      `state` and the joined `value` (`undefined` before the join). The
      geometry and the other properties are not part of this model. */
  datatype Feature = Feature(state: Option<string>, value: Option<real>)

  /** The dictionary `provinceData`: a property per province; a value that
      `parseFloat` cannot read (`NaN`) is `None`. */
  type ProvinceData = map<string, Option<real>>

  /** A property key: `undefined` used as a key is the key `"undefined"`. */
  function Key(name: Option<string>): (key: string)
    ensures name.Some? ==> key == name.value
  {
    name.GetOr("undefined")
  }

  /** The key line `i` writes. */
  function LineKey(csvText: string, i: nat): string
    requires i < |Rows(csvText)|
  {
    Key(Cell(Rows(csvText)[i], ColumnIndex(csvText, "province")))
  }

  /** The value line `i` writes: `parseFloat` of its value cell. */
  function LineValue(csvText: string, i: nat): Option<real>
    requires i < |Rows(csvText)|
  {
    match Cell(Rows(csvText)[i], ColumnIndex(csvText, "value"))
    case Some(cell) => JsParseFloat(cell)
    case None => None
  }

  /** The dictionary once the loop has looked at lines `[1, hi)`. */
  function ValuesUpTo(csvText: string, hi: nat): ProvinceData
    requires hi <= |Rows(csvText)|
  {
    if hi <= 1 then map[]
    else
      var m := ValuesUpTo(csvText, hi - 1);
      if IsBlank(Rows(csvText)[hi - 1]) then m else m[LineKey(csvText, hi - 1) := LineValue(csvText, hi - 1)]
  }

  /** The dictionary the whole loop builds. */
  function ProvinceValuesOf(csvText: string): ProvinceData {
    ValuesUpTo(csvText, |Rows(csvText)|)
  }

  /** The dictionary loop: header lookup, blank lines skipped, one
      assignment `provinceData[province] = value` per other line. */
  method ProvinceValues(csvText: string) returns (provinceData: ProvinceData)
    ensures provinceData == ProvinceValuesOf(csvText)
  {
    var rows := Split(csvText, '\n');
    var headers := Split(rows[0], ',');
    var provinceIndex := IndexOf(headers, "province");
    var valueIndex := IndexOf(headers, "value");
    assert rows == Rows(csvText) && headers == Headers(csvText);
    provinceData := map[];
    var i := 1;
    while i < |rows|
      invariant 1 <= i <= |rows|
      invariant provinceData == ValuesUpTo(csvText, i)
    {
      TrimEmptyIffBlank(rows[i]);
      ValuesUpToStep(csvText, i);
      if Trim(rows[i]) == "" {
        i := i + 1;
        continue;
      }
      var province, value := ReadLine(csvText, i, provinceIndex, valueIndex);
      provinceData := provinceData[province := value];
      i := i + 1;
    }
  }

  /** The body of the dictionary loop for data line `i`: split the line,
      read the province cell (`"undefined"` when missing) and `parseFloat`
      the value cell; this is the entry the specification gives the line. */
  method ReadLine(csvText: string, i: nat, provinceIndex: int, valueIndex: int) returns (province: string, value: Option<real>)
    requires 1 <= i < |Rows(csvText)|
    requires provinceIndex == ColumnIndex(csvText, "province")
    requires valueIndex == ColumnIndex(csvText, "value")
    ensures province == LineKey(csvText, i)
    ensures value == LineValue(csvText, i)
  {
    var columns := Split(Rows(csvText)[i], ',');
    province := Key(At(columns, provinceIndex));
    value := match At(columns, valueIndex)
             case Some(cell) => JsParseFloat(cell)
             case None => None;
  }

  /** One more line: a blank line changes nothing, another sets its entry. */
  lemma ValuesUpToStep(csvText: string, i: nat)
    requires 1 <= i < |Rows(csvText)|
    ensures ValuesUpTo(csvText, i + 1)
         == if IsBlank(Rows(csvText)[i]) then ValuesUpTo(csvText, i)
            else ValuesUpTo(csvText, i)[LineKey(csvText, i) := LineValue(csvText, i)]
  {
  }

  /** The dictionary has a key exactly for the provinces that some
      non-blank data line names. */
  lemma {:induction false} KeysAreNamedProvinces(csvText: string, hi: nat, k: string)
    requires hi <= |Rows(csvText)|
    ensures k in ValuesUpTo(csvText, hi) <==>
      exists i :: 1 <= i < hi && !IsBlank(Rows(csvText)[i]) && LineKey(csvText, i) == k
  {
    if hi > 1 {
      KeysAreNamedProvinces(csvText, hi - 1, k);
      ValuesUpToStep(csvText, hi - 1);
      if exists i :: 1 <= i < hi && !IsBlank(Rows(csvText)[i]) && LineKey(csvText, i) == k {
        var i :| 1 <= i < hi && !IsBlank(Rows(csvText)[i]) && LineKey(csvText, i) == k;
        if i < hi - 1 {
          assert k in ValuesUpTo(csvText, hi - 1);
        }
      }
    }
  }

  /** Line `i` is non-blank and no later non-blank line before `hi` names
      the same province. */
  predicate LastNaming(csvText: string, hi: nat, i: nat)
    requires hi <= |Rows(csvText)|
  {
    && 1 <= i < hi
    && !IsBlank(Rows(csvText)[i])
    && forall j :: i < j < hi && !IsBlank(Rows(csvText)[j]) ==> LineKey(csvText, j) != LineKey(csvText, i)
  }

  /** A later line for the same province overwrites an earlier one: the
      value for a province is that of the last non-blank line naming it. */
  lemma {:induction false} LastLineWins(csvText: string, hi: nat, i: nat)
    requires hi <= |Rows(csvText)|
    requires LastNaming(csvText, hi, i)
    ensures var m := ValuesUpTo(csvText, hi);
      LineKey(csvText, i) in m && m[LineKey(csvText, i)] == LineValue(csvText, i)
  {
    if i < hi - 1 {
      var k := LineKey(csvText, i);
      assert LastNaming(csvText, hi - 1, i);
      LastLineWins(csvText, hi - 1, i);
      assert k in ValuesUpTo(csvText, hi - 1) && ValuesUpTo(csvText, hi - 1)[k] == LineValue(csvText, i);
      assert !IsBlank(Rows(csvText)[hi - 1]) ==> LineKey(csvText, hi - 1) != k;
      LineForOtherKey(csvText, hi, i);
      assert k in ValuesUpTo(csvText, hi) && ValuesUpTo(csvText, hi)[k] == LineValue(csvText, i);
    } else {
      LineSetsItsKey(csvText, i);
    }
  }

  /** A non-blank line sets its province's entry to its value. */
  lemma LineSetsItsKey(csvText: string, i: nat)
    requires 1 <= i < |Rows(csvText)| && !IsBlank(Rows(csvText)[i])
    ensures var m := ValuesUpTo(csvText, i + 1);
      LineKey(csvText, i) in m && m[LineKey(csvText, i)] == LineValue(csvText, i)
  {
    var m := ValuesUpTo(csvText, i);
    assert ValuesUpTo(csvText, i + 1) == m[LineKey(csvText, i) := LineValue(csvText, i)];
  }

  /** A line that names another province (or is blank) leaves the entry of
      line `i`'s province as it was. */
  lemma LineForOtherKey(csvText: string, hi: nat, i: nat)
    requires hi <= |Rows(csvText)|
    requires 1 <= i < hi - 1
    requires var m := ValuesUpTo(csvText, hi - 1);
      LineKey(csvText, i) in m && m[LineKey(csvText, i)] == LineValue(csvText, i)
    requires !IsBlank(Rows(csvText)[hi - 1]) ==> LineKey(csvText, hi - 1) != LineKey(csvText, i)
    ensures var m := ValuesUpTo(csvText, hi);
      LineKey(csvText, i) in m && m[LineKey(csvText, i)] == LineValue(csvText, i)
  {
  }

  /** `provinceData[provinceName] || 0`: the dictionary's value when it is
      a non-zero number, otherwise 0 (no entry, `NaN`, or 0 itself). */
  function JoinedValue(provinceData: ProvinceData, state: Option<string>): (v: real)
    ensures v != 0.0 <==> Key(state) in provinceData && provinceData[Key(state)].Some? && provinceData[Key(state)].value != 0.0
    ensures v != 0.0 ==> v == provinceData[Key(state)].value
  {
    var key := Key(state);
    if key in provinceData && provinceData[key].Some? then provinceData[key].value else 0.0
  }

  /** The join: a deep copy of the collection (`JSON.parse(JSON.stringify(...))`),
      then `feature.properties.value = provinceData[state] || 0` on each
      copied feature. The original collection is not touched. */
  method JoinValues(geojson: array<Feature>, provinceData: ProvinceData) returns (joined: array<Feature>)
    ensures fresh(joined)
    ensures joined.Length == geojson.Length
    ensures forall i :: 0 <= i < joined.Length ==>
      joined[i] == geojson[i].(value := Some(JoinedValue(provinceData, geojson[i].state)))
  {
    joined := new Feature[geojson.Length];
    var i := 0;
    while i < geojson.Length
      invariant 0 <= i <= geojson.Length
      invariant forall j :: 0 <= j < i ==> joined[j] == geojson[j]
    {
      joined[i] := geojson[i];
      i := i + 1;
    }
    i := 0;
    while i < joined.Length
      invariant 0 <= i <= joined.Length
      invariant forall j :: 0 <= j < i ==> joined[j] == geojson[j].(value := Some(JoinedValue(provinceData, geojson[j].state)))
      invariant forall j :: i <= j < joined.Length ==> joined[j] == geojson[j]
    {
      var provinceName := joined[i].state;
      joined[i] := joined[i].(value := Some(JoinedValue(provinceData, provinceName)));
      i := i + 1;
    }
  }
}
