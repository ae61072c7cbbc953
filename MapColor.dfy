/** The choropleth's colours: the five-colour palette of the selected
    dataset's indicator, the range of the joined values, and the bucket a
    value falls in after min/max normalisation. */
module MapColor {
  import opened Wrappers
  import opened Datasets
  import opened MapJoin

  /** The colour of every bucket while no dataset is selected. */
  const NeutralColor := "#3a7bd5"

  const DefaultPalette: seq<string> := ["#edf8fb", "#b3cde3", "#8c96c6", "#8856a7", "#810f7c"]

  /** The `switch` on `dataset?.indicator`. */
  function Palette(indicator: Option<string>): (colors: seq<string>)
    ensures |colors| == 5
    ensures indicator.None? ==> colors == DefaultPalette
    ensures indicator.Some? && indicator.value !in {"Ketenagakerjaan", "Demografi", "Ekonomi", "Sosial", "Kemiskinan"}
            ==> colors == DefaultPalette
  {
    match indicator
    case Some("Ketenagakerjaan") => ["#f9ffef", "#c5e8b3", "#7aca7a", "#309c54", "#0d472d"]
    case Some("Demografi") => ["#e4e6f5", "#b6b4d8", "#9381b8", "#7b559e", "#5e2c8a"]
    case Some("Ekonomi") => ["#ffffcc", "#c7e9b4", "#7fcdbb", "#41b6c4", "#225ea8"]
    case Some("Sosial") => ["#feebe2", "#fcc5c0", "#fa9fb5", "#f768a1", "#ae017e"]
    case Some("Kemiskinan") => ["#fff7bc", "#fee391", "#fec44f", "#fe9929", "#cc4c02"]
    case _ => DefaultPalette
  }

  /** The indicator of the selected dataset, `undefined` when the id is not
      in the manifest or the entry has none. */
  function SelectedIndicator(selectedDataset: string, datasets: seq<Descriptor>): Option<string> {
    match FindDataset(datasets, selectedDataset)
    case Some(d) => d.indicator
    case None => None
  }

  /** `getColorScale`: five copies of the neutral colour without a selected
      dataset, otherwise the indicator's palette. */
  function ColorScale(selectedDataset: string, datasets: seq<Descriptor>): (colors: seq<string>)
    ensures |colors| == 5
    ensures selectedDataset == "" ==> forall k :: 0 <= k < 5 ==> colors[k] == NeutralColor
    ensures selectedDataset != "" ==> colors == Palette(SelectedIndicator(selectedDataset, datasets))
  {
    if selectedDataset == "" then [NeutralColor, NeutralColor, NeutralColor, NeutralColor, NeutralColor]
    else Palette(SelectedIndicator(selectedDataset, datasets))
  }

  /** `getLegendColorScale`, written out a second time in the page: the
      legend always shows the colours the map uses. */
  function LegendColorScale(selectedDataset: string, datasets: seq<Descriptor>): (colors: seq<string>)
    ensures colors == ColorScale(selectedDataset, datasets)
  {
    if selectedDataset == "" then ["#3a7bd5", "#3a7bd5", "#3a7bd5", "#3a7bd5", "#3a7bd5"]
    else
      var indicator := match FindDataset(datasets, selectedDataset)
                       case Some(d) => d.indicator
                       case None => None;
      match indicator
      case Some("Ketenagakerjaan") => ["#f9ffef", "#c5e8b3", "#7aca7a", "#309c54", "#0d472d"]
      case Some("Demografi") => ["#e4e6f5", "#b6b4d8", "#9381b8", "#7b559e", "#5e2c8a"]
      case Some("Ekonomi") => ["#ffffcc", "#c7e9b4", "#7fcdbb", "#41b6c4", "#225ea8"]
      case Some("Sosial") => ["#feebe2", "#fcc5c0", "#fa9fb5", "#f768a1", "#ae017e"]
      case Some("Kemiskinan") => ["#fff7bc", "#fee391", "#fec44f", "#fe9929", "#cc4c02"]
      case _ => ["#edf8fb", "#b3cde3", "#8c96c6", "#8856a7", "#810f7c"]
  }

  // ---------------------------------------------------------------------
  // Range of the joined values

  /** JavaScript truthiness of a feature's `value`: a number other than 0
      (`undefined` and `NaN` are `None`). */
  predicate Truthy(v: Option<real>) {
    v.Some? && v.value != 0.0
  }

  /** `Math.min` of two numbers. */
  function Min(a: real, b: real): (m: real)
    ensures m <= a && m <= b && (m == a || m == b)
  {
    if a <= b then a else b
  }

  /** `Math.max` of two numbers. */
  function Max(a: real, b: real): (m: real)
    ensures m >= a && m >= b && (m == a || m == b)
  {
    if a >= b then a else b
  }

  /** `min` and `max` over the truthy values of `features`; `None` stands for
      the starting `Infinity` / `-Infinity` that no truthy value replaced. */
  function Range(features: seq<Feature>): (range: Option<(real, real)>)
    ensures range.Some? ==> range.value.0 <= range.value.1
    decreases |features|
  {
    if features == [] then None
    else
      var range := Range(features[..|features| - 1]);
      var f := features[|features| - 1];
      if !Truthy(f.value) then range
      else match range
           case None => Some((f.value.value, f.value.value))
           case Some((lo, hi)) => Some((Min(lo, f.value.value), Max(hi, f.value.value)))
  }

  /** `Range` is the least and the greatest truthy value, and there is none
      exactly when no value is truthy. */
  lemma {:induction false} RangeIsMinMax(features: seq<Feature>)
    ensures Range(features).None? <==> forall i :: 0 <= i < |features| ==> !Truthy(features[i].value)
    ensures Range(features).Some? ==>
      var (lo, hi) := Range(features).value;
      && lo <= hi
      && (exists i :: 0 <= i < |features| && Truthy(features[i].value) && features[i].value.value == lo)
      && (exists i :: 0 <= i < |features| && Truthy(features[i].value) && features[i].value.value == hi)
      && (forall i :: 0 <= i < |features| && Truthy(features[i].value) ==> lo <= features[i].value.value <= hi)
    decreases |features|
  {
    if features != [] {
      var init := features[..|features| - 1];
      RangeIsMinMax(init);
      assert forall i :: 0 <= i < |init| ==> init[i] == features[i];
      var n := |features| - 1;
      if Truthy(features[n].value) && Range(init).Some? {
        var (lo, hi) := Range(init).value;
        var v := features[n].value.value;
        var i0 :| 0 <= i0 < |init| && Truthy(init[i0].value) && init[i0].value.value == lo;
        var i1 :| 0 <= i1 < |init| && Truthy(init[i1].value) && init[i1].value.value == hi;
        if v < lo { assert features[n].value.value == Min(lo, v); } else { assert features[i0].value.value == Min(lo, v); }
        if v > hi { assert features[n].value.value == Max(hi, v); } else { assert features[i1].value.value == Max(hi, v); }
      } else if Truthy(features[n].value) {
        assert features[n].value.value == Range(features).value.0;
      } else if Range(init).Some? {
        var (lo, hi) := Range(init).value;
        var i0 :| 0 <= i0 < |init| && Truthy(init[i0].value) && init[i0].value.value == lo;
        var i1 :| 0 <= i1 < |init| && Truthy(init[i1].value) && init[i1].value.value == hi;
        assert features[i0] == init[i0] && features[i1] == init[i1];
      }
    }
  }

  /** The `forEach` over the joined collection that narrows `min` and `max`. */
  method ValueRange(features: array<Feature>) returns (range: Option<(real, real)>)
    ensures range == Range(features[..])
  {
    range := None;
    var i := 0;
    while i < features.Length
      invariant 0 <= i <= features.Length
      invariant range == Range(features[..i])
    {
      assert features[..i + 1][..i] == features[..i];
      var f := features[i];
      if Truthy(f.value) {
        var value := f.value.value;
        match range {
          case None => range := Some((value, value));
          case Some((lo, hi)) => range := Some((Min(lo, value), Max(hi, value)));
        }
      }
      i := i + 1;
    }
    assert features[..i] == features[..];
  }

  // ---------------------------------------------------------------------
  // Classification

  /** `Math.min(Math.floor(normalized * 5), 4)` with
      `normalized = (value - min) / (max - min || 1)`. Below `min` the index
      is negative, and `colors[index]` is then `undefined`. */
  function Bucket(v: real, lo: real, hi: real): (index: int)
    requires lo <= hi
    ensures index <= 4
    ensures 0 <= index <==> lo <= v
    ensures v == lo ==> index == 0
    ensures lo < hi && hi <= v ==> index == 4
  {
    var divisor := if hi - lo != 0.0 then hi - lo else 1.0;
    var normalized := (v - lo) / divisor;
    DivideByPositive(v - lo, divisor);
    var scaled := (normalized * 5.0).Floor;
    if scaled < 4 then scaled else 4
  }

  /** Multiplying by a positive number keeps the order. */
  lemma MultiplyByPositive(a: real, b: real, d: real)
    requires d > 0.0
    ensures a <= b <==> a * d <= b * d
  {
    assert b * d - a * d == (b - a) * d;
    if a <= b {
      assert (b - a) * d >= 0.0;
    } else {
      assert (a - b) * d > 0.0;
    }
  }

  /** Dividing by a positive number keeps the sign and maps the divisor to 1. */
  lemma DivideByPositive(x: real, d: real)
    requires d > 0.0
    ensures x / d * d == x
    ensures 0.0 <= x <==> 0.0 <= x / d
    ensures d <= x ==> 1.0 <= x / d
  {
    var q := x / d;
    assert q * d == x;
    MultiplyByPositive(0.0, q, d);
    MultiplyByPositive(1.0, q, d);
  }

  /** Dividing by a positive number keeps the order. */
  lemma DivideMonotone(x: real, y: real, d: real)
    requires d > 0.0 && x <= y
    ensures x / d <= y / d
  {
    var a, b := x / d, y / d;
    assert a * d == x;
    assert b * d == y;
    MultiplyByPositive(a, b, d);
  }

  /** A larger value never falls in a lower bucket. */
  lemma BucketMonotone(v: real, w: real, lo: real, hi: real)
    requires lo <= hi && v <= w
    ensures Bucket(v, lo, hi) <= Bucket(w, lo, hi)
  {
    var d := if hi - lo != 0.0 then hi - lo else 1.0;
    DivideMonotone(v - lo, w - lo, d);
  }

  /** The buckets are five equal intervals of `[min, max]`: a value reaches
      bucket `k` exactly when it is at least `min + k * (max - min) / 5`. */
  lemma BucketThresholds(v: real, lo: real, hi: real, k: int)
    requires lo < hi && 0 <= k <= 4
    ensures Bucket(v, lo, hi) >= k <==> v >= lo + (k as real) * (hi - lo) / 5.0
  {
    var d := hi - lo;
    var n := (v - lo) / d;
    var kr := k as real;
    DivideByPositive(v - lo, d);
    MultiplyByPositive(kr / 5.0, n, d);
    ScaleByFifth(kr, d);
    assert kr / 5.0 <= n <==> kr * d / 5.0 <= v - lo;
    assert Bucket(v, lo, hi) >= k <==> (n * 5.0).Floor >= k;
    assert (n * 5.0).Floor >= k <==> n * 5.0 >= kr;
  }

  /** A fifth of a product is the product with a fifth of one factor. */
  lemma ScaleByFifth(a: real, d: real)
    ensures (a / 5.0) * d == a * d / 5.0
  {
  }

  /** Every truthy value of the joined collection gets a colour from the
      palette: the least in bucket 0, the greatest in bucket 4 (or 0 when
      all truthy values are equal). */
  lemma JoinedValueBucket(features: seq<Feature>, i: nat)
    requires i < |features| && Truthy(features[i].value)
    ensures Range(features).Some?
    ensures var (lo, hi) := Range(features).value;
      lo <= hi &&
      var index := Bucket(features[i].value.value, lo, hi);
      && 0 <= index <= 4
      && (features[i].value.value == lo ==> index == 0)
      && (features[i].value.value == hi ==> index == (if lo < hi then 4 else 0))
  {
    RangeIsMinMax(features);
  }
}
