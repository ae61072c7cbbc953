/** The map page's state and handlers: the drawer, the dataset selector,
    the layer opacity, the tile provider, the data join effect and the
    fill colour of a feature. */
module MapPage {
  import opened Wrappers
  import opened Datasets
  import opened MapJoin
  import opened MapColor

  /** A base-map tile source. `maxZoom` is `undefined` for a provider that
      does not set one. */
  datatype TileProvider = TileProvider(name: string, url: string, maxZoom: Option<nat>)

  /** The five providers the page offers, in menu order. */
  const TileProviders: seq<TileProvider> := [
    TileProvider("OpenStreetMap", "https://{s}.tile.openstreetmap.org/{z}/{x}/{y}.png", Some(19)),
    TileProvider("OpenTopoMap", "https://{s}.tile.opentopomap.org/{z}/{x}/{y}.png", Some(17)),
    TileProvider("ESRI World Imagery", "https://server.arcgisonline.com/ArcGIS/rest/services/World_Imagery/MapServer/tile/{z}/{y}/{x}", Some(19)),
    TileProvider("CartoDB Dark", "https://{s}.basemaps.cartocdn.com/dark_all/{z}/{x}/{y}{r}.png", Some(19)),
    TileProvider("CartoDB Voyager", "https://{s}.basemaps.cartocdn.com/rastertiles/voyager/{z}/{x}/{y}{r}.png", Some(19))
  ]

  /** `tileProvider.maxZoom || 19`: the provider's own limit, or 19 when it
      has none (or 0). */
  function EffectiveMaxZoom(p: TileProvider): (zoom: nat)
    ensures zoom > 0
    ensures p.maxZoom.Some? && p.maxZoom.value != 0 ==> zoom == p.maxZoom.value
    ensures p.maxZoom.None? || p.maxZoom.value == 0 ==> zoom == 19
  {
    match p.maxZoom
    case Some(z) => if z != 0 then z else 19
    case None => 19
  }

  /** Every offered provider sets its own limit: 17 for the topographic
      map, 19 for the others. */
  lemma ProviderZoomLimits()
    ensures forall k :: 0 <= k < |TileProviders| ==>
      EffectiveMaxZoom(TileProviders[k]) == if TileProviders[k].name == "OpenTopoMap" then 17 else 19
  {
  }

  class MapView {
    var selectedDataset: string
    var datasets: seq<Descriptor>
    var geojsonData: array?<Feature>
    var geojsonDataWithValues: array?<Feature>
    var drawerOpen: bool
    var opacity: real
    var legendOpen: bool
    var selectedTileProvider: TileProvider

    /** The initial state: the drawer starts open except on small screens,
        and the first provider is selected. */
    constructor (isMobile: bool)
      ensures selectedDataset == "" && datasets == []
      ensures geojsonData == null && geojsonDataWithValues == null
      ensures drawerOpen == !isMobile
      ensures opacity == 0.7 && legendOpen
      ensures selectedTileProvider == TileProviders[0]
    {
      selectedDataset := "";
      datasets := [];
      geojsonData := null;
      geojsonDataWithValues := null;
      drawerOpen := !isMobile;
      opacity := 0.7;
      legendOpen := true;
      selectedTileProvider := TileProviders[0];
    }

    /** `toggleDrawer`: flips the drawer and nothing else. */
    method ToggleDrawer()
      modifies this`drawerOpen
      ensures drawerOpen == !old(drawerOpen)
    {
      drawerOpen := !drawerOpen;
    }

    /** `handleDatasetChange`. */
    method DatasetChange(value: string)
      modifies this`selectedDataset
      ensures selectedDataset == value
    {
      selectedDataset := value;
    }

    /** `handleOpacityChange`. */
    method OpacityChange(newValue: real)
      modifies this`opacity
      ensures opacity == newValue
    {
      opacity := newValue;
    }

    /** `handleTileProviderChange`. */
    method TileProviderChange(provider: TileProvider)
      modifies this`selectedTileProvider
      ensures selectedTileProvider == provider
    {
      selectedTileProvider := provider;
    }

    /** The manifest effect; a failed fetch leaves the state as it is. */
    method LoadDatasets(manifest: Option<seq<Descriptor>>)
      modifies this`datasets
      ensures datasets == if manifest.Some? then manifest.value else old(datasets)
    {
      if manifest.Some? {
        datasets := manifest.value;
      }
    }

    /** The GeoJSON effect; a failed fetch leaves the state as it is. */
    method LoadGeoJson(collection: Option<array<Feature>>)
      modifies this`geojsonData
      ensures geojsonData == if collection.Some? then collection.value else old(geojsonData)
    {
      if collection.Some? {
        geojsonData := collection.value;
      }
    }

    /** The dataset effect: with a dataset selected and the GeoJSON loaded,
        fetch the dataset's CSV, build the dictionary and store a joined
        copy of the collection. The loaded collection itself is not
        changed. Without a dataset or GeoJSON, or when the fetch fails,
        nothing changes. */
    method LoadDatasetValues(fetch: string -> Option<string>)
      modifies this`geojsonDataWithValues
      ensures var text := fetch(CsvPath(selectedDataset, datasets));
        if selectedDataset == "" || geojsonData == null || text.None? then
          geojsonDataWithValues == old(geojsonDataWithValues)
        else
          && geojsonDataWithValues != null
          && fresh(geojsonDataWithValues)
          && geojsonDataWithValues.Length == geojsonData.Length
          && forall i :: 0 <= i < geojsonData.Length ==>
               geojsonDataWithValues[i]
               == geojsonData[i].(value := Some(JoinedValue(ProvinceValuesOf(text.value), geojsonData[i].state)))
    {
      if selectedDataset == "" || geojsonData == null {
        return;
      }
      var text := fetch(CsvPath(selectedDataset, datasets));
      if text.None? {
        return;
      }
      var provinceData := ProvinceValues(text.value);
      var newGeojsonData := JoinValues(geojsonData, provinceData);
      geojsonDataWithValues := newGeojsonData;
    }

    /** `getColor`: `colors[0]` without a selected dataset or for a falsy
        value; otherwise the palette colour of the value's bucket within
        the range of the joined collection. `None` is `undefined`: the
        index is `NaN` when no joined value is truthy (or nothing is joined
        yet, so `min` and `max` stay infinite), and negative for a value
        below the minimum. */
    method GetColor(feature: Feature) returns (color: Option<string>)
      ensures selectedDataset == "" || !Truthy(feature.value) ==>
        color == Some(ColorScale(selectedDataset, datasets)[0])
      ensures selectedDataset != "" && Truthy(feature.value) ==>
        var range: Option<(real, real)> := if geojsonDataWithValues == null then None else Range(geojsonDataWithValues[..]);
        match range
        case None => color == None
        case Some((lo, hi)) =>
          var index := Bucket(feature.value.value, lo, hi);
          color == if 0 <= index then Some(ColorScale(selectedDataset, datasets)[index]) else None
    {
      var colors := ColorScale(selectedDataset, datasets);
      if selectedDataset == "" || !Truthy(feature.value) {
        return Some(colors[0]);
      }
      var value := feature.value.value;
      var range: Option<(real, real)> := None;
      if geojsonDataWithValues != null {
        range := ValueRange(geojsonDataWithValues);
      }
      match range {
        case None =>
          color := None;
        case Some((lo, hi)) =>
          var colorIndex := Bucket(value, lo, hi);
          if 0 <= colorIndex {
            color := Some(colors[colorIndex]);
          } else {
            color := None;
          }
      }
    }
  }
}
