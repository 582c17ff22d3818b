/**
 * The development server of backend/app.py: an older key function and
 * counter, a reload rule driven by the file's modification time, the record
 * flattener `poi_to_rec` and a first-match lookup by photo id.
 */
module DevServer {
  import opened Wrappers
  import opened Runtime
  import opened Features
  import opened LatLngText
  import opened LocationKey
  import opened Counting
  import opened ServingLoad
  import opened ServingIndex

  /** `old_toronto_key(lat, lng)`: latitude first in both the arguments and the key. */
  function OldTorontoKey(num: Numerics, lat: real, lng: real): (key: string)
    ensures key == LatLngKey(num, lng, lat)
  {
    Join(KeyPart(num, lat), KeyPart(num, lng))
  }

  /** The server's global state: the kept features and the file time they were read at. */
  datatype DevState = DevState(features: seq<Feature>, mtime: real)

  /** `geojson_features = []` and `geojson_file_mtime = 0` before the first load. */
  const Initial: DevState := DevState([], 0.0)

  /** Every kept feature has a geometry, which the counter unpacks. */
  predicate Geolocated(st: DevState) {
    forall f | f in st.features :: f.geometry.Some?
  }

  /**
   * The globals before any load hold nothing at time 0; the reload rule
   * applied to them loads any file with a positive modification time.
   */
  lemma InitialLoadsNewerFile(fileMtime: real, file: seq<Feature>)
    ensures Geolocated(Initial)
    ensures fileMtime > 0.0 ==> MaybeReload(Initial, fileMtime, file) == LoadGeojsonFeatures(fileMtime, file)
  {
  }

  /**
   * `load_geojson_features`: record the file's time, keep the features of
   * the file that have a geometry.
   */
  function LoadGeojsonFeatures(fileMtime: real, file: seq<Feature>): (st: DevState)
    ensures st.mtime == fileMtime
    ensures Geolocated(st)
    ensures forall f | f in file :: f in st.features <==> f.geometry.Some?
    ensures st.features == KeepGeolocated(file)
  {
    DevState(KeepGeolocated(file), fileMtime)
  }

  /** `maybe_load_geojson_features`: reload exactly when the file is strictly newer. */
  function MaybeReload(st: DevState, fileMtime: real, file: seq<Feature>): (r: DevState)
    ensures fileMtime > st.mtime ==> r == LoadGeojsonFeatures(fileMtime, file)
    ensures fileMtime <= st.mtime ==> r == st
  {
    if fileMtime > st.mtime then LoadGeojsonFeatures(fileMtime, file) else st
  }

  /** The recorded time only grows: it is the larger of the old one and the file's. */
  lemma ReloadRecordsLatest(st: DevState, fileMtime: real, file: seq<Feature>)
    ensures MaybeReload(st, fileMtime, file).mtime >= st.mtime
    ensures MaybeReload(st, fileMtime, file).mtime >= fileMtime
    ensures MaybeReload(st, fileMtime, file).mtime == st.mtime || MaybeReload(st, fileMtime, file).mtime == fileMtime
  {
  }

  /** A second check at an unchanged file time reloads nothing, whatever the file now holds. */
  lemma ReloadSettles(st: DevState, fileMtime: real, file: seq<Feature>, file': seq<Feature>)
    ensures MaybeReload(MaybeReload(st, fileMtime, file), fileMtime, file') == MaybeReload(st, fileMtime, file)
  {
  }

  /** Reloading keeps the state's features geolocated. */
  lemma ReloadKeepsGeolocated(st: DevState, fileMtime: real, file: seq<Feature>)
    requires Geolocated(st)
    ensures Geolocated(MaybeReload(st, fileMtime, file))
  {
  }

  /** How many features have old key `key` and year bucket `year`. */
  function KeyYearCount(num: Numerics, fs: seq<Feature>, key: string, year: string): nat
    requires forall f | f in fs :: f.geometry.Some?
  {
    if |fs| == 0 then 0
    else
      var f := fs[|fs| - 1];
      var c := f.geometry.value;
      KeyYearCount(num, fs[..|fs| - 1], key, year)
        + (if OldTorontoKey(num, c.lat, c.lng) == key && Year(f.properties) == year then 1 else 0)
  }

  /** `lng, lat = f["geometry"]["coordinates"]` then `(old_toronto_key(lat, lng), date or "")`. */
  function KeyYears(num: Numerics, fs: seq<Feature>): (pairs: seq<(string, string)>)
    requires forall f | f in fs :: f.geometry.Some?
    ensures |pairs| == |fs|
  {
    if |fs| == 0 then []
    else
      var f := fs[|fs| - 1];
      var c := f.geometry.value;
      KeyYears(num, fs[..|fs| - 1]) + [(OldTorontoKey(num, c.lat, c.lng), Year(f.properties))]
  }

  lemma {:induction false} KeyYearsCount(num: Numerics, fs: seq<Feature>, key: string, year: string)
    requires forall f | f in fs :: f.geometry.Some?
    ensures Occurrences(KeyYears(num, fs), key, year) == KeyYearCount(num, fs, key, year)
    decreases |fs|
  {
    if |fs| > 0 {
      KeyYearsCount(num, fs[..|fs| - 1], key, year);
      assert KeyYears(num, fs)[..|fs| - 1] == KeyYears(num, fs[..|fs| - 1]);
    }
  }

  /**
   * `_lat_lng_counts`: for each old key, how many features have each year,
   * with a null or empty date counted under `""`.
   */
  function LatLngCounts(num: Numerics, fs: seq<Feature>): (r: YearCounts)
    requires forall f | f in fs :: f.geometry.Some?
    ensures forall key, year :: Get(r, key, year) == KeyYearCount(num, fs, key, year)
    ensures forall key | key in r :: |r[key]| > 0
    ensures forall key, year | key in r && year in r[key] :: r[key][year] > 0
  {
    var r := CountPairs(KeyYears(num, fs));
    forall key, year ensures Get(r, key, year) == KeyYearCount(num, fs, key, year) {
      KeyYearsCount(num, fs, key, year);
    }
    r
  }

  /** The dev server's pairs are the serving loader's (location, year) pairs. */
  lemma {:induction false} KeyYearsAreLocationYears(num: Numerics, fs: seq<Feature>)
    requires forall f | f in fs :: f.geometry.Some?
    ensures HasLocations(LoadImages(num, fs))
    ensures KeyYears(num, fs) == LocationYears(LoadImages(num, fs))
    decreases |fs|
  {
    LoadedHasLocations(num, fs);
    if |fs| > 0 {
      var init := fs[..|fs| - 1];
      KeyYearsAreLocationYears(num, init);
    }
  }

  /**
   * The older counter and the serving `_locations` agree: on the features the
   * dev server keeps, `_lat_lng_counts` equals `_locations` of the same file
   * loaded by the API server.
   */
  lemma DevCountsAgree(num: Numerics, file: seq<Feature>)
    ensures HasLocations(LoadImages(num, file))
    ensures LatLngCounts(num, KeepGeolocated(file)) == Locations(LoadImages(num, file))
  {
    var kept := KeepGeolocated(file);
    LoadedHasLocations(num, file);
    KeyYearsAreLocationYears(num, kept);
    KeepGeolocatedIdempotent(file);
    LoadImagesKeptEqual(num, file);
  }

  /** Loading the kept features is loading the whole file: filtering first changes nothing. */
  lemma {:induction false} LoadImagesKeptEqual(num: Numerics, file: seq<Feature>)
    ensures LoadImages(num, KeepGeolocated(file)) == LoadImages(num, file)
    decreases |file|
  {
    if |file| > 0 {
      var init := file[..|file| - 1];
      var f := file[|file| - 1];
      LoadImagesKeptEqual(num, init);
      if f.geometry.Some? {
        LoadImagesAppend(num, KeepGeolocated(init), [f]);
        assert [f][..0] == [];
      }
    }
  }

  /** Why `poi_to_rec` raises. */
  datatype RecError =
    | MissingKey(key: string)      // KeyError from `pop`
    | NotAnObject(key: string)     // `image` has no dictionary `pop`
    | RepeatedKeyword(key: string) // TypeError: `id` passed twice to `dict`

  /** The conditions under which `poi_to_rec` returns. */
  predicate Flattenable(props: map<string, Value>) {
    && "image" in props
    && props["image"].Object?
    && "url" in props["image"].fields
    && "id" !in props
  }

  /**
   * `poi_to_rec` on a feature's id and properties: the image fields, with
   * `url` renamed `image_url`, then `id`, then the other properties, each
   * later source overriding an earlier one.
   */
  function Flatten(id: string, props: map<string, Value>): (r: Result<map<string, Value>, RecError>)
    ensures r.Ok? <==> Flattenable(props)
    ensures r.Ok? ==> var image := props["image"].fields;
      && r.value.Keys == (image.Keys - {"url"}) + {"image_url", "id"} + (props.Keys - {"image"})
      && r.value["id"] == Str(id)
      && ("image_url" !in props ==> r.value["image_url"] == image["url"])
      && (forall k | k in props && k != "image" :: r.value[k] == props[k])
      && (forall k | k in image && k !in {"url", "image_url", "id"} && k !in props :: r.value[k] == image[k])
  {
    if "image" !in props then Err(MissingKey("image"))
    else
      match props["image"]
      case Object(image) =>
        if "url" !in image then Err(MissingKey("url"))
        else
          var rest := props - {"image"};
          var flat := (image - {"url"})["image_url" := image["url"]];
          if "id" in rest then Err(RepeatedKeyword("id"))
          else Ok(flat + map["id" := Str(id)] + rest)
      case _ => Err(NotAnObject("image"))
  }

  /** `poi_to_rec(poi)`, on a deep copy, so the feature itself is left as it was. */
  function PoiToRec(poi: Feature): (r: Result<map<string, Value>, RecError>)
    ensures r.Ok? ==> "id" in r.value && r.value["id"] == Str(poi.id)
    ensures r.Ok? ==> "title" in r.value && r.value["title"] == Str(poi.properties.title)
    ensures poi.properties.id.Some? || "id" in poi.properties.rest ==> r.Err?
  {
    Flatten(poi.id, PropsToMap(poi.properties))
  }

  /**
   * `_by_photo_id`: the first feature in list order with the id, or `None`
   * exactly when no feature has it (the route then answers 404).
   */
  method ByPhotoId(fs: seq<Feature>, photoId: string) returns (r: Option<Feature>)
    ensures r.None? <==> forall i | 0 <= i < |fs| :: fs[i].id != photoId
    ensures r.Some? ==> exists i | 0 <= i < |fs| ::
      && fs[i] == r.value && fs[i].id == photoId
      && forall j | 0 <= j < i :: fs[j].id != photoId
  {
    for i := 0 to |fs|
      invariant forall j | 0 <= j < i :: fs[j].id != photoId
    {
      if fs[i].id == photoId {
        return Some(fs[i]);
      }
    }
    return None;
  }
}
