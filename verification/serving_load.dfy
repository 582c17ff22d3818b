/**
 * Loading the feature collection for the API server (`_load_images_geojson`):
 * features without a geometry are dropped, and every kept feature gets its
 * own id and its location key stamped into its properties.
 */
module ServingLoad {
  import opened Wrappers
  import opened Runtime
  import opened Features
  import opened LocationKey

  /** `f` carries the stamps loading adds: its own id and the key of its coordinates. */
  predicate Stamped(num: Numerics, f: Feature) {
    && f.geometry.Some?
    && f.properties.id == Some(f.id)
    && f.properties.location == Some(LatLngKey(num, f.geometry.value.lng, f.geometry.value.lat))
  }

  /**
   * `f["properties"]["id"] = f["id"]` and
   * `f["properties"]["location"] = _lat_lng_key(*f["geometry"]["coordinates"])`;
   * the coordinates are `(lng, lat)`, so the key comes out latitude first.
   */
  function Stamp(num: Numerics, f: Feature): (g: Feature)
    requires f.geometry.Some?
    ensures Stamped(num, g)
    ensures g.id == f.id && g.geometry == f.geometry
    ensures g.properties.date == f.properties.date && g.properties.title == f.properties.title
    ensures g.properties.rest == f.properties.rest
  {
    var c := f.geometry.value;
    f.(properties := f.properties.(id := Some(f.id), location := Some(LatLngKey(num, c.lng, c.lat))))
  }

  /** The features `_load_images_geojson` returns for a parsed collection. */
  function LoadImages(num: Numerics, fs: seq<Feature>): (r: seq<Feature>)
    ensures |r| <= |fs|
    ensures forall g | g in r :: Stamped(num, g)
    ensures forall g | g in r :: exists f | f in fs && f.geometry.Some? :: g == Stamp(num, f)
    ensures forall f | f in fs && f.geometry.Some? :: Stamp(num, f) in r
  {
    if |fs| == 0 then []
    else
      var init := LoadImages(num, fs[..|fs| - 1]);
      var f := fs[|fs| - 1];
      assert fs == fs[..|fs| - 1] + [f];
      if f.geometry.Some? then init + [Stamp(num, f)] else init
  }

  /** One step of loading: the last feature is stamped and appended exactly when it has a point. */
  lemma LoadImagesSnoc(num: Numerics, fs: seq<Feature>, f: Feature)
    ensures LoadImages(num, fs + [f]) ==
      if f.geometry.Some? then LoadImages(num, fs) + [Stamp(num, f)] else LoadImages(num, fs)
  {
    var all := fs + [f];
    assert all[..|all| - 1] == fs && all[|all| - 1] == f;
  }

  /** Loading distributes over concatenation, so kept features stay in input order. */
  lemma {:induction false} LoadImagesAppend(num: Numerics, a: seq<Feature>, b: seq<Feature>)
    ensures LoadImages(num, a + b) == LoadImages(num, a) + LoadImages(num, b)
    decreases |b|
  {
    if |b| == 0 {
      assert a + b == a;
    } else {
      var b', f := b[..|b| - 1], b[|b| - 1];
      assert b == b' + [f];
      assert a + b == (a + b') + [f];
      LoadImagesAppend(num, a, b');
      LoadImagesSnoc(num, a + b', f);
      LoadImagesSnoc(num, b', f);
    }
  }

  /** Loading is filtering then stamping, position by position. */
  lemma {:induction false} LoadImagesIsStampedFilter(num: Numerics, fs: seq<Feature>)
    ensures |LoadImages(num, fs)| == |KeepGeolocated(fs)|
    ensures forall i | 0 <= i < |LoadImages(num, fs)| ::
      KeepGeolocated(fs)[i].geometry.Some? && LoadImages(num, fs)[i] == Stamp(num, KeepGeolocated(fs)[i])
    decreases |fs|
  {
    if |fs| > 0 {
      var init := fs[..|fs| - 1];
      var f := fs[|fs| - 1];
      LoadImagesIsStampedFilter(num, init);
      var loaded, kept := LoadImages(num, init), KeepGeolocated(init);
      if f.geometry.Some? {
        var all, allKept := LoadImages(num, fs), KeepGeolocated(fs);
        assert all == loaded + [Stamp(num, f)];
        assert allKept == kept + [f];
        forall i | 0 <= i < |all| ensures allKept[i].geometry.Some? && all[i] == Stamp(num, allKept[i]) {
          if i < |loaded| {
            assert all[i] == loaded[i] && allKept[i] == kept[i];
          }
        }
      } else {
        assert LoadImages(num, fs) == loaded;
        assert KeepGeolocated(fs) == kept;
      }
    }
  }

  /** Stamping an already stamped feature changes nothing. */
  lemma StampIdempotent(num: Numerics, f: Feature)
    requires f.geometry.Some?
    ensures Stamp(num, Stamp(num, f)) == Stamp(num, f)
  {
  }

  /** Normalisation is idempotent: loading loaded features returns them unchanged. */
  lemma {:induction false} LoadImagesIdempotent(num: Numerics, fs: seq<Feature>)
    ensures LoadImages(num, LoadImages(num, fs)) == LoadImages(num, fs)
    decreases |fs|
  {
    if |fs| > 0 {
      var init := fs[..|fs| - 1];
      var f := fs[|fs| - 1];
      LoadImagesIdempotent(num, init);
      if f.geometry.Some? {
        LoadImagesAppend(num, LoadImages(num, init), [Stamp(num, f)]);
        assert [Stamp(num, f)][..0] == [];
      }
    }
  }
}
