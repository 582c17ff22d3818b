/**
 * The API server's derived state and its four read routes (`create_app`):
 * the state is built once from the loaded features and the curated ids,
 * tagged with an ETag, and every route answers "not modified" for a
 * matching tag before it looks anything up.
 */
module ServingRoutes {
  import opened Wrappers
  import opened Runtime
  import opened Features
  import opened Counting
  import opened ServingLoad
  import opened ServingIndex
  import opened ServingFeatured

  /** `ETAG_VERSION`, bumped when a payload's shape changes but its content does not. */
  const EtagVersion: string := "2"

  /** What the digest consumes: the version tag, then both payloads, with no separator. */
  function EtagInput(locationsJson: string, imagesJson: string): string {
    EtagVersion + locationsJson + imagesJson
  }

  /** `_etag`: md5 fed the version, the locations JSON and the images JSON in turn. */
  function Etag(md5: string -> string, locationsJson: string, imagesJson: string): string {
    md5(EtagInput(locationsJson, imagesJson))
  }

  /** The tag depends on the payloads only through their concatenation. */
  lemma EtagSeesConcatenation(md5: string -> string, l1: string, i1: string, l2: string, i2: string)
    requires l1 + i1 == l2 + i2
    ensures Etag(md5, l1, i1) == Etag(md5, l2, i2)
  {
    assert EtagInput(l1, i1) == EtagVersion + (l1 + i1);
    assert EtagInput(l2, i2) == EtagVersion + (l2 + i2);
  }

  /** With the locations payload fixed, the digest input tells the images payloads apart. */
  lemma EtagInputSeparatesImages(l: string, i1: string, i2: string)
    ensures EtagInput(l, i1) == EtagInput(l, i2) <==> i1 == i2
  {
    var p := EtagVersion + l;
    if EtagInput(l, i1) == EtagInput(l, i2) {
      assert EtagInput(l, i1)[|p|..] == i1;
      assert EtagInput(l, i2)[|p|..] == i2;
    }
  }

  /** With the images payload fixed, the digest input tells the locations payloads apart. */
  lemma EtagInputSeparatesLocations(l1: string, l2: string, i: string)
    ensures EtagInput(l1, i) == EtagInput(l2, i) <==> l1 == l2
  {
    if EtagInput(l1, i) == EtagInput(l2, i) {
      assert |l1| == |l2|;
      assert EtagInput(l1, i)[|EtagVersion|..|EtagVersion| + |l1|] == l1;
      assert EtagInput(l2, i)[|EtagVersion|..|EtagVersion| + |l2|] == l2;
    }
  }

  /**
   * The digest input is the version tag followed by the two payloads run
   * together, so moving text across the boundary between the payloads leaves
   * it unchanged.
   */
  lemma EtagBoundaryInvisible(l1: string, i1: string, l2: string, i2: string)
    ensures EtagInput(l1, i1)[..|EtagVersion|] == EtagVersion
    ensures EtagInput(l1, i1)[|EtagVersion|..] == l1 + i1
    ensures l1 + i1 == l2 + i2 ==> EtagInput(l1, i1) == EtagInput(l2, i2)
  {
    assert EtagInput(l1, i1) == EtagVersion + (l1 + i1);
    assert EtagInput(l2, i2) == EtagVersion + (l2 + i2);
  }

  /** Everything `create_app` derives and keeps in `app.config`. */
  datatype Snapshot = Snapshot(
    byLocation: map<string, map<string, Props>>,
    byImage: map<string, Props>,
    locations: YearCounts,
    locationsJson: string,
    images: seq<Props>,
    imagesJson: string,
    etag: string)

  /** Loading gives every image-index entry its own id as `id` property. */
  lemma LoadedIdsAsKeys(num: Numerics, raw: seq<Feature>)
    ensures IdsAsKeys(ByImage(LoadImages(num, raw)))
  {
    forall id | id in ByImage(LoadImages(num, raw)) ensures ByImage(LoadImages(num, raw))[id].id == Some(id) {
      ByImageOfLoaded(num, raw, id);
    }
  }

  /**
   * `create_app`: load, derive the three indices and the featured list from
   * the loaded features, serialise the location counts and the featured
   * list, and tag the pair of payloads.
   */
  function BuildSnapshot(num: Numerics, codec: Codec<YearCounts, seq<Props>>, raw: seq<Feature>, featured: seq<string>): (s: Snapshot)
    ensures HasLocations(LoadImages(num, raw))
    ensures s.byLocation == ByLocation(LoadImages(num, raw)) && s.byImage == ByImage(LoadImages(num, raw))
    ensures s.locations == Locations(LoadImages(num, raw))
    ensures IdsAsKeys(s.byImage)
    ensures s.images == FeaturedImages(featured, s.byImage)
    ensures s.locationsJson == codec.locationsJson(s.locations) && s.imagesJson == codec.imagesJson(s.images)
    ensures s.etag == Etag(codec.md5, s.locationsJson, s.imagesJson)
  {
    var fs := LoadImages(num, raw);
    LoadedHasLocations(num, raw);
    LoadedIdsAsKeys(num, raw);
    var byLocation := ByLocation(fs);
    var byImage := ByImage(fs);
    var locations := Locations(fs);
    var locationsJson := codec.locationsJson(locations);
    var images := FeaturedImages(featured, byImage);
    var imagesJson := codec.imagesJson(images);
    Snapshot(byLocation, byImage, locations, locationsJson, images, imagesJson,
             Etag(codec.md5, locationsJson, imagesJson))
  }

  /** The featured list is in `(date or "", title, id)` order. */
  predicate SortedByKey(images: seq<Props>) {
    Sorting.SortedBy(images, FeatureKey)
  }

  /**
   * The views of one snapshot agree with each other: the same locations are
   * counted and listed, no listed location is empty, every image filed
   * under a location is in the image index, every image-index entry carries
   * its own id, and the featured list is sorted.
   */
  lemma SnapshotConsistent(num: Numerics, codec: Codec<YearCounts, seq<Props>>, raw: seq<Feature>, featured: seq<string>)
    ensures var s := BuildSnapshot(num, codec, raw, featured);
      && s.byLocation.Keys == s.locations.Keys
      && (forall loc | loc in s.byLocation :: |s.byLocation[loc]| > 0)
      && (forall loc, id | loc in s.byLocation && id in s.byLocation[loc] :: id in s.byImage)
      && IdsAsKeys(s.byImage)
      && SortedByKey(s.images)
  {
    var fs := LoadImages(num, raw);
    LoadedHasLocations(num, raw);
    LoadedIdsAsKeys(num, raw);
    IndicesConsistent(fs);
    var s := BuildSnapshot(num, codec, raw, featured);
    assert s.locations == Locations(fs);
    assert s.images == FeaturedImages(featured, ByImage(fs));
  }

  /** The location counts, location index and image index of the same features agree. */
  lemma IndicesConsistent(fs: seq<Feature>)
    requires HasLocations(fs)
    ensures ByLocation(fs).Keys == Locations(fs).Keys
    ensures forall loc | loc in ByLocation(fs) :: |ByLocation(fs)[loc]| > 0
    ensures forall loc, id | loc in ByLocation(fs) && id in ByLocation(fs)[loc] :: id in ByImage(fs)
  {
    forall loc | loc in ByLocation(fs) ensures |ByLocation(fs)[loc]| > 0 {
      ByLocationNonEmpty(fs, loc);
    }
    forall loc, id | loc in ByLocation(fs) && id in ByLocation(fs)[loc] ensures id in ByImage(fs) {
      ByLocationIdsAreImages(fs, loc, id);
    }
  }

  /** A route's answer: 304, 404, or a payload sent with the current tag. */
  datatype Response<T> = NotModified | NotFound | Served(body: T, etag: string)

  /** `/api/locations_ex.json`. */
  function LocationsRoute(s: Snapshot, ifNoneMatch: set<string>): (r: Response<string>)
    ensures r.NotModified? <==> s.etag in ifNoneMatch
    ensures !r.NotModified? ==> r == Served(s.locationsJson, s.etag)
  {
    if s.etag in ifNoneMatch then NotModified
    else Served(s.locationsJson, s.etag)
  }

  /** `/api/locations/<location_id>.json`; an unknown or empty location is 404. */
  function LocationRoute(s: Snapshot, ifNoneMatch: set<string>, locationId: string): (r: Response<map<string, Props>>)
    ensures r.NotModified? <==> s.etag in ifNoneMatch
    ensures r.NotFound? <==> s.etag !in ifNoneMatch && (locationId !in s.byLocation || |s.byLocation[locationId]| == 0)
    ensures r.Served? ==> locationId in s.byLocation && r.body == s.byLocation[locationId] && r.etag == s.etag
  {
    if s.etag in ifNoneMatch then NotModified
    else
      var location := if locationId in s.byLocation then Some(s.byLocation[locationId]) else None;
      if location.None? || |location.value| == 0 then NotFound
      else Served(location.value, s.etag)
  }

  /** `/api/images_ex.json`. */
  function ImagesRoute(s: Snapshot, ifNoneMatch: set<string>): (r: Response<string>)
    ensures r.NotModified? <==> s.etag in ifNoneMatch
    ensures !r.NotModified? ==> r == Served(s.imagesJson, s.etag)
  {
    if s.etag in ifNoneMatch then NotModified
    else Served(s.imagesJson, s.etag)
  }

  /** `/api/images/<image_id>.json`; an unknown id (or an empty properties object) is 404. */
  function ImageRoute(s: Snapshot, ifNoneMatch: set<string>, imageId: string): (r: Response<Props>)
    ensures r.NotModified? <==> s.etag in ifNoneMatch
    ensures r.NotFound? <==> s.etag !in ifNoneMatch && imageId !in s.byImage
    ensures r.Served? ==> imageId in s.byImage && r.body == s.byImage[imageId] && r.etag == s.etag
  {
    if s.etag in ifNoneMatch then NotModified
    else
      var image := if imageId in s.byImage then Some(s.byImage[imageId]) else None;
      if image.None? || |PropsToMap(image.value)| == 0 then NotFound
      else Served(image.value, s.etag)
  }

  /**
   * End to end, a location's route finds exactly the locations some kept
   * feature has, and serves the image index of the features there.
   */
  lemma LocationRouteOfLoaded(num: Numerics, codec: Codec<YearCounts, seq<Props>>, raw: seq<Feature>,
                              featured: seq<string>, ifNoneMatch: set<string>, loc: string)
    ensures var s := BuildSnapshot(num, codec, raw, featured);
      var r := LocationRoute(s, ifNoneMatch, loc);
      s.etag !in ifNoneMatch ==>
        && (r.NotFound? <==> AtLocation(LoadImages(num, raw), loc) == [])
        && (r.Served? ==> r.body == ByImage(AtLocation(LoadImages(num, raw), loc)))
  {
    var fs := LoadImages(num, raw);
    LoadedHasLocations(num, raw);
    var s := BuildSnapshot(num, codec, raw, featured);
    LocationRouteOfIndex(s, fs, ifNoneMatch, loc);
    var r := LocationRoute(s, ifNoneMatch, loc);
    if s.etag !in ifNoneMatch {
      assert r.NotFound? <==> AtLocation(fs, loc) == [];
      assert r.Served? ==> r.body == ByImage(AtLocation(fs, loc));
    }
  }

  /** A location's route over a snapshot whose location index was built from `fs`. */
  lemma LocationRouteOfIndex(s: Snapshot, fs: seq<Feature>, ifNoneMatch: set<string>, loc: string)
    requires HasLocations(fs)
    ensures var r := LocationRoute(s, ifNoneMatch, loc);
      s.byLocation == ByLocation(fs) && s.etag !in ifNoneMatch ==>
        && (r.NotFound? <==> AtLocation(fs, loc) == [])
        && (r.Served? ==> r.body == ByImage(AtLocation(fs, loc)))
  {
    ByLocationNonEmpty(fs, loc);
  }

  /**
   * End to end, an image's route finds exactly the ids of features with a
   * geometry, and serves the stamped properties of one of them (the last,
   * by the image index's contract).
   */
  lemma ImageRouteOfLoaded(num: Numerics, codec: Codec<YearCounts, seq<Props>>, raw: seq<Feature>,
                           featured: seq<string>, ifNoneMatch: set<string>, id: string)
    ensures var s := BuildSnapshot(num, codec, raw, featured);
      var r := ImageRoute(s, ifNoneMatch, id);
      s.etag !in ifNoneMatch ==>
        && (r.NotFound? <==> forall f | f in raw && f.geometry.Some? :: f.id != id)
        && (r.Served? ==> exists f | f in raw && f.geometry.Some? && f.id == id :: r.body == Stamp(num, f).properties)
  {
    var loaded := LoadImages(num, raw);
    var s := BuildSnapshot(num, codec, raw, featured);
    var r := ImageRoute(s, ifNoneMatch, id);
    if s.etag in ifNoneMatch {
    } else if r.NotFound? {
      forall f | f in raw && f.geometry.Some? ensures f.id != id {
        var g := Stamp(num, f);
        assert g in loaded;
        var i :| 0 <= i < |loaded| && loaded[i] == g;
        assert loaded[i].id == f.id;
      }
    } else {
      var i :| 0 <= i < |loaded| && loaded[i].id == id && ByImage(loaded)[id] == loaded[i].properties;
      assert loaded[i] in loaded;
    }
  }
}
