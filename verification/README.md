# OldTO feature indices and geocoding metrics, in Dafny

This project models the data core of OldTO, a map of historical Toronto
photographs. The photographs are GeoJSON features: an id, an optional
`(lng, lat)` point geometry and a properties record (date, title, and other
fields). The model covers three pieces of pure logic over such features.

- **The API server** (`backend/src/app.py`).
  - Loading keeps only the features that have a geometry. It stamps each kept
    feature's own id into its properties, and a `"lat,lng"` location key built
    from its coordinates.
  - It derives three views: location → year → count (`_locations`), location →
    image id → properties (`_by_location`) and image id → properties
    (`_by_image`).
  - It builds the sorted "featured" list (`_images`) and an ETag over the two
    serialised payloads (`_etag`).
  - Each of the four read routes answers *not modified* for a matching tag
    before it looks anything up. An unknown or empty location or image is 404.
- **The development server** (`backend/app.py`).
  - The older key function `old_toronto_key` and counter `_lat_lng_counts`.
  - The geometry filter and the modification-time reload rule.
  - The record flattener `poi_to_rec` and the first-match lookup `_by_photo_id`.
- **The metrics engine** (`pipeline/src/calculate_metrics.py`).
  - `diff_date` and `diff_geocode` classify a computed date or geocode against
    the truth.
  - `tally_stats` joins computed features to truth features by id, counts five
    counters, and divides them into three percentages.

Floating point, JSON text and hashing are not interpreted. Python's `round`,
`"%.6f"` formatting and the `haversine` distance are fields of a `Numerics`
value passed as a parameter. `json.dumps(..., sort_keys=True)` and md5 are
fields of a `Codec` value. Every property below therefore holds whatever
those functions compute.

Modules, one file each:

- `wrappers.dfy` — `Option` and `Result`.
- `runtime.dfy` — the uninterpreted numerics and codec.
- `features.dfy` — the feature datatypes and the geometry filter.
- `lat_lng_text.dfy` — the `"a,b"` text shape.
- `location_key.dfy` — the serving location key.
- `counting.dfy` — `defaultdict(Counter)` counting.
- `text_order.dfy` — Python's string and tuple order.
- `sorting.dfy` — sorting by key.
- `indexing.dfy` — last-write-wins dict comprehensions.
- `serving_load.dfy`, `serving_index.dfy`, `serving_featured.dfy`,
  `serving_routes.dfy` — the API server.
- `dev_server.dfy` — the development server.
- `metrics.dfy` — the metrics engine.

Two behaviours of the code are worth stating up front, since a reader might
expect otherwise:

- The indices of `backend/src/app.py` hold the raw properties. `image.url` is
  not flattened into `image_url` there, and it is not in the model either.
- `_images` keeps every occurrence of a featured id; nothing is de-duplicated.
  `ServingFeatured.SelectedMultiplicity` proves that the duplicates stay.

## Model

| member | source | states |
|---|---|---|
| Features.KeepGeolocated | backend/src/app.py:80-82 | The kept features are exactly the input features that have a geometry, and there are never more of them than inputs. |
| Features.KeepGeolocatedAppend | backend/src/app.py:80-82 | Filtering distributes over concatenation, so the kept features keep their input order. |
| Features.KeepGeolocatedIdempotent | backend/app.py:50-53 | Filtering an already filtered list changes nothing. |
| LatLngText.SplitJoin | backend/src/app.py:75 | Cutting a `"first,second"` text at its first comma gives back both parts when the first part has no comma. |
| LatLngText.JoinInjective | backend/src/app.py:75 | Two `"a,b"` texts with comma-free first parts are equal if and only if both parts are equal. |
| LatLngText.JoinIsNotNone | pipeline/src/calculate_metrics.py:40-42 | A rendered coordinate always contains a comma, so it can never be the text `"None"` that marks an absent coordinate. |
| LocationKey.LatLngKeyFields | backend/src/app.py:62-75 | The key of `(lng, lat)` reads back as the latitude text, then a comma, then the longitude text: GeoJSON order in, latitude first out. |
| LocationKey.LatLngKeyEqual | backend/src/app.py:62-75 | Two coordinates share a key if and only if their rounded latitudes print alike and their rounded longitudes print alike. |
| LocationKey.LatLngKeyRounding | backend/src/app.py:69-73 | Coordinates that agree after rounding first to 7 and then to 6 decimals get the same key. |
| LocationKey.LatLngKey | backend/src/app.py:62-75 | `_lat_lng_key(lng, lat)` is the rounded latitude text, one comma, then the rounded longitude text: GeoJSON order in, latitude first out. |
| ServingLoad.Stamp | backend/src/app.py:84-86 | A stamped feature has `properties.id` equal to its own id and `properties.location` equal to the key of its coordinates. Id, geometry, date, title and every other property are unchanged. |
| ServingLoad.LoadImages | backend/src/app.py:80-86 | Every loaded feature is stamped. Each one is the stamp of an input feature with a geometry, and every such input feature is loaded. |
| ServingLoad.LoadImagesAppend | backend/src/app.py:80-86 | Loading distributes over concatenation, so loaded features keep their input order. |
| ServingLoad.LoadImagesIsStampedFilter | backend/src/app.py:80-86 | Position by position, loading is the geometry filter followed by stamping. |
| ServingLoad.StampIdempotent | backend/src/app.py:84-86 | Stamping an already stamped feature changes nothing. |
| ServingLoad.LoadImagesIdempotent | backend/src/app.py:80-86 | Loading already loaded features returns them unchanged. |
| Counting.CountPairs | backend/src/app.py:104-109 | The count stored for each (key, year) is the number of pairs equal to it, with absent entries reading as zero. A key is present if and only if some pair has it, and no stored count is zero. |
| Counting.CountPairsTotals | backend/src/app.py:104-109 | The year counts under one key add up to the number of pairs with that key. |
| ServingIndex.LocationYearsCount | backend/src/app.py:104-108 | Counting the (location, `date or ""`) pairs counts the features at each location and year. A null or empty date falls under `""`. |
| ServingIndex.Locations | backend/src/app.py:97-109 | `_locations` maps each location and year to the number of features there with that year bucket. Exactly the locations of the features appear, and no stored year count is zero, as a `Counter` holds only years that occur. |
| ServingIndex.LocationTotals | backend/src/app.py:104-109 | At every location, the year counts sum to the number of features with that location key. |
| ServingIndex.ByImage | backend/src/app.py:154-161 | The image index has exactly the feature ids as keys. Each id maps to the properties of the last feature with that id. |
| ServingIndex.ByImageSnoc | backend/src/app.py:160 | A later feature overwrites the entry of an earlier feature with the same id. |
| ServingIndex.ByLocation | backend/src/app.py:140-151 | A location is a key if and only if some feature is there. Its entry is the image index of exactly the features at that location, in order, so a later id overwrites an earlier one. |
| ServingIndex.ByLocationStep | backend/src/app.py:148-150 | Filing one more feature under its location keeps the location index exact. |
| ServingIndex.ByLocationNonEmpty | backend/src/app.py:148-151 | No location maps to an empty image map. |
| ServingIndex.ByLocationIdsAreImages | backend/src/app.py:148-160 | Every id filed under a location is a key of the image index. |
| ServingIndex.LoadedHasLocations | backend/src/app.py:84-86 | Every loaded feature carries a location key, which the indices read. |
| ServingIndex.ByImageOfLoaded | backend/src/app.py:84-85 | In the image index of loaded features, each entry's `id` property equals its key. |
| TextOrder.StrLessIrreflexive | backend/src/app.py:122-125 | No string sorts before itself under Python's string order. |
| TextOrder.StrLessTransitive | backend/src/app.py:122-125 | Python's string order is transitive. |
| TextOrder.StrLessTrichotomy | backend/src/app.py:122-125 | Any two strings are equal, or one sorts before the other. |
| TextOrder.StrLess | backend/src/app.py:122-125 | Python's `<` on `str`, a code-point-wise lexicographic order where a proper prefix comes first. It is a strict total order, as `TextOrder.StrLessIrreflexive`, `TextOrder.StrLessTransitive` and `TextOrder.StrLessTrichotomy` prove. |
| TextOrder.KeyLessEqTotal | backend/src/app.py:122-125 | Any two `(date or "", title, id)` keys are comparable. |
| TextOrder.KeyLessEqTransitive | backend/src/app.py:122-125 | The key order is transitive. |
| TextOrder.KeyLessEqAntisymmetric | backend/src/app.py:122-125 | Two keys that are each at most the other are equal. |
| Sorting.Insert | backend/src/app.py:122-125 | Insertion adds exactly one element and keeps a sorted list sorted. |
| Sorting.SortBy | backend/src/app.py:122-125 | `sorted(s, key=...)` returns a permutation of `s` that is in ascending key order. |
| Sorting.SortedUnique | backend/src/app.py:122-125 | If equal keys imply equal elements, two sorted permutations of the same elements are the same list. |
| ServingFeatured.Selected | backend/src/app.py:123 | The selection is no longer than the featured list, and each entry is the index entry of a featured id the index knows. |
| ServingFeatured.SelectedMultiplicity | backend/src/app.py:123 | A known id's entry appears once per occurrence of the id in the featured list. Duplicates are kept. |
| ServingFeatured.SelectedKnownOnly | backend/src/app.py:123 | Only entries of featured ids present in the index reach the selection. Unknown ids are dropped. |
| ServingFeatured.FeaturedImages | backend/src/app.py:116-126 | `_images` is a permutation of the selection, sorted ascending by `(date or "", title, id)`. |
| ServingFeatured.FeaturedImagesUnique | backend/src/app.py:122-125 | Every sorted arrangement of the selection equals `_images`, so the stability of Python's sort has no visible effect. |
| ServingRoutes.EtagSeesConcatenation | backend/src/app.py:133-137 | The tag depends on the two payloads only through their concatenation: equal concatenations give equal tags. |
| ServingRoutes.EtagInputSeparatesImages | backend/src/app.py:133-137 | With the locations payload fixed, the digest input determines the images payload, and the converse holds too. |
| ServingRoutes.EtagInputSeparatesLocations | backend/src/app.py:133-137 | With the images payload fixed, the digest input determines the locations payload, and the converse holds too. |
| ServingRoutes.EtagBoundaryInvisible | backend/src/app.py:133-137 | The digest input starts with the version `"2"` and continues with the two payloads run together. Moving text across the boundary between the payloads therefore leaves the input unchanged. |
| ServingRoutes.Etag | backend/src/app.py:133-137 | `_etag` feeds md5 the version and both payloads in turn, characterised by `ServingRoutes.EtagSeesConcatenation`, `ServingRoutes.EtagBoundaryInvisible` and the two separation lemmas. |
| ServingRoutes.LoadedIdsAsKeys | backend/src/app.py:84-86 | After loading, every image-index entry carries its own id, as the featured sort key needs. |
| ServingRoutes.BuildSnapshot | backend/src/app.py:181-206 | The location index, image index and location counts are `_by_location`, `_by_image` and `_locations` of the loaded features. The featured list is `_images` of the curated ids over that image index, whose entries carry their own ids. The payloads are the serialisations of the location counts and the featured list, and the tag is the digest of the version and both payloads. |
| ServingRoutes.SnapshotConsistent | backend/src/app.py:188-203 | The location counts and location index have the same locations. No listed location is empty. Every image filed under a location is in the image index. Every entry carries its own id, and the featured list is sorted. |
| ServingRoutes.IndicesConsistent | backend/src/app.py:140-161 | The three views of the same features agree on locations and ids. |
| ServingRoutes.LocationsRoute | backend/src/app.py:212-222 | 304 exactly when the request's tags contain the current tag. Otherwise the precomputed locations payload is served with the tag. |
| ServingRoutes.LocationRoute | backend/src/app.py:224-238 | 304 for a matching tag before any lookup. Otherwise 404 exactly when the location is unknown or empty, and its image map is served otherwise. |
| ServingRoutes.ImagesRoute | backend/src/app.py:240-250 | 304 exactly for a matching tag. Otherwise the precomputed featured payload is served with the tag. |
| ServingRoutes.ImageRoute | backend/src/app.py:252-266 | 304 for a matching tag before any lookup. Otherwise 404 exactly when the id is not in the image index, and its properties are served otherwise. |
| ServingRoutes.LocationRouteOfLoaded | backend/src/app.py:224-238 | End to end, when the request's tags do not contain the tag: a location's route is 404 if and only if no loaded feature is there. Otherwise it serves the image index of the features at that location. |
| ServingRoutes.LocationRouteOfIndex | backend/src/app.py:229-231 | For a snapshot whose location index was built from some features, and a non-matching tag: a location is 404 if and only if none of them is there. Otherwise that location's image index is served. |
| ServingRoutes.ImageRouteOfLoaded | backend/src/app.py:252-266 | End to end, when the request's tags do not contain the tag: an image's route is 404 if and only if no input feature with a geometry has the id. Otherwise it serves the stamped properties of such a feature. |
| DevServer.OldTorontoKey | backend/app.py:26-40 | `old_toronto_key(lat, lng)` is the serving key of the same point, `_lat_lng_key(lng, lat)`: both round twice and print latitude first. |
| DevServer.LoadGeojsonFeatures | backend/app.py:46-53 | A load records the file's time and holds exactly the file's features that have a geometry, in file order, with nothing added or repeated. |
| DevServer.MaybeReload | backend/app.py:58-62 | The state reloads if and only if the file's time is strictly greater than the recorded one. Otherwise it is left as it was. |
| DevServer.InitialLoadsNewerFile | backend/app.py:21-22 | The globals start with no features and time 0. The state is geolocated, and the reload rule applied to it loads any file with a positive modification time. Run as a script, the program loads at startup before serving; this lemma is about the rule, not that startup path. |
| DevServer.ReloadRecordsLatest | backend/app.py:46-62 | After the check, the recorded time is the larger of the old recorded time and the file's time. |
| DevServer.ReloadSettles | backend/app.py:58-62 | A second check at the same file time reloads nothing, whatever the file now holds. |
| DevServer.ReloadKeepsGeolocated | backend/app.py:46-62 | Reloading keeps every held feature geolocated, which `_lat_lng_counts` relies on when it unpacks coordinates. |
| DevServer.KeyYearsCount | backend/app.py:65-71 | Counting the (old key, `date or ""`) pairs counts the features with each key and year. |
| DevServer.LatLngCounts | backend/app.py:65-71 | `_lat_lng_counts` maps each old key and year to the number of held features with that key and year bucket. No key holds an empty counter and no stored count is zero, so the map is exactly the counts that occur. |
| DevServer.KeyYearsAreLocationYears | backend/app.py:65-71 | Unpacking `(lng, lat)` and keying by `old_toronto_key(lat, lng)` yields exactly the serving loader's (location, year) pairs. |
| DevServer.DevCountsAgree | backend/app.py:65-71 | On the same file, the development server's `_lat_lng_counts` equals the API server's `_locations`. |
| DevServer.LoadImagesKeptEqual | backend/app.py:50-53 | Filtering by geometry before the serving load changes nothing. |
| DevServer.Flatten | backend/app.py:82-86 | `poi_to_rec` succeeds if and only if `image` is an object with a `url` and the properties have no `id`. The keys are the image fields with `url` renamed `image_url`, plus `id`, plus the other properties. `id` is the feature id. The properties override the image fields, and `image_url` is the old `url` unless a property overrides it. |
| DevServer.PoiToRec | backend/app.py:82-86 | A flattened record carries the feature id as `id` and its title. A feature whose properties already hold an `id` raises. |
| DevServer.ByPhotoId | backend/app.py:104-108 | The result is the first feature in list order with the photo id. It is `None` if and only if no feature has that id. |
| Metrics.DiffDate | pipeline/src/calculate_metrics.py:29-37 | The dates match if and only if they are equal, both null included, and a match is exactly an empty reason. A differing pair gives "Missing date" when only the computed date is null, "Should be missing date" when only the truth is null, and "complex" otherwise. |
| Metrics.ReasonText | pipeline/src/calculate_metrics.py:29-59 | The printed reason is the empty string exactly for a match. Every mismatch reason prints as non-empty text. |
| Metrics.CoordToStr | pipeline/src/calculate_metrics.py:40-42 | An absent coordinate renders as `"None"`, and only an absent one does. A present one renders as its six-decimal latitude, a comma, then its longitude. |
| Metrics.RenderingsTellPresence | pipeline/src/calculate_metrics.py:40-42 | Equal renderings imply that the coordinates are both present or both absent. |
| Metrics.DiffGeocode | pipeline/src/calculate_metrics.py:45-59 | A pair matches if and only if the renderings are equal (two absent coordinates included) or both points are present and at most 0.25 km apart. Otherwise the checks run in order: a missing computed coordinate, then a missing truth coordinate, then a distance over 0.25 km ("Too far", carrying the distance). A match is exactly an empty reason, and a match with a truth coordinate implies a computed one. |
| Metrics.IndexById | pipeline/src/calculate_metrics.py:64 | The truth index has exactly the truth ids as keys, and each maps to the last truth feature with that id. |
| Metrics.Joined | pipeline/src/calculate_metrics.py:89-94 | Every computed feature with a truth record is joined, paired with that record, and nothing else is. |
| Metrics.Tally | pipeline/src/calculate_metrics.py:89-115 | The correctly dated count is at most the datable count, which is at most the number of joined records. The correctly geocoded count is at most both the geocodable and the geocoded counts. |
| Metrics.TallySkips | pipeline/src/calculate_metrics.py:92-94 | A computed feature without a truth record changes no counter. |
| Metrics.DatedCorrectCountsEqualDates | pipeline/src/calculate_metrics.py:96-113 | The correctly dated counter counts exactly the joined records whose truth date is non-empty and equal to the computed date. |
| Metrics.TallyStep | pipeline/src/calculate_metrics.py:89-115 | One more computed feature adds its record's counts if it has a truth record, and nothing otherwise. |
| Metrics.TallyStats | pipeline/src/calculate_metrics.py:62-115 | The loop's counters equal the tally over the truth index, and the counter bounds hold. |
| Metrics.TallyLoop | pipeline/src/calculate_metrics.py:89-115 | Running the loop over the computed features gives the tally of all of them. |
| Metrics.CountRecord | pipeline/src/calculate_metrics.py:96-115 | One joined record raises each counter by 0 or 1. It raises datable exactly when the truth date is non-empty, and correctly dated exactly when, in addition, the computed date equals it. It raises geocodable and geocoded exactly when the truth or computed point is present. It raises correctly geocoded exactly when both points are present and they render alike or lie at most 0.25 km apart. A correct count never rises more than its denominator. |
| Metrics.Summarize | pipeline/src/calculate_metrics.py:141-162 | The summary exists if and only if all three denominators are non-zero. Otherwise the error names the first zero denominator in the order datable, geocodable, geocoded. The percentages satisfy `percent × denominator = 100 × count`, and the incorrect count is geocoded minus correctly geocoded. |
| Metrics.SummaryInRange | pipeline/src/calculate_metrics.py:141-161 | For every tallied run, each percentage lies between 0 and 100 and the incorrectly located count is never negative. |
| Metrics.CountersSummaryInRange | pipeline/src/calculate_metrics.py:152-161 | Counters whose correct counts do not exceed their denominators summarise into percentages between 0 and 100. |

## Left out

- HTTP and Flask plumbing is not modelled: routing, `jsonify`, `Response`, `abort`, config loading, logging, the `bake` command that writes files, `_check_can_load`, argparse and the development server's `lat_lng_counts` JavaScript wrapper. The routes are modelled as decisions over a tag set and a snapshot.
- `request.if_none_match.contains` is modelled as membership in a set of tags. Werkzeug's handling of `*` and of weak tags is library code and not part of this model.
- File I/O is not modelled: `open`, `json.load` and `os.stat`. The parsed feature list and the file's modification time are parameters.
- DevServer.LoadGeojsonFeatures: a failed parse is not modelled. `load_geojson_features` records the new time (backend/app.py:48) before it parses (lines 50-53), so a parse error leaves the new time with the old features, and later checks do not retry until the file's time changes again.
- The double `os.stat` in the reload rule (one in the check, one in the load) is read as a single time. A file that changes between the two calls is not modelled.
- Floating point is uninterpreted: Python's `round`, `%.6f`/`:2.6f` formatting, `haversine` and real-number percentages. Round-trip claims about JavaScript versus Python rounding are therefore not proved.
- Concrete numeric key examples, such as a particular coordinate's key text, need IEEE doubles and are not stated.
- md5 and `json.dumps(sort_keys=True)` are uninterpreted fields of `Codec`. Only the order and choice of the digest's inputs are modelled.
- `backend/app.py` `_by_location` is not modelled: its 0.005 km radius filter is float geometry. Its `poi_to_rec` is modelled as `DevServer.Flatten` and `DevServer.PoiToRec`.
- Metrics.Distance: the coordinates reach `haversine` in stored `(lng, lat)` order although that library takes `(lat, lng)`. The model passes them as written. With distance uninterpreted, no distance is claimed.
- The CSV row output of `tally_stats`, the `search_term` selection, `_coord_to_str` as printed output, and the text of the printed summary are not modelled. The counters and percentages are.
- Features are assumed well formed. Feature ids are strings (an integer id would never equal a URL segment), and `properties` always holds `date` and `title`. A geometry is either null or a point, so an empty-object geometry is not represented, and neither are the `KeyError`s the source raises on missing keys.
- The deep copy in `poi_to_rec` is implicit: the model is pure, so the input feature is never changed.
- ServingFeatured.FeaturedImages: requires that every image-index entry have an `id` property. The sort key reads `f["id"]` and would raise otherwise, and loading guarantees the property (`ServingRoutes.LoadedIdsAsKeys`).
- DevServer.PoiToRec: states only the `id`, `title` and repeated-`id` facts about the feature-level call. The full key-by-key contract is on `DevServer.Flatten`, which it calls on the properties as a map.
- The frontend JavaScript, the site build configuration and the pipeline tests are not part of this model.
