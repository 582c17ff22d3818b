/**
 * The three views the API server derives from the loaded features:
 * location -> year -> count (`_locations`), location -> image id ->
 * properties (`_by_location`) and image id -> properties (`_by_image`).
 */
module ServingIndex {
  import opened Wrappers
  import opened Runtime
  import opened Features
  import opened Counting
  import opened Indexing
  import opened ServingLoad

  /** Every feature carries a stamped location, which the indices read. */
  predicate HasLocations(fs: seq<Feature>) {
    forall f | f in fs :: f.properties.location.Some?
  }

  /** `f["properties"]["location"]`. */
  function LocationOf(f: Feature): string
    requires f.properties.location.Some?
  {
    f.properties.location.value
  }

  /** The features at one location, in order. */
  function AtLocation(fs: seq<Feature>, loc: string): (r: seq<Feature>)
    ensures forall f | f in r :: f in fs && f.properties.location == Some(loc)
  {
    if |fs| == 0 then []
    else
      var f := fs[|fs| - 1];
      AtLocation(fs[..|fs| - 1], loc) + (if f.properties.location == Some(loc) then [f] else [])
  }

  /** How many features sit at `loc` with year bucket `year`. */
  function CountAt(fs: seq<Feature>, loc: string, year: string): nat {
    if |fs| == 0 then 0
    else
      var f := fs[|fs| - 1];
      CountAt(fs[..|fs| - 1], loc, year) + (if f.properties.location == Some(loc) && Year(f.properties) == year then 1 else 0)
  }

  /** The (location, year) pair of every feature, in order. */
  function LocationYears(fs: seq<Feature>): (pairs: seq<(string, string)>)
    requires HasLocations(fs)
    ensures |pairs| == |fs|
  {
    if |fs| == 0 then []
    else
      var f := fs[|fs| - 1];
      LocationYears(fs[..|fs| - 1]) + [(LocationOf(f), Year(f.properties))]
  }

  lemma {:induction false} LocationYearsCount(fs: seq<Feature>, loc: string, year: string)
    requires HasLocations(fs)
    ensures Occurrences(LocationYears(fs), loc, year) == CountAt(fs, loc, year)
    ensures KeyOccurrences(LocationYears(fs), loc) == |AtLocation(fs, loc)|
    decreases |fs|
  {
    if |fs| > 0 {
      var init := fs[..|fs| - 1];
      LocationYearsCount(init, loc, year);
      assert LocationYears(fs)[..|fs| - 1] == LocationYears(init);
    }
  }

  /**
   * `_locations`: for each location, how many features have each year, with
   * a null or empty date counted under `""`. Exactly the locations of the
   * features appear.
   */
  function Locations(fs: seq<Feature>): (r: YearCounts)
    requires HasLocations(fs)
    ensures forall loc, year :: Get(r, loc, year) == CountAt(fs, loc, year)
    ensures forall loc :: loc in r <==> |AtLocation(fs, loc)| > 0
    ensures forall loc, year | loc in r && year in r[loc] :: r[loc][year] > 0
  {
    var pairs := LocationYears(fs);
    var r := CountPairs(pairs);
    forall loc, year ensures Get(r, loc, year) == CountAt(fs, loc, year) {
      LocationYearsCount(fs, loc, year);
    }
    forall loc ensures loc in r <==> |AtLocation(fs, loc)| > 0 {
      LocationYearsCount(fs, loc, "");
    }
    r
  }

  /** The year counts at a location add up to the number of features there. */
  lemma LocationTotals(fs: seq<Feature>, loc: string)
    requires HasLocations(fs)
    requires loc in Locations(fs)
    ensures SumCounts(Locations(fs)[loc]) == |AtLocation(fs, loc)|
  {
    CountPairsTotals(LocationYears(fs), loc);
    LocationYearsCount(fs, loc, "");
  }

  /**
   * `_by_image`: exactly the feature ids are keys, and each maps to the
   * properties of the last feature with that id.
   */
  function ByImage(fs: seq<Feature>): (r: map<string, Props>)
    ensures forall id :: id in r <==> exists i | 0 <= i < |fs| :: fs[i].id == id
    ensures forall id | id in r :: exists i | 0 <= i < |fs| ::
      && fs[i].id == id && r[id] == fs[i].properties
      && forall j | i < j < |fs| :: fs[j].id != id
  {
    var r := IndexLast(fs, (f: Feature) => f.id, (f: Feature) => f.properties);
    forall id | id in r ensures exists i | 0 <= i < |fs| ::
      && fs[i].id == id && r[id] == fs[i].properties
      && forall j | i < j < |fs| :: fs[j].id != id
    {
      var i :| IsLastWithKey(fs, (f: Feature) => f.id, id, i) && r[id] == fs[i].properties;
    }
    r
  }

  /** Adding one feature to the image index overwrites its id's entry. */
  lemma ByImageSnoc(fs: seq<Feature>, f: Feature)
    ensures ByImage(fs + [f]) == ByImage(fs)[f.id := f.properties]
  {
    assert (fs + [f])[..|fs|] == fs;
  }

  /**
   * `_by_location`: location -> image id -> properties, each id stored under
   * the location of the feature that has it.
   */
  function ByLocation(fs: seq<Feature>): (r: map<string, map<string, Props>>)
    requires HasLocations(fs)
    ensures forall loc :: loc in r <==> |AtLocation(fs, loc)| > 0
    ensures forall loc | loc in r :: r[loc] == ByImage(AtLocation(fs, loc))
  {
    if |fs| == 0 then map[]
    else
      var init := fs[..|fs| - 1];
      var f := fs[|fs| - 1];
      HasLocationsInit(fs);
      var m := ByLocation(init);
      ByLocationStep(fs, m);
      File(m, f)
  }

  /** A prefix of located features is located. */
  lemma HasLocationsInit(fs: seq<Feature>)
    requires |fs| > 0 && HasLocations(fs)
    ensures HasLocations(fs[..|fs| - 1]) && fs[|fs| - 1].properties.location.Some?
  {
    assert forall g | g in fs[..|fs| - 1] :: g in fs;
  }

  /** `locations[f["properties"]["location"]][f["id"]] = f["properties"]` on a `defaultdict(dict)`. */
  function File(m: map<string, map<string, Props>>, f: Feature): map<string, map<string, Props>>
    requires f.properties.location.Some?
  {
    var loc := LocationOf(f);
    m[loc := (if loc in m then m[loc] else map[])[f.id := f.properties]]
  }

  /** `m` files each location's features under it as an image index. */
  ghost predicate IndexesLocations(fs: seq<Feature>, m: map<string, map<string, Props>>) {
    && (forall loc :: loc in m <==> |AtLocation(fs, loc)| > 0)
    && (forall loc | loc in m :: m[loc] == ByImage(AtLocation(fs, loc)))
  }

  /** Filing one more feature keeps the location index exact. */
  lemma ByLocationStep(fs: seq<Feature>, m: map<string, map<string, Props>>)
    requires |fs| > 0 && fs[|fs| - 1].properties.location.Some?
    requires IndexesLocations(fs[..|fs| - 1], m)
    ensures IndexesLocations(fs, File(m, fs[|fs| - 1]))
  {
    var init, f := fs[..|fs| - 1], fs[|fs| - 1];
    var loc := LocationOf(f);
    var r := File(m, f);
    forall l ensures (l in r <==> |AtLocation(fs, l)| > 0) && (l in r ==> r[l] == ByImage(AtLocation(fs, l))) {
      if l == loc {
        assert AtLocation(fs, l) == AtLocation(init, l) + [f];
        ByImageSnoc(AtLocation(init, l), f);
        if l !in m {
          assert AtLocation(init, l) == [];
        }
      } else {
        assert AtLocation(fs, l) == AtLocation(init, l);
      }
    }
  }

  /** No location maps to an empty image map, so a known location never reads as falsy. */
  lemma ByLocationNonEmpty(fs: seq<Feature>, loc: string)
    requires HasLocations(fs)
    ensures loc in ByLocation(fs) ==> |ByLocation(fs)[loc]| > 0
  {
    if loc in ByLocation(fs) {
      var at := AtLocation(fs, loc);
      assert at[0].id in ByImage(at);
    }
  }

  /** Every id filed under a location is a key of the image index. */
  lemma ByLocationIdsAreImages(fs: seq<Feature>, loc: string, id: string)
    requires HasLocations(fs)
    ensures loc in ByLocation(fs) && id in ByLocation(fs)[loc] ==> id in ByImage(fs)
  {
    if loc in ByLocation(fs) && id in ByLocation(fs)[loc] {
      var at := AtLocation(fs, loc);
      var i := IdPosition(at, id);
      assert at[i] in fs;
      var j :| 0 <= j < |fs| && fs[j] == at[i];
      assert fs[j].id == id;
    }
  }

  /** Where an id of the image index comes from. */
  lemma IdPosition(fs: seq<Feature>, id: string) returns (i: int)
    ensures id in ByImage(fs) ==> 0 <= i < |fs| && fs[i].id == id
  {
    if id in ByImage(fs) {
      i :| 0 <= i < |fs| && fs[i].id == id;
    } else {
      i := -1;
    }
  }

  /** Loaded features satisfy what the indices require. */
  lemma LoadedHasLocations(num: Numerics, fs: seq<Feature>)
    ensures HasLocations(LoadImages(num, fs))
  {
  }

  /** In an index of loaded features each entry's `id` property is its key. */
  lemma ByImageOfLoaded(num: Numerics, fs: seq<Feature>, id: string)
    ensures id in ByImage(LoadImages(num, fs)) ==> ByImage(LoadImages(num, fs))[id].id == Some(id)
  {
    var loaded := LoadImages(num, fs);
    if id in ByImage(loaded) {
      var i :| 0 <= i < |loaded| && loaded[i].id == id && ByImage(loaded)[id] == loaded[i].properties;
      assert loaded[i] in loaded;
    }
  }
}
