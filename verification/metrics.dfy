/**
 * The accuracy metrics of pipeline/src/calculate_metrics.py: each computed
 * feature is joined to the truth feature with its id, its date and geocode
 * are classified, and five counters are tallied into three percentages.
 */
module Metrics {
  import opened Wrappers
  import opened Runtime
  import opened Features
  import opened LatLngText
  import opened Indexing

  /** The second element of a comparison; `NoReason` is the empty string. */
  datatype Reason =
    | NoReason
    | MissingDate
    | ShouldBeMissingDate
    | Complex
    | MissingGeocode
    | ShouldBeMissingGeocode
    | TooFar(km: real)

  /** The text the source prints for a reason; `fixed3` is `"%.3f"`. */
  function ReasonText(r: Reason, fixed3: real -> string): (text: string)
    ensures text == "" <==> r == NoReason
  {
    match r
    case NoReason => ""
    case MissingDate => "Missing date"
    case ShouldBeMissingDate => "Should be missing date"
    case Complex => "complex"
    case MissingGeocode => "Missing geocode"
    case ShouldBeMissingGeocode => "Should be missing geocode"
    case TooFar(km) => "Too far: " + fixed3(km) + " km"
  }

  /**
   * `diff_date(truth_date, computed_date)`: equal dates (both null included)
   * match; otherwise a missing computed date, then a missing truth date, then
   * a catch-all, are the reason.
   */
  function DiffDate(truth: Option<string>, computed: Option<string>): (r: (bool, Reason))
    ensures r.0 <==> computed == truth
    ensures r.0 <==> r.1 == NoReason
    ensures r.1 == MissingDate <==> computed.None? && truth.Some?
    ensures r.1 == ShouldBeMissingDate <==> truth.None? && computed.Some?
    ensures r.1 == Complex <==> truth.Some? && computed.Some? && truth != computed
  {
    if computed == truth then (true, NoReason)
    else if computed.None? then (false, MissingDate)
    else if truth.None? then (false, ShouldBeMissingDate)
    else (false, Complex)
  }

  /** `_coord_to_str`: `"lat,lng"` with six decimals, or `"None"` when absent. */
  function CoordToStr(num: Numerics, c: Option<Coord>): (r: string)
    ensures r == "None" <==> c.None?
    ensures c.Some? ==> r == Join(num.fixed6(c.value.lat), num.fixed6(c.value.lng))
  {
    match c
    case Some(p) =>
      JoinIsNotNone(num.fixed6(p.lat), num.fixed6(p.lng));
      Join(num.fixed6(p.lat), num.fixed6(p.lng))
    case None => "None"
  }

  /** A present coordinate never renders like an absent one. */
  lemma RenderingsTellPresence(num: Numerics, a: Option<Coord>, b: Option<Coord>)
    ensures CoordToStr(num, a) == CoordToStr(num, b) ==> a.Some? == b.Some?
  {
  }

  /** `haversine(truth_coord, computed_coord)`, with the `(lng, lat)` pairs passed as they are stored. */
  function Distance(num: Numerics, truth: Coord, computed: Coord): real {
    num.haversine((truth.lng, truth.lat), (computed.lng, computed.lat))
  }

  /** The geocode tolerance, 0.25 km. */
  const MaxDistanceKm: real := 0.25

  /**
   * `diff_geocode(truth_coord, computed_coord)`: equal renderings match
   * (two absent coordinates included); otherwise a missing computed
   * coordinate, then a missing truth coordinate, then a distance over
   * 0.25 km, are the reason, and a nearer point still matches.
   */
  function DiffGeocode(num: Numerics, truth: Option<Coord>, computed: Option<Coord>): (r: (bool, Reason))
    ensures r.0 <==> r.1 == NoReason
    ensures truth.None? && computed.None? ==> r.0
    ensures r.1 == MissingGeocode <==> truth.Some? && computed.None?
    ensures r.1 == ShouldBeMissingGeocode <==> truth.None? && computed.Some?
    ensures r.1.TooFar? <==>
      && truth.Some? && computed.Some?
      && CoordToStr(num, truth) != CoordToStr(num, computed)
      && Distance(num, truth.value, computed.value) > MaxDistanceKm
    ensures r.1.TooFar? ==> r.1.km == Distance(num, truth.value, computed.value) && r.1.km > MaxDistanceKm
    ensures r.0 && truth.Some? ==> computed.Some?
    ensures r.0 <==>
      || CoordToStr(num, truth) == CoordToStr(num, computed)
      || (truth.Some? && computed.Some? && Distance(num, truth.value, computed.value) <= MaxDistanceKm)
  {
    RenderingsTellPresence(num, truth, computed);
    if CoordToStr(num, truth) == CoordToStr(num, computed) then (true, NoReason)
    else if computed.None? then (false, MissingGeocode)
    else if truth.None? then (false, ShouldBeMissingGeocode)
    else
      var km := Distance(num, truth.value, computed.value);
      if km > MaxDistanceKm then (false, TooFar(km)) else (true, NoReason)
  }

  /** `{f["id"]: f for f in truth_features}`: the last truth feature with an id wins. */
  function IndexById(truth: seq<Feature>): (m: map<string, Feature>)
    ensures forall id :: id in m <==> exists i | 0 <= i < |truth| :: truth[i].id == id
    ensures forall id | id in m :: exists i | 0 <= i < |truth| ::
      && truth[i] == m[id] && truth[i].id == id
      && forall j | i < j < |truth| :: truth[j].id != id
  {
    var m := IndexLast(truth, (f: Feature) => f.id, (f: Feature) => f);
    forall id | id in m ensures exists i | 0 <= i < |truth| ::
      && truth[i] == m[id] && truth[i].id == id
      && forall j | i < j < |truth| :: truth[j].id != id
    {
      var i :| IsLastWithKey(truth, (f: Feature) => f.id, id, i) && m[id] == truth[i];
    }
    m
  }

  /** The five counters of `tally_stats`. */
  datatype Counters = Counters(datable: nat, datedCorrect: nat, geocodable: nat, geocodedCorrect: nat, geocoded: nat)

  /** Which counters one joined record (truth, computed) raises. */
  function RecordCounts(num: Numerics, truth: Feature, computed: Feature): Counters {
    var trueDate := truth.properties.date;
    var dateMatch := DiffDate(trueDate, computed.properties.date).0;
    var geocodeMatch := DiffGeocode(num, truth.geometry, computed.geometry).0;
    Counters(
      if Truthy(trueDate) then 1 else 0,
      if dateMatch && Truthy(trueDate) then 1 else 0,
      if truth.geometry.Some? then 1 else 0,
      if geocodeMatch && truth.geometry.Some? then 1 else 0,
      if computed.geometry.Some? then 1 else 0)
  }

  function Add(a: Counters, b: Counters): Counters {
    Counters(a.datable + b.datable, a.datedCorrect + b.datedCorrect, a.geocodable + b.geocodable,
             a.geocodedCorrect + b.geocodedCorrect, a.geocoded + b.geocoded)
  }

  /** The computed features that have a truth record, paired (truth, computed), in order. */
  function Joined(index: map<string, Feature>, computed: seq<Feature>): (rows: seq<(Feature, Feature)>)
    ensures |rows| <= |computed|
    ensures forall row | row in rows :: row.1 in computed && row.1.id in index && row.0 == index[row.1.id]
    ensures forall f | f in computed && f.id in index :: (index[f.id], f) in rows
  {
    if |computed| == 0 then []
    else
      var init := computed[..|computed| - 1];
      var f := computed[|computed| - 1];
      assert computed == init + [f];
      Joined(index, init) + (if f.id in index then [(index[f.id], f)] else [])
  }

  /**
   * The counters after the loop over `computed`: a record counts as datable
   * or geocodable only when its truth value is present (a date also
   * non-empty); a correct date or geocode is counted only for such a record,
   * and a correct geocode only when a computed coordinate is present.
   */
  function Tally(num: Numerics, index: map<string, Feature>, computed: seq<Feature>): (c: Counters)
    ensures c.datedCorrect <= c.datable <= |Joined(index, computed)|
    ensures c.geocodedCorrect <= c.geocodable <= |Joined(index, computed)|
    ensures c.geocodedCorrect <= c.geocoded <= |Joined(index, computed)|
  {
    if |computed| == 0 then Counters(0, 0, 0, 0, 0)
    else
      var f := computed[|computed| - 1];
      var before := Tally(num, index, computed[..|computed| - 1]);
      if f.id in index then Add(before, RecordCounts(num, index[f.id], f)) else before
  }

  /** A computed feature without a truth record changes no counter. */
  lemma TallySkips(num: Numerics, index: map<string, Feature>, computed: seq<Feature>, f: Feature)
    requires f.id !in index
    ensures Tally(num, index, computed + [f]) == Tally(num, index, computed)
  {
    assert (computed + [f])[..|computed|] == computed;
  }

  /** How many joined records have a non-empty truth date that the computed date equals. */
  function EqualDates(rows: seq<(Feature, Feature)>): nat {
    if |rows| == 0 then 0
    else
      var row := rows[|rows| - 1];
      EqualDates(rows[..|rows| - 1])
        + (if Truthy(row.0.properties.date) && row.1.properties.date == row.0.properties.date then 1 else 0)
  }

  /** The correctly-dated counter counts exactly the records whose dated truth equals the computed date. */
  lemma {:induction false} DatedCorrectCountsEqualDates(num: Numerics, index: map<string, Feature>, computed: seq<Feature>)
    ensures Tally(num, index, computed).datedCorrect == EqualDates(Joined(index, computed))
    decreases |computed|
  {
    if |computed| > 0 {
      var init := computed[..|computed| - 1];
      var f := computed[|computed| - 1];
      DatedCorrectCountsEqualDates(num, index, init);
      var rows := Joined(index, computed);
      if f.id in index {
        assert rows == Joined(index, init) + [(index[f.id], f)];
        assert rows[..|rows| - 1] == Joined(index, init);
        var t := index[f.id];
        var dateMatch := DiffDate(t.properties.date, f.properties.date).0;
        assert RecordCounts(num, t, f).datedCorrect == if dateMatch && Truthy(t.properties.date) then 1 else 0;
      } else {
        assert rows == Joined(index, init);
      }
    }
  }

  /** One more computed feature adds its record's counts, if it has a truth record. */
  lemma TallyStep(num: Numerics, index: map<string, Feature>, computed: seq<Feature>, i: nat)
    requires i < |computed|
    ensures Tally(num, index, computed[..i + 1]) ==
      if computed[i].id in index then Add(Tally(num, index, computed[..i]), RecordCounts(num, index[computed[i].id], computed[i]))
      else Tally(num, index, computed[..i])
  {
    assert computed[..i + 1][..i] == computed[..i];
  }

  /** `tally_stats` over parsed collections: index the truth, then run the loop. */
  method TallyStats(num: Numerics, truthFeatures: seq<Feature>, computedFeatures: seq<Feature>) returns (c: Counters)
    ensures c == Tally(num, IndexById(truthFeatures), computedFeatures)
    ensures c.datedCorrect <= c.datable && c.geocodedCorrect <= c.geocodable && c.geocodedCorrect <= c.geocoded
  {
    var idToTruthFeature := IndexById(truthFeatures);
    c := TallyLoop(num, idToTruthFeature, computedFeatures);
  }

  /** The loop of `tally_stats`: skip records without truth, count the rest. */
  method TallyLoop(num: Numerics, idToTruthFeature: map<string, Feature>, computedFeatures: seq<Feature>) returns (c: Counters)
    ensures c == Tally(num, idToTruthFeature, computedFeatures)
  {
    c := Counters(0, 0, 0, 0, 0);
    for i := 0 to |computedFeatures|
      invariant c == Tally(num, idToTruthFeature, computedFeatures[..i])
    {
      var feature := computedFeatures[i];
      TallyStep(num, idToTruthFeature, computedFeatures, i);
      if feature.id !in idToTruthFeature {
        continue;
      }
      c := CountRecord(num, idToTruthFeature[feature.id], feature, c);
    }
    assert computedFeatures[..|computedFeatures|] == computedFeatures;
  }

  /** The body of the loop for one joined record, counter by counter as the source keeps them. */
  method CountRecord(num: Numerics, truthFeature: Feature, feature: Feature, c: Counters) returns (r: Counters)
    ensures r == Add(c, RecordCounts(num, truthFeature, feature))
    ensures c.datable <= r.datable <= c.datable + 1 && c.datedCorrect <= r.datedCorrect <= c.datedCorrect + 1
    ensures c.geocodable <= r.geocodable <= c.geocodable + 1 && c.geocoded <= r.geocoded <= c.geocoded + 1
    ensures c.geocodedCorrect <= r.geocodedCorrect <= c.geocodedCorrect + 1
    ensures r.datable > c.datable <==> Truthy(truthFeature.properties.date)
    ensures r.datedCorrect > c.datedCorrect <==>
      Truthy(truthFeature.properties.date) && feature.properties.date == truthFeature.properties.date
    ensures r.geocodable > c.geocodable <==> truthFeature.geometry.Some?
    ensures r.geocoded > c.geocoded <==> feature.geometry.Some?
    ensures r.geocodedCorrect > c.geocodedCorrect <==>
      && truthFeature.geometry.Some? && feature.geometry.Some?
      && (|| CoordToStr(num, truthFeature.geometry) == CoordToStr(num, feature.geometry)
          || Distance(num, truthFeature.geometry.value, feature.geometry.value) <= MaxDistanceKm)
    ensures r.datedCorrect - c.datedCorrect <= r.datable - c.datable
    ensures r.geocodedCorrect - c.geocodedCorrect <= r.geocodable - c.geocodable
    ensures r.geocodedCorrect - c.geocodedCorrect <= r.geocoded - c.geocoded
  {
    var numDatable, numDatedCorrect, numGeocodable, numGeocodedCorrect, numGeocoded :=
      c.datable, c.datedCorrect, c.geocodable, c.geocodedCorrect, c.geocoded;
    var trueDate := truthFeature.properties.date;
    var computedDate := feature.properties.date;
    if Truthy(trueDate) {
      numDatable := numDatable + 1;
    }
    var dateMatch := DiffDate(trueDate, computedDate).0;
    var trueCoords := truthFeature.geometry;
    var computedCoords := feature.geometry;
    if trueCoords.Some? {
      numGeocodable := numGeocodable + 1;
    }
    if computedCoords.Some? {
      numGeocoded := numGeocoded + 1;
    }
    var geocodeMatch := DiffGeocode(num, trueCoords, computedCoords).0;
    if dateMatch && Truthy(trueDate) {
      numDatedCorrect := numDatedCorrect + 1;
    }
    if geocodeMatch && trueCoords.Some? {
      numGeocodedCorrect := numGeocodedCorrect + 1;
    }
    r := Counters(numDatable, numDatedCorrect, numGeocodable, numGeocodedCorrect, numGeocoded);
  }

  /** The denominator that was zero when the summary divides by it. */
  datatype SummaryError = NoDatable | NoGeocodable | NoGeocoded

  /** The three reported percentages and the incorrectly geocoded count. */
  datatype Summary = Summary(datedPercent: real, geocodedPercent: real, geocodedIncorrect: int, incorrectPercent: real)

  /**
   * The summary of `tally_stats`: `100.0 * correct / denominator` three
   * times, evaluated left to right, so the first zero denominator is the
   * error raised.
   */
  function Summarize(c: Counters): (r: Result<Summary, SummaryError>)
    ensures r.Ok? <==> c.datable > 0 && c.geocodable > 0 && c.geocoded > 0
    ensures c.datable == 0 ==> r == Err(NoDatable)
    ensures c.datable > 0 && c.geocodable == 0 ==> r == Err(NoGeocodable)
    ensures c.datable > 0 && c.geocodable > 0 && c.geocoded == 0 ==> r == Err(NoGeocoded)
    ensures r.Ok? ==>
      && r.value.datedPercent * (c.datable as real) == 100.0 * (c.datedCorrect as real)
      && r.value.geocodedPercent * (c.geocodable as real) == 100.0 * (c.geocodedCorrect as real)
      && r.value.geocodedIncorrect + c.geocodedCorrect == c.geocoded
      && r.value.incorrectPercent * (c.geocoded as real) == 100.0 * (r.value.geocodedIncorrect as real)
  {
    var geocodedIncorrect := c.geocoded - c.geocodedCorrect;
    if c.datable == 0 then Err(NoDatable)
    else if c.geocodable == 0 then Err(NoGeocodable)
    else if c.geocoded == 0 then Err(NoGeocoded)
    else Ok(Summary(
      100.0 * (c.datedCorrect as real) / (c.datable as real),
      100.0 * (c.geocodedCorrect as real) / (c.geocodable as real),
      geocodedIncorrect,
      100.0 * (geocodedIncorrect as real) / (c.geocoded as real)))
  }

  /** Every percentage of a tallied run lies between 0 and 100; the incorrect count is never negative. */
  lemma SummaryInRange(num: Numerics, index: map<string, Feature>, computed: seq<Feature>)
    requires Summarize(Tally(num, index, computed)).Ok?
    ensures var s := Summarize(Tally(num, index, computed)).value;
      && 0.0 <= s.datedPercent <= 100.0
      && 0.0 <= s.geocodedPercent <= 100.0
      && s.geocodedIncorrect >= 0
      && 0.0 <= s.incorrectPercent <= 100.0
  {
    CountersSummaryInRange(Tally(num, index, computed));
  }

  /** The summary of counters whose correct counts do not exceed their denominators. */
  lemma CountersSummaryInRange(c: Counters)
    requires c.datedCorrect <= c.datable && c.geocodedCorrect <= c.geocodable && c.geocodedCorrect <= c.geocoded
    requires Summarize(c).Ok?
    ensures var s := Summarize(c).value;
      && 0.0 <= s.datedPercent <= 100.0
      && 0.0 <= s.geocodedPercent <= 100.0
      && s.geocodedIncorrect >= 0
      && 0.0 <= s.incorrectPercent <= 100.0
  {
    var s := Summarize(c).value;
    assert s.datedPercent == 100.0 * (c.datedCorrect as real) / (c.datable as real);
    assert s.geocodedPercent == 100.0 * (c.geocodedCorrect as real) / (c.geocodable as real);
    assert s.incorrectPercent == 100.0 * ((c.geocoded - c.geocodedCorrect) as real) / (c.geocoded as real);
    PercentInRange(c.datedCorrect, c.datable);
    PercentInRange(c.geocodedCorrect, c.geocodable);
    PercentInRange(c.geocoded - c.geocodedCorrect, c.geocoded);
  }

  lemma PercentInRange(part: nat, whole: nat)
    requires 0 < whole && part <= whole
    ensures 0.0 <= 100.0 * (part as real) / (whole as real) <= 100.0
  {
  }
}
