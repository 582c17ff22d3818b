/**
 * GeoJSON features of the photo archive, with the property fields the
 * system inspects given their own typed slots.
 */
module Features {
  import opened Wrappers

  /** A JSON value, for the property fields the system only passes through. */
  datatype Value =
    | Null
    | Bool(b: bool)
    | Num(x: real)
    | Str(s: string)
    | List(items: seq<Value>)
    | Object(fields: map<string, Value>)

  /** A point geometry; GeoJSON puts the longitude first. */
  datatype Coord = Coord(lng: real, lat: real)

  /**
   * The `properties` mapping of a feature. `date` is `None` for a JSON null;
   * `id` and `location` are `None` until loading stamps them. `rest` holds
   * every other key; where it repeats a typed key, the typed slot wins.
   */
  datatype Props = Props(
    date: Option<string>,
    title: string,
    id: Option<string>,
    location: Option<string>,
    rest: map<string, Value>)

  /** A feature; `geometry` is `None` for a null geometry. */
  datatype Feature = Feature(id: string, geometry: Option<Coord>, properties: Props)

  /** The year bucket of a feature, `date or ""`: a null or empty date is `""`. */
  function Year(p: Props): string {
    p.date.GetOr("")
  }

  /** Python truthiness of an optional string: present and non-empty. */
  predicate Truthy(s: Option<string>) {
    s.Some? && s.value != ""
  }

  /** The properties as the JSON object the source manipulates. */
  function PropsToMap(p: Props): (m: map<string, Value>)
    ensures "date" in m && "title" in m
    ensures m["title"] == Str(p.title)
    ensures "id" in m <==> "id" in p.rest || p.id.Some?
    ensures p.id.Some? ==> m["id"] == Str(p.id.value)
    ensures forall k | k in p.rest && k !in {"date", "title", "id", "location"} :: k in m && m[k] == p.rest[k]
  {
    var typed := map["date" := (if p.date.Some? then Str(p.date.value) else Null), "title" := Str(p.title)];
    var withId := if p.id.Some? then typed["id" := Str(p.id.value)] else typed;
    var withLocation := if p.location.Some? then withId["location" := Str(p.location.value)] else withId;
    p.rest + withLocation
  }

  /** `[f for f in features if f["geometry"]]`: the features that have a geometry, in order. */
  function KeepGeolocated(fs: seq<Feature>): (r: seq<Feature>)
    ensures |r| <= |fs|
    ensures forall g | g in r :: g in fs && g.geometry.Some?
    ensures forall f | f in fs && f.geometry.Some? :: f in r
  {
    if |fs| == 0 then []
    else
      var init := KeepGeolocated(fs[..|fs| - 1]);
      var f := fs[|fs| - 1];
      assert fs == fs[..|fs| - 1] + [f];
      if f.geometry.Some? then init + [f] else init
  }

  /** Filtering distributes over concatenation, so it keeps the input order. */
  lemma {:induction false} KeepGeolocatedAppend(a: seq<Feature>, b: seq<Feature>)
    ensures KeepGeolocated(a + b) == KeepGeolocated(a) + KeepGeolocated(b)
    decreases |b|
  {
    if |b| == 0 {
      assert a + b == a;
    } else {
      var b' := b[..|b| - 1];
      assert (a + b)[..|a + b| - 1] == a + b';
      KeepGeolocatedAppend(a, b');
    }
  }

  /** Filtering twice is filtering once. */
  lemma {:induction false} KeepGeolocatedIdempotent(fs: seq<Feature>)
    ensures KeepGeolocated(KeepGeolocated(fs)) == KeepGeolocated(fs)
    decreases |fs|
  {
    if |fs| > 0 {
      var init := fs[..|fs| - 1];
      var f := fs[|fs| - 1];
      KeepGeolocatedIdempotent(init);
      if f.geometry.Some? {
        KeepGeolocatedAppend(KeepGeolocated(init), [f]);
        assert [f][..0] == [];
      }
    }
  }
}
