/**
 * The canonical location key of backend/src/app.py, `_lat_lng_key(lng, lat)`:
 * latitude and longitude, each rounded to 7 and then to 6 decimals, printed
 * with six decimals and joined latitude first.
 */
module LocationKey {
  import opened Runtime
  import opened LatLngText

  /** `round(round(f, 7), 6)`: the two-stage rounding shared by both servers. */
  function Round6(num: Numerics, f: real): real {
    num.round(num.round(f, 7), 6)
  }

  /** The text of one rounded coordinate in a key. */
  function KeyPart(num: Numerics, f: real): string {
    num.fixed6(Round6(num, f))
  }

  /** `_lat_lng_key(lng, lat)`: arguments in GeoJSON order, key in `"lat,lng"` order. */
  function LatLngKey(num: Numerics, lng: real, lat: real): (key: string)
    ensures var n := |KeyPart(num, lat)|;
      && |key| == n + 1 + |KeyPart(num, lng)|
      && key[..n] == KeyPart(num, lat)
      && key[n] == ','
      && key[n + 1..] == KeyPart(num, lng)
  {
    Join(KeyPart(num, lat), KeyPart(num, lng))
  }

  /** The key reads back as the latitude text, a comma, then the longitude text. */
  lemma LatLngKeyFields(num: Numerics, lng: real, lat: real)
    requires ',' !in KeyPart(num, lat)
    ensures Split(LatLngKey(num, lng, lat)) == (KeyPart(num, lat), KeyPart(num, lng))
  {
    SplitJoin(KeyPart(num, lat), KeyPart(num, lng));
  }

  /**
   * Two coordinates share a key exactly when their latitudes print alike and
   * their longitudes print alike after rounding (decimal text has no comma).
   */
  lemma LatLngKeyEqual(num: Numerics, lng1: real, lat1: real, lng2: real, lat2: real)
    requires ',' !in KeyPart(num, lat1) && ',' !in KeyPart(num, lat2)
    ensures LatLngKey(num, lng1, lat1) == LatLngKey(num, lng2, lat2)
        <==> KeyPart(num, lat1) == KeyPart(num, lat2) && KeyPart(num, lng1) == KeyPart(num, lng2)
  {
    JoinInjective(KeyPart(num, lat1), KeyPart(num, lng1), KeyPart(num, lat2), KeyPart(num, lng2));
  }

  /** Coordinates that agree after the two-stage rounding have the same key. */
  lemma LatLngKeyRounding(num: Numerics, lng1: real, lat1: real, lng2: real, lat2: real)
    requires num.round(num.round(lat1, 7), 6) == num.round(num.round(lat2, 7), 6)
    requires num.round(num.round(lng1, 7), 6) == num.round(num.round(lng2, 7), 6)
    ensures LatLngKey(num, lng1, lat1) == LatLngKey(num, lng2, lat2)
  {
  }
}
