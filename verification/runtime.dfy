/**
 * The operations the system borrows from Python's runtime and libraries and
 * that this model does not interpret: float rounding and formatting, the
 * haversine great-circle distance, JSON serialisation and the md5 digest.
 * Every function of the model that needs one of them takes it as a parameter,
 * so each property proved holds for every possible implementation.
 */
module Runtime {

  /** Floating-point helpers. */
  datatype Numerics = Numerics(
    /** Python's `round(x, ndigits)`. */
    round: (real, nat) -> real,
    /** Python's `"%.6f" % x`; `f"{x:2.6f}"` is the same text, since six
        decimals always make the result wider than two characters. */
    fixed6: real -> string,
    /** `haversine(p1, p2)` of the haversine package, in kilometres. */
    haversine: ((real, real), (real, real)) -> real)

  /** Serialisers and digest used to build the served payloads. */
  datatype Codec<-L, -I> = Codec(
    /** `json.dumps(locations, sort_keys=True)`. */
    locationsJson: L -> string,
    /** `json.dumps(images, sort_keys=True)`. */
    imagesJson: I -> string,
    /** `hashlib.md5(text.encode()).hexdigest()`. */
    md5: string -> string)
}
