/**
 * The `"<first>,<second>"` text shape shared by the location key
 * (`"lat,lng"`) and the metrics engine's coordinate rendering.
 */
module LatLngText {

  /** `f"{a},{b}"`. */
  function Join(a: string, b: string): string {
    a + "," + b
  }

  /** Cuts `s` at its first comma; a text without a comma is all first part. */
  function Split(s: string): (parts: (string, string))
    ensures ',' !in parts.0
    ensures |parts.0| <= |s|
  {
    if |s| == 0 then ("", "")
    else if s[0] == ',' then ("", s[1..])
    else
      var rest := Split(s[1..]);
      ([s[0]] + rest.0, rest.1)
  }

  /** Splitting undoes joining when the first part has no comma of its own. */
  lemma {:induction false} SplitJoin(a: string, b: string)
    requires ',' !in a
    ensures Split(Join(a, b)) == (a, b)
    decreases |a|
  {
    if |a| == 0 {
      assert Join(a, b) == [','] + b;
    } else {
      assert Join(a, b)[1..] == Join(a[1..], b);
      assert a[0] in a;
      SplitJoin(a[1..], b);
      assert [a[0]] + a[1..] == a;
    }
  }

  /** Joined texts are equal exactly when their parts are, given comma-free first parts. */
  lemma JoinInjective(a1: string, b1: string, a2: string, b2: string)
    requires ',' !in a1 && ',' !in a2
    ensures Join(a1, b1) == Join(a2, b2) <==> a1 == a2 && b1 == b2
  {
    if Join(a1, b1) == Join(a2, b2) {
      SplitJoin(a1, b1);
      SplitJoin(a2, b2);
    }
  }

  /** A joined text always holds a comma, so it is never the text `"None"`. */
  lemma JoinIsNotNone(a: string, b: string)
    ensures Join(a, b) != "None"
  {
    assert Join(a, b)[|a|] == ',';
    assert ',' !in "None";
  }
}
