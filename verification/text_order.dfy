/**
 * Python's ordering of strings (code point by code point, a proper prefix
 * first) and of the featured-image sort key `(date or "", title, id)`.
 */
module TextOrder {

  /** Python's `a < b` on `str`. */
  predicate StrLess(a: string, b: string) {
    if |a| == 0 then |b| > 0
    else if |b| == 0 then false
    else if a[0] != b[0] then a[0] < b[0]
    else StrLess(a[1..], b[1..])
  }

  lemma {:induction false} StrLessIrreflexive(a: string)
    ensures !StrLess(a, a)
    decreases |a|
  {
    if |a| > 0 {
      StrLessIrreflexive(a[1..]);
    }
  }

  lemma {:induction false} StrLessTransitive(a: string, b: string, c: string)
    requires StrLess(a, b) && StrLess(b, c)
    ensures StrLess(a, c)
    decreases |a|
  {
    if |a| > 0 && a[0] == b[0] && b[0] == c[0] {
      StrLessTransitive(a[1..], b[1..], c[1..]);
    }
  }

  /** Any two strings are equal or ordered one way. */
  lemma {:induction false} StrLessTrichotomy(a: string, b: string)
    ensures a == b || StrLess(a, b) || StrLess(b, a)
    decreases |a|
  {
    if |a| > 0 && |b| > 0 && a[0] == b[0] {
      StrLessTrichotomy(a[1..], b[1..]);
      if a[1..] == b[1..] {
        assert a == [a[0]] + a[1..] && b == [b[0]] + b[1..];
      }
    }
  }

  /** The sort key of a featured image: `(f["date"] or "", f["title"], f["id"])`. */
  datatype SortKey = SortKey(date: string, title: string, id: string)

  /** Python's `<=` on the key tuples: lexicographic over the three fields. */
  predicate KeyLessEq(x: SortKey, y: SortKey) {
    || StrLess(x.date, y.date)
    || (x.date == y.date && StrLess(x.title, y.title))
    || (x.date == y.date && x.title == y.title && (StrLess(x.id, y.id) || x.id == y.id))
  }

  lemma KeyLessEqTotal(x: SortKey, y: SortKey)
    ensures KeyLessEq(x, y) || KeyLessEq(y, x)
  {
    StrLessTrichotomy(x.date, y.date);
    StrLessTrichotomy(x.title, y.title);
    StrLessTrichotomy(x.id, y.id);
  }

  lemma KeyLessEqTransitive(x: SortKey, y: SortKey, z: SortKey)
    requires KeyLessEq(x, y) && KeyLessEq(y, z)
    ensures KeyLessEq(x, z)
  {
    if StrLess(x.date, y.date) && StrLess(y.date, z.date) {
      StrLessTransitive(x.date, y.date, z.date);
    }
    if x.date == y.date == z.date && StrLess(x.title, y.title) && StrLess(y.title, z.title) {
      StrLessTransitive(x.title, y.title, z.title);
    }
    if x.date == y.date == z.date && x.title == y.title == z.title && StrLess(x.id, y.id) && StrLess(y.id, z.id) {
      StrLessTransitive(x.id, y.id, z.id);
    }
  }

  lemma KeyLessEqAntisymmetric(x: SortKey, y: SortKey)
    requires KeyLessEq(x, y) && KeyLessEq(y, x)
    ensures x == y
  {
    StrLessIrreflexive(x.date);
    StrLessIrreflexive(x.title);
    StrLessIrreflexive(x.id);
    if StrLess(x.date, y.date) && StrLess(y.date, x.date) {
      StrLessTransitive(x.date, y.date, x.date);
    }
    if StrLess(x.title, y.title) && StrLess(y.title, x.title) {
      StrLessTransitive(x.title, y.title, x.title);
    }
    if StrLess(x.id, y.id) && StrLess(y.id, x.id) {
      StrLessTransitive(x.id, y.id, x.id);
    }
  }
}
