/**
 * Python's `sorted(xs, key=...)` for the featured-image key: a stable
 * insertion sort on sequences, with the facts that it returns a sorted
 * permutation and that a sorted permutation is unique when equal keys mean
 * equal elements.
 */
module Sorting {
  import opened TextOrder

  /** Every earlier element's key is at most every later element's key. */
  predicate SortedBy<T>(s: seq<T>, key: T -> SortKey) {
    forall i, j | 0 <= i < j < |s| :: KeyLessEq(key(s[i]), key(s[j]))
  }

  /** Inserts `x` after every element whose key is at most its own. */
  function Insert<T>(x: T, s: seq<T>, key: T -> SortKey): (r: seq<T>)
    ensures multiset(r) == multiset(s) + multiset{x}
    ensures SortedBy(s, key) ==> SortedBy(r, key)
  {
    if |s| == 0 then [x]
    else if KeyLessEq(key(s[0]), key(x)) then
      var tail := Insert(x, s[1..], key);
      assert s == [s[0]] + s[1..];
      InsertHead(s[0], x, s[1..], tail, key);
      [s[0]] + tail
    else
      KeyLessEqTotal(key(s[0]), key(x));
      InsertFront(x, s, key);
      [x] + s
  }

  /** Keeping `h` in front of a sorted insertion into `s` keeps order when `h` precedes `x` and all of `s`. */
  lemma InsertHead<T>(h: T, x: T, s: seq<T>, tail: seq<T>, key: T -> SortKey)
    requires KeyLessEq(key(h), key(x))
    requires SortedBy([h] + s, key) ==> SortedBy(s, key) ==> SortedBy(tail, key)
    requires multiset(tail) == multiset(s) + multiset{x}
    ensures SortedBy([h] + s, key) ==> SortedBy([h] + tail, key)
  {
    if SortedBy([h] + s, key) {
      assert SortedBy(s, key) by {
        forall i, j | 0 <= i < j < |s| ensures KeyLessEq(key(s[i]), key(s[j])) {
          assert ([h] + s)[i + 1] == s[i] && ([h] + s)[j + 1] == s[j];
        }
      }
      var r := [h] + tail;
      forall i, j | 0 <= i < j < |r| ensures KeyLessEq(key(r[i]), key(r[j])) {
        if i == 0 {
          assert r[0] == h && r[j] == tail[j - 1];
          assert r[j] in multiset(tail);
          if r[j] != x {
            assert r[j] in multiset(s);
            var k :| 0 <= k < |s| && s[k] == r[j];
            assert ([h] + s)[0] == h && ([h] + s)[k + 1] == s[k];
          }
        } else {
          assert r[i] == tail[i - 1] && r[j] == tail[j - 1];
        }
      }
    }
  }

  /** Putting `x` in front of a sorted `s` whose first key is at least `x`'s keeps order. */
  lemma InsertFront<T>(x: T, s: seq<T>, key: T -> SortKey)
    requires |s| > 0 && KeyLessEq(key(x), key(s[0]))
    ensures SortedBy(s, key) ==> SortedBy([x] + s, key)
  {
    if SortedBy(s, key) {
      var r := [x] + s;
      forall i, j | 0 <= i < j < |r| ensures KeyLessEq(key(r[i]), key(r[j])) {
        if i == 0 && j > 1 {
          KeyLessEqTransitive(key(x), key(s[0]), key(s[j - 1]));
        }
      }
    }
  }

  /** `sorted(s, key=key)`: a sorted permutation of `s`. */
  function SortBy<T>(s: seq<T>, key: T -> SortKey): (r: seq<T>)
    ensures multiset(r) == multiset(s)
    ensures SortedBy(r, key)
  {
    if |s| == 0 then []
    else
      assert s == s[..|s| - 1] + [s[|s| - 1]];
      Insert(s[|s| - 1], SortBy(s[..|s| - 1], key), key)
  }

  /** Elements of `s` with equal keys are equal elements. */
  predicate KeyDetermines<T(==)>(s: seq<T>, key: T -> SortKey) {
    forall i, j | 0 <= i < |s| && 0 <= j < |s| && key(s[i]) == key(s[j]) :: s[i] == s[j]
  }

  /**
   * Two sorted permutations of the same elements are the same sequence when
   * equal keys mean equal elements; so any stable or unstable sort agrees.
   */
  lemma {:induction false} SortedUnique<T>(a: seq<T>, b: seq<T>, key: T -> SortKey)
    requires SortedBy(a, key) && SortedBy(b, key)
    requires multiset(a) == multiset(b)
    requires KeyDetermines(a, key)
    ensures a == b
    decreases |a|
  {
    if |a| == 0 {
      assert |b| == |multiset(b)| == 0;
    } else {
      assert |b| == |multiset(b)| == |a|;
      assert a[0] in multiset(b);
      var j :| 0 <= j < |b| && b[j] == a[0];
      assert KeyLessEq(key(b[0]), key(a[0])) by {
        if j == 0 { KeyLessEqTotal(key(b[0]), key(b[0])); }
      }
      assert b[0] in multiset(a);
      var i :| 0 <= i < |a| && a[i] == b[0];
      assert KeyLessEq(key(a[0]), key(b[0])) by {
        if i == 0 { KeyLessEqTotal(key(a[0]), key(a[0])); }
      }
      KeyLessEqAntisymmetric(key(a[0]), key(b[0]));
      assert a[0] == b[0];
      assert a == [a[0]] + a[1..] && b == [b[0]] + b[1..];
      assert multiset(a) == multiset{a[0]} + multiset(a[1..]);
      assert multiset(b) == multiset{b[0]} + multiset(b[1..]);
      forall e ensures multiset(a[1..])[e] == multiset(b[1..])[e] {
        assert multiset(a)[e] == multiset{a[0]}[e] + multiset(a[1..])[e];
        assert multiset(b)[e] == multiset{b[0]}[e] + multiset(b[1..])[e];
      }
      assert multiset(a[1..]) == multiset(b[1..]);
      assert SortedBy(a[1..], key) by {
        forall p, q | 0 <= p < q < |a[1..]| ensures KeyLessEq(key(a[1..][p]), key(a[1..][q])) {
          assert a[1..][p] == a[p + 1] && a[1..][q] == a[q + 1];
        }
      }
      assert SortedBy(b[1..], key) by {
        forall p, q | 0 <= p < q < |b[1..]| ensures KeyLessEq(key(b[1..][p]), key(b[1..][q])) {
          assert b[1..][p] == b[p + 1] && b[1..][q] == b[q + 1];
        }
      }
      assert KeyDetermines(a[1..], key) by {
        forall p, q | 0 <= p < |a[1..]| && 0 <= q < |a[1..]| && key(a[1..][p]) == key(a[1..][q])
          ensures a[1..][p] == a[1..][q]
        {
          assert a[1..][p] == a[p + 1] && a[1..][q] == a[q + 1];
        }
      }
      SortedUnique(a[1..], b[1..], key);
    }
  }
}
