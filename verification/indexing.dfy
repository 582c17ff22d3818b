/**
 * Dictionaries built by comprehension, `{key(x): val(x) for x in s}`:
 * a later element with the same key overwrites an earlier one.
 */
module Indexing {

  /** Position `i` holds the last element of `s` whose key is `k`. */
  predicate IsLastWithKey<T>(s: seq<T>, key: T -> string, k: string, i: int) {
    && 0 <= i < |s|
    && key(s[i]) == k
    && forall j | i < j < |s| :: key(s[j]) != k
  }

  /** `m` has exactly the keys of `s`, each with the value of its last element. */
  ghost predicate IndexesLast<T, V>(s: seq<T>, key: T -> string, val: T -> V, m: map<string, V>) {
    && (forall k :: k in m <==> exists i | 0 <= i < |s| :: key(s[i]) == k)
    && (forall k | k in m :: exists i :: IsLastWithKey(s, key, k, i) && m[k] == val(s[i]))
  }

  /**
   * Keys are exactly the keys of the elements; each key's value is taken
   * from the last element that has it.
   */
  function IndexLast<T, V>(s: seq<T>, key: T -> string, val: T -> V): (m: map<string, V>)
    ensures forall k :: k in m <==> exists i | 0 <= i < |s| :: key(s[i]) == k
    ensures forall k | k in m :: exists i :: IsLastWithKey(s, key, k, i) && m[k] == val(s[i])
  {
    if |s| == 0 then map[]
    else
      var init := s[..|s| - 1];
      var m := IndexLast(init, key, val);
      assert s == init + [s[|s| - 1]];
      IndexLastStep(init, s[|s| - 1], key, val, m);
      m[key(s[|s| - 1]) := val(s[|s| - 1])]
  }

  /** Storing one more element keeps the index exact. */
  lemma IndexLastStep<T, V>(init: seq<T>, last: T, key: T -> string, val: T -> V, m: map<string, V>)
    requires IndexesLast(init, key, val, m)
    ensures IndexesLast(init + [last], key, val, m[key(last) := val(last)])
  {
    var s := init + [last];
    var m' := m[key(last) := val(last)];
    assert IsLastWithKey(s, key, key(last), |s| - 1);
    forall k ensures k in m' <==> exists i | 0 <= i < |s| :: key(s[i]) == k {
      if k in m && k != key(last) {
        var i :| 0 <= i < |init| && key(init[i]) == k;
        assert s[i] == init[i];
      }
      if exists i | 0 <= i < |s| :: key(s[i]) == k {
        var i :| 0 <= i < |s| && key(s[i]) == k;
        if i < |init| {
          assert init[i] == s[i];
        }
      }
    }
    forall k | k in m' ensures exists i :: IsLastWithKey(s, key, k, i) && m'[k] == val(s[i]) {
      if k != key(last) {
        var i :| IsLastWithKey(init, key, k, i) && m[k] == val(init[i]);
        assert s[i] == init[i];
        assert IsLastWithKey(s, key, k, i);
      }
    }
  }
}
