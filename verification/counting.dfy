/**
 * The two-level counter `defaultdict(Counter)` that both servers fill with
 * `counts[key][year] += 1`, one (key, year) pair per feature, in list order.
 */
module Counting {

  /** key -> year -> count; a missing entry reads as zero. */
  type YearCounts = map<string, map<string, nat>>

  /** `counts[key][year]` without creating the entry: zero when absent. */
  function Get(m: YearCounts, key: string, year: string): nat {
    if key in m && year in m[key] then m[key][year] else 0
  }

  /** `counts[key][year] += 1` on a `defaultdict(Counter)`. */
  function Bump(m: YearCounts, key: string, year: string): YearCounts {
    var inner := if key in m then m[key] else map[];
    var count := if year in inner then inner[year] else 0;
    m[key := inner[year := count + 1]]
  }

  /** How many of the pairs are exactly (key, year). */
  function Occurrences(pairs: seq<(string, string)>, key: string, year: string): nat {
    if |pairs| == 0 then 0
    else Occurrences(pairs[..|pairs| - 1], key, year) + (if pairs[|pairs| - 1] == (key, year) then 1 else 0)
  }

  /** How many of the pairs have this key, whatever their year. */
  function KeyOccurrences(pairs: seq<(string, string)>, key: string): nat {
    if |pairs| == 0 then 0
    else KeyOccurrences(pairs[..|pairs| - 1], key) + (if pairs[|pairs| - 1].0 == key then 1 else 0)
  }

  /**
   * The counter after the loop `for (key, year) in pairs: counts[key][year] += 1`.
   * Each entry is the number of matching pairs; only keys and years that
   * occur are present, so no stored count is zero.
   */
  function CountPairs(pairs: seq<(string, string)>): (r: YearCounts)
    ensures forall key, year :: Get(r, key, year) == Occurrences(pairs, key, year)
    ensures forall key :: key in r <==> KeyOccurrences(pairs, key) > 0
    ensures forall key, year | key in r && year in r[key] :: r[key][year] > 0
    ensures forall key | key in r :: |r[key]| > 0
  {
    if |pairs| == 0 then map[]
    else
      var init := pairs[..|pairs| - 1];
      var last := pairs[|pairs| - 1];
      Bump(CountPairs(init), last.0, last.1)
  }

  /** The total of a counter's values, `sum(counter.values())`. */
  ghost function SumCounts(m: map<string, nat>): nat
    decreases |m|
  {
    if |m| == 0 then 0
    else
      var k :| k in m;
      m[k] + SumCounts(m - {k})
  }

  /** The sum can be split at any key, whichever one the definition picked. */
  lemma {:induction false} SumCountsRemove(m: map<string, nat>, k: string)
    requires k in m
    ensures SumCounts(m) == m[k] + SumCounts(m - {k})
    decreases |m|
  {
    var j := PickedKey(m);
    if j != k {
      var mj := m - {j};
      var mk := m - {k};
      assert mj.Keys == m.Keys - {j};
      assert mk.Keys == m.Keys - {k};
      assert |mj| < |m| && |mk| < |m|;
      assert k in mj && j in mk;
      SumCountsRemove(mj, k);
      SumCountsRemove(mk, j);
      assert mj - {k} == mk - {j};
    }
  }

  /** The key the definition of `SumCounts` splits at. */
  lemma PickedKey(m: map<string, nat>) returns (j: string)
    requires |m| > 0
    ensures j in m && SumCounts(m) == m[j] + SumCounts(m - {j})
  {
    j :| j in m && SumCounts(m) == m[j] + SumCounts(m - {j});
  }

  /** Incrementing one entry of a counter raises its total by one. */
  lemma SumCountsIncrement(m: map<string, nat>, y: string)
    ensures SumCounts(m[y := (if y in m then m[y] else 0) + 1]) == SumCounts(m) + 1
  {
    var m' := m[y := (if y in m then m[y] else 0) + 1];
    SumCountsRemove(m', y);
    assert m' - {y} == m - {y};
    if y in m {
      SumCountsRemove(m, y);
    } else {
      assert m - {y} == m;
    }
  }

  /** The year counts under one key add up to the number of pairs with that key. */
  lemma {:induction false} CountPairsTotals(pairs: seq<(string, string)>, key: string)
    requires key in CountPairs(pairs)
    ensures SumCounts(CountPairs(pairs)[key]) == KeyOccurrences(pairs, key)
    decreases |pairs|
  {
    var init := pairs[..|pairs| - 1];
    var last := pairs[|pairs| - 1];
    var before := CountPairs(init);
    if last.0 == key {
      if key in before {
        CountPairsTotals(init, key);
        SumCountsIncrement(before[key], last.1);
      } else {
        var empty: map<string, nat> := map[];
        SumCountsIncrement(empty, last.1);
      }
    } else {
      CountPairsTotals(init, key);
    }
  }
}
