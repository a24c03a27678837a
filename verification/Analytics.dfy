/** Usage counters and how they add up, group by group. */
module Analytics {
  import opened Wrappers

  datatype Counters = Counters(requests: int, promptTokens: int, cachedPromptTokens: int, completionTokens: int,
                               cachedCompletionTokens: int, quota: int)
  {
    function Plus(c: Counters): Counters
    {
      Counters(requests + c.requests, promptTokens + c.promptTokens, cachedPromptTokens + c.cachedPromptTokens,
               completionTokens + c.completionTokens, cachedCompletionTokens + c.cachedCompletionTokens,
               quota + c.quota)
    }
  }

  const ZERO := Counters(0, 0, 0, 0, 0, 0)

  /** The usage of one model through one channel on one day. */
  datatype Row = Row(day: string, modelName: string, channelId: int, requestFormat: string, channelName: string,
                     counters: Counters)

  type Grouping<Key> = Row -> Key

  ghost function Sum(rows: seq<Row>): Counters
  {
    if rows == [] then ZERO else Sum(rows[..|rows|-1]).Plus(rows[|rows|-1].counters)
  }

  /** The sum of the rows of one group. */
  ghost function Total<Key>(rows: seq<Row>, keyOf: Grouping<Key>, key: Key): Counters
  {
    if rows == [] then ZERO
    else
      var before := Total(rows[..|rows|-1], keyOf, key);
      if keyOf(rows[|rows|-1]) == key then before.Plus(rows[|rows|-1].counters) else before
  }

  ghost function Added(list: seq<Counters>): Counters
  {
    if list == [] then ZERO else Added(list[..|list|-1]).Plus(list[|list|-1])
  }

  lemma SumOneMore(rows: seq<Row>, row: Row)
    ensures Sum(rows + [row]) == Sum(rows).Plus(row.counters)
  {
    assert (rows + [row])[..|rows|] == rows;
  }

  lemma TotalOneMore<Key>(rows: seq<Row>, row: Row, keyOf: Grouping<Key>, key: Key)
    ensures Total(rows + [row], keyOf, key) ==
              if keyOf(row) == key then Total(rows, keyOf, key).Plus(row.counters) else Total(rows, keyOf, key)
  {
    assert (rows + [row])[..|rows|] == rows;
  }

  lemma {:induction false} AddedUpdate(list: seq<Counters>, i: nat, c: Counters)
    requires i < |list|
    ensures Added(list[i := list[i].Plus(c)]) == Added(list).Plus(c)
  {
    var last := |list| - 1;
    var updated := list[i := list[i].Plus(c)];
    if i < last {
      AddedUpdate(list[..last], i, c);
      assert updated[..last] == list[..last][i := list[i].Plus(c)];
    } else {
      assert updated[..last] == list[..last];
    }
  }

  predicate IsZero(c: Counters)
  {
    c == ZERO
  }

  lemma {:induction false} AddedZeros(list: seq<Counters>)
    requires forall i :: 0 <= i < |list| ==> IsZero(list[i])
    ensures IsZero(Added(list))
  {
    if list != [] {
      AddedZeros(list[..|list|-1]);
      assert IsZero(list[|list|-1]);
    }
  }

  ghost predicate Distinct<T>(list: seq<T>)
  {
    forall i, j :: 0 <= i < j < |list| ==> list[i] != list[j]
  }

  /** The list holds, key by key, the totals of the groups. */
  ghost predicate HoldsTotals<Key>(rows: seq<Row>, keyOf: Grouping<Key>, keys: seq<Key>, list: seq<Counters>)
  {
    |list| == |keys| && forall i :: 0 <= i < |keys| ==> list[i] == Total(rows, keyOf, keys[i])
  }

  ghost predicate Covers<Key>(rows: seq<Row>, keyOf: Grouping<Key>, keys: seq<Key>)
  {
    forall key :: key in KeysIn(rows, keyOf) ==> key in keys
  }

  /** However rows are grouped, the totals of the groups add up to the sum of the rows. */
  lemma {:induction false} GroupsAddUp<Key>(rows: seq<Row>, keyOf: Grouping<Key>, keys: seq<Key>, list: seq<Counters>)
    requires Distinct(keys) && Covers(rows, keyOf, keys) && HoldsTotals(rows, keyOf, keys, list)
    ensures Added(list) == Sum(rows)
    decreases |rows|
  {
    if rows == [] {
      assert forall i :: 0 <= i < |list| ==> IsZero(list[i]);
      AddedZeros(list);
    } else {
      var before, row := rows[..|rows|-1], rows[|rows|-1];
      assert keyOf(row) in KeysIn(rows, keyOf);
      var i :| 0 <= i < |keys| && keys[i] == keyOf(row);
      var smaller := list[i := Total(before, keyOf, keys[i])];
      forall j | 0 <= j < |keys| && j != i ensures keys[j] != keyOf(row) {
        assert keys[i] != keys[j];
      }
      GroupsAddUp(before, keyOf, keys, smaller);
      AddedUpdate(smaller, i, row.counters);
      assert smaller[i := smaller[i].Plus(row.counters)] == list;
    }
  }

  lemma {:induction false} TwoSidesAddUp<Key>(rows: seq<Row>, side: Grouping<Key>, one: Key, other: Key)
    requires one != other && forall row :: side(row) == one || side(row) == other
    ensures Total(rows, side, one).Plus(Total(rows, side, other)) == Sum(rows)
  {
    if rows == [] {
      PlusZero(Total(rows, side, one));
    } else {
      var before, row := rows[..|rows|-1], rows[|rows|-1];
      TwoSidesAddUp(before, side, one, other);
      PlusCommutes(Total(before, side, one), Total(before, side, other), row.counters);
      assert side(row) == one || side(row) == other;
    }
  }

  lemma PlusZero(c: Counters)
    ensures c.Plus(ZERO) == c
  {
  }

  lemma PlusCommutes(a: Counters, b: Counters, c: Counters)
    ensures a.Plus(b).Plus(c) == a.Plus(c).Plus(b) == a.Plus(b.Plus(c))
  {
  }

  /** The groups that have rows. */
  ghost function KeysIn<Key>(rows: seq<Row>, keyOf: Grouping<Key>): set<Key>
  {
    if rows == [] then {} else KeysIn(rows[..|rows|-1], keyOf) + {keyOf(rows[|rows|-1])}
  }

  lemma {:induction false} KeysInIff<Key>(rows: seq<Row>, keyOf: Grouping<Key>, key: Key)
    ensures key in KeysIn(rows, keyOf) <==> exists k :: InGroup(rows, keyOf, k, key)
  {
    if rows != [] {
      var last := |rows| - 1;
      KeysInIff(rows[..last], keyOf, key);
      assert InGroup(rows, keyOf, last, keyOf(rows[last]));
      forall k
        ensures InGroup(rows, keyOf, k, key) <==>
                  InGroup(rows[..last], keyOf, k, key) || (k == last && keyOf(rows[last]) == key)
      {
      }
    }
  }

  ghost predicate InGroup<Key>(rows: seq<Row>, keyOf: Grouping<Key>, k: int, key: Key)
  {
    0 <= k < |rows| && keyOf(rows[k]) == key
  }

  /** The groups met so far, each with its total. */
  ghost predicate Grouped<Key>(rows: seq<Row>, keyOf: Grouping<Key>, groups: map<Key, Counters>)
  {
    groups.Keys == KeysIn(rows, keyOf) && forall key :: key in groups ==> groups[key] == Total(rows, keyOf, key)
  }

  lemma {:induction false} TotalOfNone<Key>(rows: seq<Row>, keyOf: Grouping<Key>, key: Key)
    requires key !in KeysIn(rows, keyOf)
    ensures Total(rows, keyOf, key) == ZERO
  {
    if rows != [] {
      TotalOfNone(rows[..|rows|-1], keyOf, key);
    }
  }

  lemma KeysInOneMore<Key>(rows: seq<Row>, row: Row, keyOf: Grouping<Key>)
    ensures KeysIn(rows + [row], keyOf) == KeysIn(rows, keyOf) + {keyOf(row)}
  {
    assert (rows + [row])[..|rows|] == rows;
  }

  lemma GroupedOneMore<Key>(rows: seq<Row>, row: Row, keyOf: Grouping<Key>, groups: map<Key, Counters>)
    requires Grouped(rows, keyOf, groups)
    ensures var c := if keyOf(row) in groups then groups[keyOf(row)] else ZERO;
            Grouped(rows + [row], keyOf, groups[keyOf(row) := c.Plus(row.counters)])
  {
    var c := if keyOf(row) in groups then groups[keyOf(row)] else ZERO;
    var after := groups[keyOf(row) := c.Plus(row.counters)];
    KeysInOneMore(rows, row, keyOf);
    forall key | key in after ensures after[key] == Total(rows + [row], keyOf, key) {
      TotalOneMore(rows, row, keyOf, key);
      if key !in groups {
        TotalOfNone(rows, keyOf, key);
      }
    }
  }

  // ----- the hit rate -----

  /** A share between 0 and 1. */
  function ComputeAnalyticsRate(numerator: int, denominator: int): (r: real)
    ensures 0.0 <= r <= 1.0
    ensures numerator <= 0 || denominator <= 0 ==> r == 0.0
    ensures 0 < denominator <= numerator ==> r == 1.0
    ensures 0 <= numerator <= denominator && denominator > 0 ==> r * denominator as real == numerator as real
  {
    if denominator <= 0 || numerator <= 0 then 0.0
    else if numerator >= denominator then 1.0
    else
      assert numerator as real < denominator as real;
      ShareBelowOne(numerator as real, denominator as real);
      numerator as real / denominator as real
  }

  lemma ShareBelowOne(n: real, d: real)
    requires 0.0 <= n < d
    ensures 0.0 <= n / d < 1.0 && (n / d) * d == n
  {
  }

  function HitRate(c: Counters): real
  {
    ComputeAnalyticsRate(c.cachedPromptTokens, c.promptTokens)
  }

  predicate Sensible(c: Counters)
  {
    0 <= c.promptTokens && 0 <= c.cachedPromptTokens && (c.promptTokens == 0 ==> c.cachedPromptTokens == 0)
  }

  lemma RateBounds(c: Counters, lo: real, hi: real)
    requires Sensible(c) && lo <= HitRate(c) <= hi
    ensures c.cachedPromptTokens as real >= lo * c.promptTokens as real
    ensures hi < 1.0 ==> c.cachedPromptTokens as real <= hi * c.promptTokens as real
  {
    var p, q := c.promptTokens as real, c.cachedPromptTokens as real;
    if c.promptTokens > 0 {
      Scale(lo, HitRate(c), p);
      Scale(HitRate(c), hi, p);
      if c.cachedPromptTokens >= c.promptTokens {
        Scale(HitRate(c), 1.0, p);
      }
    }
  }

  lemma Scale(a: real, b: real, p: real)
    requires a <= b && p >= 0.0
    ensures a * p <= b * p
  {
  }

  lemma {:induction false} RateBoundsAdded(list: seq<Counters>, lo: real, hi: real)
    requires forall c :: c in list ==> Sensible(c) && lo <= HitRate(c) <= hi
    ensures Sensible(Added(list))
    ensures Added(list).cachedPromptTokens as real >= lo * Added(list).promptTokens as real
    ensures hi < 1.0 ==> Added(list).cachedPromptTokens as real <= hi * Added(list).promptTokens as real
  {
    if list != [] {
      var before, last := Added(list[..|list|-1]), list[|list|-1];
      RateBoundsAdded(list[..|list|-1], lo, hi);
      assert last in list;
      RateBounds(last, lo, hi);
      Spread(lo, before.promptTokens as real, last.promptTokens as real);
      Spread(hi, before.promptTokens as real, last.promptTokens as real);
    }
  }

  lemma Spread(a: real, p: real, q: real)
    ensures a * (p + q) == a * p + a * q
  {
  }

  /** The overall rate lies between the smallest and the largest rate of the groups. */
  lemma OverallRateIsBetween(list: seq<Counters>, lo: real, hi: real)
    requires list != [] && forall c :: c in list ==> Sensible(c) && lo <= HitRate(c) <= hi
    ensures lo <= HitRate(Added(list)) <= hi
  {
    var all := Added(list);
    RateBoundsAdded(list, lo, hi);
    assert list[0] in list;
    if all.promptTokens == 0 {
      NoPromptTokens(list);
      assert HitRate(list[0]) == 0.0;
    } else {
      RateFromBounds(all, lo, hi);
    }
  }

  lemma {:induction false} NoPromptTokens(list: seq<Counters>)
    requires forall c :: c in list ==> Sensible(c)
    ensures Added(list).promptTokens >= 0
    ensures Added(list).promptTokens == 0 ==> forall c :: c in list ==> c.promptTokens == 0
  {
    if list != [] {
      assert list == list[..|list|-1] + [list[|list|-1]];
      assert list[|list|-1] in list;
      NoPromptTokens(list[..|list|-1]);
    }
  }

  lemma RateFromBounds(c: Counters, lo: real, hi: real)
    requires Sensible(c) && c.promptTokens > 0 && lo <= 1.0 && 0.0 <= hi
    requires c.cachedPromptTokens as real >= lo * c.promptTokens as real
    requires hi < 1.0 ==> c.cachedPromptTokens as real <= hi * c.promptTokens as real
    ensures lo <= HitRate(c) <= hi
  {
    var p, r := c.promptTokens as real, HitRate(c);
    if c.cachedPromptTokens < c.promptTokens {
      if r < lo {
        ScaleStrictly(r, lo, p);
      }
      if hi < r {
        ScaleStrictly(hi, r, p);
      }
    } else if hi < 1.0 {
      ScaleStrictly(hi, 1.0, p);
    }
  }

  lemma ScaleStrictly(a: real, b: real, p: real)
    requires a < b && p > 0.0
    ensures a * p < b * p
  {
  }

  /** Between whatever bounds the rates of c and of sensible days lie, their overall rate lies too. */
  ghost predicate StaysBetween(c: Counters)
  {
    forall list, lo, hi :: RatesWithin(c, list, lo, hi) ==> lo <= HitRate(Added(list + [c])) <= hi
  }

  ghost predicate RatesWithin(c: Counters, list: seq<Counters>, lo: real, hi: real)
  {
    lo <= HitRate(c) <= hi && forall d :: d in list ==> Sensible(d) && lo <= HitRate(d) <= hi
  }

  /** A nonnegative counter keeps every sum with sensible days between the rates if and only if it is sensible. */
  lemma SensibleIff(c: Counters)
    requires c.promptTokens >= 0 && c.cachedPromptTokens >= 0
    ensures StaysBetween(c) <==> Sensible(c)
  {
    if Sensible(c) {
      forall list, lo, hi | RatesWithin(c, list, lo, hi) ensures lo <= HitRate(Added(list + [c])) <= hi {
        OverallRateIsBetween(list + [c], lo, hi);
      }
    } else {
      var day := Counters(0, 1, 0, 0, 0, 0);
      assert RatesWithin(c, [day], 0.0, 0.0);
      AddedPair(day, c);
      assert HitRate(day.Plus(c)) == 1.0;
    }
  }

  lemma AddedPair(a: Counters, b: Counters)
    ensures Added([a] + [b]) == a.Plus(b)
  {
    assert ([a] + [b])[..1] == [a] && [a][..0] == [];
    assert Added([a]) == a;
  }

  /** Cached tokens on a day without prompt tokens lift the overall rate above every daily rate. */
  lemma CachedWithoutPrompts()
    ensures var first, second := Counters(1, 0, 5, 0, 0, 0), Counters(1, 10, 1, 0, 0, 0);
            HitRate(first) == 0.0 && HitRate(second) == 0.1 && HitRate(first.Plus(second)) == 0.6
  {
  }
}
