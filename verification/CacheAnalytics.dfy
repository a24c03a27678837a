/** The cache report: rows of usage grouped by day and by source, and split at a date. */
module CacheAnalytics {
  import opened Wrappers
  import opened Text
  import opened Sorting
  import opened Analytics

  // ----- the order of texts -----

  /** Character by character; a text comes after its own beginnings. */
  predicate AtMost(s: string, t: string)
  {
    s == "" || (t != "" && (s[0] < t[0] || (s[0] == t[0] && AtMost(s[1..], t[1..]))))
  }

  lemma {:induction false} AtMostTotal(s: string, t: string)
    ensures AtMost(s, t) || AtMost(t, s)
    ensures AtMost(s, t) && AtMost(t, s) ==> s == t
  {
    if s != "" && t != "" {
      AtMostTotal(s[1..], t[1..]);
      assert s == [s[0]] + s[1..] && t == [t[0]] + t[1..];
    }
  }

  lemma {:induction false} AtMostTransitive(s: string, t: string, u: string)
    requires AtMost(s, t) && AtMost(t, u)
    ensures AtMost(s, u)
  {
    if s != "" && s[0] == t[0] == u[0] {
      AtMostTransitive(s[1..], t[1..], u[1..]);
    }
  }

  /** The one text is a beginning of the other, or has the smaller character where they first differ. */
  ghost predicate ComesFirst(s: string, t: string)
  {
    s < t || exists i :: DifferAt(s, t, i) && s[i] < t[i]
  }

  /** The first place where two texts differ. */
  ghost predicate DifferAt(s: string, t: string, i: int)
  {
    0 <= i < |s| && i < |t| && s[..i] == t[..i] && s[i] != t[i]
  }

  lemma SameHead(s: string, t: string, i: int)
    requires DifferAt(s, t, i)
    ensures i == 0 || s[0] == t[0]
  {
    if i > 0 {
      assert s[..i][0] == s[0] && t[..i][0] == t[0];
    }
  }

  /** Of two different texts, the one that comes first is at most the other. */
  lemma {:induction false} AtMostIff(s: string, t: string)
    requires s != t
    ensures AtMost(s, t) <==> ComesFirst(s, t)
  {
    if s != "" && t != "" {
      assert s == [s[0]] + s[1..] && t == [t[0]] + t[1..];
      if s[0] == t[0] {
        AtMostIff(s[1..], t[1..]);
        TailsComeFirst(s, t);
      } else {
        assert DifferAt(s, t, 0);
        forall i | DifferAt(s, t, i) ensures i == 0 || s[0] == t[0] {
          SameHead(s, t, i);
        }
      }
    }
  }

  lemma TailsComeFirst(s: string, t: string)
    requires s != "" && t != "" && s[0] == t[0]
    ensures ComesFirst(s, t) <==> ComesFirst(s[1..], t[1..])
  {
    var s', t' := s[1..], t[1..];
    assert s == [s[0]] + s' && t == [t[0]] + t';
    forall i ensures DifferAt(s', t', i) <==> i >= 0 && DifferAt(s, t, i + 1) {
      if 0 <= i < |s'| && i < |t'| {
        assert s[..i+1] == [s[0]] + s'[..i] && t[..i+1] == [t[0]] + t'[..i];
        assert s[..i+1][1..] == s'[..i] && t[..i+1][1..] == t'[..i];
      }
    }
    if i :| DifferAt(s, t, i) && s[i] < t[i] {
      assert DifferAt(s', t', i - 1);
    }
    assert s < t <==> s' < t';
  }

  /** Of two dates of the same length, the first has the smaller character where they first differ. */
  lemma SameLengthComesFirst(s: string, t: string)
    requires |s| == |t|
    ensures ComesFirst(s, t) <==> exists i :: 0 <= i < |s| && s[..i] == t[..i] && s[i] < t[i]
  {
    if i :| 0 <= i < |s| && s[..i] == t[..i] && s[i] < t[i] {
      assert DifferAt(s, t, i);
    }
  }

  // ----- the report -----

  datatype Day = Day(day: string, counters: Counters, hitRate: real)

  datatype Source = Source(modelName: string, channelId: int, requestFormat: string, channelName: string)

  datatype Breakdown = Breakdown(source: Source, counters: Counters, hitRate: real)

  datatype Part = Part(counters: Counters, hitRate: real)

  datatype Report = Report(summary: Part, timeseries: seq<Day>, breakdown: seq<Breakdown>, before: Part, after: Part)

  function DayOf(row: Row): string
  {
    row.day
  }

  function SourceOf(row: Row): Source
  {
    Source(row.modelName, row.channelId,
           if TrimSpace(row.requestFormat) == "" then "unknown" else row.requestFormat, row.channelName)
  }

  function SourceKey(l: Source): string
  {
    l.modelName + "|" + (Decimal(l.channelId) + "|" + l.requestFormat)
  }

  function BreakdownKey(row: Row): string
  {
    SourceKey(SourceOf(row))
  }

  /** The key tells models, channels and formats apart unless a format holds the separator. */
  lemma SourceKeyInjective(a: Source, b: Source)
    requires SourceKey(a) == SourceKey(b) && '|' !in a.requestFormat && '|' !in b.requestFormat
    ensures a.modelName == b.modelName && a.channelId == b.channelId && a.requestFormat == b.requestFormat
  {
    var da, db := a.modelName + "|" + Decimal(a.channelId), b.modelName + "|" + Decimal(b.channelId);
    assert SourceKey(a) == da + ['|'] + a.requestFormat && SourceKey(b) == db + ['|'] + b.requestFormat;
    LastFieldUnique(da, db, '|', a.requestFormat, b.requestFormat);
    LastFieldUnique(a.modelName, b.modelName, '|', Decimal(a.channelId), Decimal(b.channelId));
    DecimalInjective(a.channelId, b.channelId);
  }

  /** The text is a channel id, or ends in one after a separator. */
  ghost predicate EndsInId(z: string)
  {
    exists id: int :: EndsIn(z, Decimal(id))
  }

  predicate EndsIn(z: string, id: string)
  {
    z == id || (|z| > |id| && z[|z|-|id|-1..] == "|" + id)
  }

  /** The longer format consists of such a text, a separator and the shorter format. */
  ghost predicate RunsInto(f: string, f': string)
  {
    exists z :: f == z + "|" + f' && EndsInId(z)
  }

  ghost predicate SameSource(a: Source, b: Source)
  {
    a.modelName == b.modelName && a.channelId == b.channelId && a.requestFormat == b.requestFormat
  }

  /** Two different sources with these formats and one key. */
  ghost predicate Collide(f: string, f': string)
  {
    exists a: Source, b: Source ::
      a.requestFormat == f && b.requestFormat == f' && SourceKey(a) == SourceKey(b) && !SameSource(a, b)
  }

  /** The part of the key before the format. */
  function Front(s: Source): string
  {
    s.modelName + "|" + Decimal(s.channelId)
  }

  lemma KeyByFront(s: Source)
    ensures SourceKey(s) == Front(s) + "|" + s.requestFormat
  {
  }

  lemma FrontInjective(a: Source, b: Source)
    requires Front(a) == Front(b)
    ensures a.modelName == b.modelName && a.channelId == b.channelId
  {
    LastFieldUnique(a.modelName, b.modelName, '|', Decimal(a.channelId), Decimal(b.channelId));
    DecimalInjective(a.channelId, b.channelId);
  }

  lemma CutTail(front: string, bar: string, f: string, front': string, f': string) returns (z: string)
    requires front + bar + f == front' + bar + f' && |f| >= |f'| + |bar|
    ensures f == z + bar + f' && front + bar + z == front'
  {
    var whole, tail := front + bar + f, bar + f';
    z := f[..|f|-|tail|];
    assert whole == front' + tail;
    assert whole[|whole|-|tail|..] == tail && whole[..|whole|-|tail|] == front';
    assert f[|f|-|tail|..] == whole[|whole|-|tail|..];
    assert f == z + tail;
    assert whole[..|whole|-|tail|] == front + bar + z;
  }

  /** Of two sources with one key the longer format runs into the shorter one. */
  lemma CollisionRunsInto(a: Source, b: Source)
    requires SourceKey(a) == SourceKey(b) && |a.requestFormat| > |b.requestFormat|
    ensures RunsInto(a.requestFormat, b.requestFormat)
  {
    KeyByFront(a);
    KeyByFront(b);
    var z := CutTail(Front(a), "|", a.requestFormat, Front(b), b.requestFormat);
    FrontEndsInId(Front(a), z, b);
  }

  lemma FrontEndsInId(front: string, z: string, b: Source)
    requires front + "|" + z == Front(b)
    ensures EndsInId(z)
  {
    var id := Decimal(b.channelId);
    assert (b.modelName + "|" + id)[|b.modelName|] == '|';
    if |z| > |id| {
      var n := |z| - |id| - 1;
      var whole := front + "|" + z;
      assert whole[|whole|-|id|..] == id && z[n+1..] == id;
      assert z[n] == whole[|b.modelName|] == '|';
      assert z[n..] == "|" + id;
      assert EndsIn(z, id);
    } else {
      LastFieldUnique(front, b.modelName, '|', z, id) by {
        ShortTail(front, z, b.modelName, id);
      }
      assert EndsIn(z, id);
    }
  }

  lemma ShortTail(front: string, z: string, model: string, id: string)
    requires front + "|" + z == model + "|" + id && |z| <= |id| && '|' !in id
    ensures '|' !in z
  {
    var whole := front + "|" + z;
    forall i | 0 <= i < |z| ensures z[i] != '|' {
      assert z[i] == whole[|whole|-|z|+i] == id[|id|-|z|+i];
    }
  }

  /** A front that continues another one past a separator. */
  lemma ContinuedFront(front: string, z: string) returns (model: string, id: int)
    requires EndsInId(z)
    ensures model + "|" + Decimal(id) == front + "|" + z
  {
    id :| EndsIn(z, Decimal(id));
    model := Continue(front, "|", z, Decimal(id));
  }

  lemma Continue(front: string, bar: string, z: string, tail: string) returns (model: string)
    requires z == tail || (|z| >= |bar| + |tail| && z[|z|-|tail|-|bar|..] == bar + tail)
    ensures model + bar + tail == front + bar + z
  {
    if z == tail {
      model := front;
    } else {
      var middle := z[..|z|-|tail|-|bar|];
      model := front + bar + middle;
      assert z == middle + (bar + tail);
      assert model + bar + tail == front + bar + (middle + (bar + tail));
    }
  }

  lemma CollideBy(a: Source, b: Source)
    requires SourceKey(a) == SourceKey(b) && !SameSource(a, b)
    ensures Collide(a.requestFormat, b.requestFormat) && Collide(b.requestFormat, a.requestFormat)
  {
    assert !SameSource(b, a);
  }

  lemma SameKey(a: Source, b: Source, z: string)
    requires Front(b) == Front(a) + "|" + z && a.requestFormat == z + "|" + b.requestFormat
    ensures SourceKey(a) == SourceKey(b) && !SameSource(a, b)
  {
    KeyByFront(a);
    KeyByFront(b);
    assert Front(a) + "|" + (z + "|" + b.requestFormat) == Front(a) + "|" + z + "|" + b.requestFormat;
    assert |a.requestFormat| > |b.requestFormat|;
  }

  /** ... and any two formats of which one runs into the other belong to two such sources. */
  lemma RunsIntoCollides(f: string, f': string)
    requires RunsInto(f, f')
    ensures Collide(f, f') && Collide(f', f)
  {
    var z :| f == z + "|" + f' && EndsInId(z);
    var a := Source("m", 0, f, "");
    var model, id := ContinuedFront(Front(a), z);
    var b := Source(model, id, f', "");
    SameKey(a, b, z);
    CollideBy(a, b);
  }

  /** Sources with these formats can share a key if and only if one format runs into the other. */
  lemma SourceKeysCollideIff(f: string, f': string)
    ensures Collide(f, f') <==> RunsInto(f, f') || RunsInto(f', f)
  {
    if RunsInto(f, f') {
      RunsIntoCollides(f, f');
    } else if RunsInto(f', f) {
      RunsIntoCollides(f', f);
    } else {
      forall a: Source, b: Source | a.requestFormat == f && b.requestFormat == f' && SourceKey(a) == SourceKey(b)
        ensures SameSource(a, b)
      {
        if |f| > |f'| {
          CollisionRunsInto(a, b);
        } else if |f| < |f'| {
          CollisionRunsInto(b, a);
        } else {
          SameLengthSame(a, b);
        }
      }
    }
  }

  lemma SameLengthSame(a: Source, b: Source)
    requires SourceKey(a) == SourceKey(b) && |a.requestFormat| == |b.requestFormat|
    ensures SameSource(a, b)
  {
    KeyByFront(a);
    KeyByFront(b);
    var key, n := SourceKey(a), |a.requestFormat|;
    assert key[|key|-n..] == a.requestFormat && key[|key|-n..] == b.requestFormat;
    assert key[..|key|-n-1] == Front(a) && key[..|key|-n-1] == Front(b);
    FrontInjective(a, b);
  }

  /** Two sources with one key, for formats that the program never writes. */
  lemma SourceKeysCollide()
    ensures SourceKey(Source("m", 1, "2|chat", "")) == SourceKey(Source("m|1", 2, "chat", ""))
  {
    assert DecimalNat(1) == "1" && DecimalNat(2) == "2";
  }

  // ----- lists of groups -----

  ghost predicate EntryAt<Key, Entry>(list: seq<Entry>, keyOf: Entry -> Key, i: int, key: Key)
  {
    0 <= i < |list| && keyOf(list[i]) == key
  }

  ghost predicate HasEntry<Key, Entry>(keyOf: Entry -> Key, list: seq<Entry>, key: Key)
  {
    exists i :: EntryAt(list, keyOf, i, key)
  }

  /** One entry for each group, with the group's counters. */
  ghost predicate Listed<Key, Entry>(groups: map<Key, Counters>, keyOf: Entry -> Key, countersOf: Entry -> Counters,
                                     list: seq<Entry>)
  {
    && (forall i :: 0 <= i < |list| ==> keyOf(list[i]) in groups && countersOf(list[i]) == groups[keyOf(list[i])])
    && (forall key :: key in groups ==> HasEntry(keyOf, list, key))
    && DistinctKeys(keyOf, list)
  }

  ghost predicate DistinctKeys<Key, Entry>(keyOf: Entry -> Key, list: seq<Entry>)
  {
    forall i, j :: 0 <= i < j < |list| ==> keyOf(list[i]) != keyOf(list[j])
  }

  lemma {:induction false} CountOfDistinct<T>(list: seq<T>, x: T)
    requires Distinct(list)
    ensures multiset(list)[x] <= 1
  {
    if list != [] {
      var last := |list| - 1;
      CountOfDistinct(list[..last], x);
      assert list == list[..last] + [list[last]];
      if list[last] == x {
        assert x !in list[..last];
        assert x !in multiset(list[..last]);
      }
    }
  }

  lemma CountOfRepeated<T>(list: seq<T>, i: nat, j: nat)
    requires i < j < |list| && list[i] == list[j]
    ensures multiset(list)[list[i]] >= 2
  {
    assert list == list[..j] + [list[j]] + list[j+1..];
    assert list[i] == list[..j][i];
    assert list[i] in multiset(list[..j]);
  }

  lemma PermutedKeys<Key, Entry>(keyOf: Entry -> Key, a: seq<Entry>, b: seq<Entry>)
    requires DistinctKeys(keyOf, a) && multiset(a) == multiset(b)
    ensures DistinctKeys(keyOf, b)
  {
    forall i, j | 0 <= i < j < |b| ensures keyOf(b[i]) != keyOf(b[j]) {
      if keyOf(b[i]) == keyOf(b[j]) {
        SameKeySameEntry(keyOf, a, b, b[i], b[j]);
        CountOfRepeated(b, i, j);
        CountOfDistinct(a, b[i]);
      }
    }
  }

  lemma SameKeySameEntry<Key, Entry>(keyOf: Entry -> Key, a: seq<Entry>, b: seq<Entry>, x: Entry, y: Entry)
    requires DistinctKeys(keyOf, a) && multiset(a) == multiset(b) && x in b && y in b && keyOf(x) == keyOf(y)
    ensures x == y
  {
    assert x in multiset(b) && y in multiset(b);
    assert x in a && y in a;
  }

  /** Sorting keeps the entries. */
  lemma ListedPermutes<Key, Entry>(groups: map<Key, Counters>, keyOf: Entry -> Key, countersOf: Entry -> Counters,
                                   a: seq<Entry>, b: seq<Entry>)
    requires Listed(groups, keyOf, countersOf, a) && multiset(a) == multiset(b)
    ensures Listed(groups, keyOf, countersOf, b)
  {
    PermutedKeys(keyOf, a, b);
    forall i | 0 <= i < |b| ensures keyOf(b[i]) in groups && countersOf(b[i]) == groups[keyOf(b[i])] {
      assert b[i] in multiset(b);
      assert b[i] in a;
    }
    forall key | key in groups ensures HasEntry(keyOf, b, key) {
      var i :| EntryAt(a, keyOf, i, key);
      assert a[i] in multiset(a);
      assert a[i] in b;
      var j :| 0 <= j < |b| && b[j] == a[i];
      assert EntryAt(b, keyOf, j, key);
    }
  }

  ghost function Mapped<A, B>(f: A -> B, list: seq<A>): (r: seq<B>)
    ensures |r| == |list| && forall i :: 0 <= i < |list| ==> r[i] == f(list[i])
  {
    seq(|list|, i requires 0 <= i < |list| => f(list[i]))
  }

  /** The list has one entry for each group of the rows, and no other, with the group's total. */
  ghost predicate ListsGroups<Key, Entry>(rows: seq<Row>, rowKey: Grouping<Key>, keyOf: Entry -> Key,
                                          countersOf: Entry -> Counters, list: seq<Entry>)
  {
    && DistinctKeys(keyOf, list)
    && (forall key :: key in KeysIn(rows, rowKey) ==> HasEntry(keyOf, list, key))
    && (forall i :: 0 <= i < |list| ==> EntryHolds(rows, rowKey, keyOf(list[i]), countersOf(list[i])))
  }

  ghost predicate EntryHolds<Key>(rows: seq<Row>, rowKey: Grouping<Key>, key: Key, c: Counters)
  {
    key in KeysIn(rows, rowKey) && c == Total(rows, rowKey, key)
  }

  lemma ListedLists<Key, Entry>(rows: seq<Row>, rowKey: Grouping<Key>, groups: map<Key, Counters>,
                                keyOf: Entry -> Key, countersOf: Entry -> Counters, list: seq<Entry>)
    requires Grouped(rows, rowKey, groups) && Listed(groups, keyOf, countersOf, list)
    ensures ListsGroups(rows, rowKey, keyOf, countersOf, list)
  {
  }

  /** The entries of the list add up to the sum of all rows. */
  lemma EntriesAddUp<Key, Entry>(rows: seq<Row>, rowKey: Grouping<Key>, keyOf: Entry -> Key,
                                 countersOf: Entry -> Counters, list: seq<Entry>)
    requires ListsGroups(rows, rowKey, keyOf, countersOf, list)
    ensures Added(Mapped(countersOf, list)) == Sum(rows)
  {
    var keys, counters := Mapped(keyOf, list), Mapped(countersOf, list);
    assert DistinctKeys(keyOf, list);
    forall key | key in KeysIn(rows, rowKey) ensures key in keys {
      assert HasEntry(keyOf, list, key);
      var i :| EntryAt(list, keyOf, i, key);
      assert keys[i] == key;
    }
    forall i | 0 <= i < |keys| ensures counters[i] == Total(rows, rowKey, keys[i]) {
      assert EntryHolds(rows, rowKey, keyOf(list[i]), countersOf(list[i]));
    }
    GroupsAddUp(rows, rowKey, keys, counters);
  }

  /** The entries for the groups not left. */
  ghost predicate ListedUpTo<Key, Entry>(groups: map<Key, Counters>, left: set<Key>, keyOf: Entry -> Key,
                                         countersOf: Entry -> Counters, list: seq<Entry>)
  {
    left <= groups.Keys && Listed(groups - left, keyOf, countersOf, list)
  }

  lemma ListedOneMore<Key, Entry>(groups: map<Key, Counters>, left: set<Key>, keyOf: Entry -> Key,
                                  countersOf: Entry -> Counters, list: seq<Entry>, key: Key, e: Entry)
    requires ListedUpTo(groups, left, keyOf, countersOf, list)
    requires key in left && keyOf(e) == key && countersOf(e) == groups[key]
    ensures ListedUpTo(groups, left - {key}, keyOf, countersOf, list + [e])
  {
    var before, after, more := groups - left, groups - (left - {key}), list + [e];
    forall other | other in after ensures HasEntry(keyOf, more, other) {
      if other == key {
        assert EntryAt(more, keyOf, |list|, other);
      } else {
        assert other in before;
        var i :| EntryAt(list, keyOf, i, other);
        assert EntryAt(more, keyOf, i, other);
      }
    }
  }

  // ----- the loop over the rows -----

  function DayKey(e: Day): string
  {
    e.day
  }

  function DayCounters(e: Day): Counters
  {
    e.counters
  }

  function EntryKey(e: Breakdown): string
  {
    SourceKey(e.source)
  }

  function EntryCounters(e: Breakdown): Counters
  {
    e.counters
  }

  function CountersBySource<Key>(m: map<Key, Breakdown>): map<Key, Counters>
  {
    map key | key in m :: m[key].counters
  }

  /** The source named by the first row of a group. */
  ghost function FirstSource<Key>(rows: seq<Row>, keyOf: Grouping<Key>, key: Key): Option<Source>
  {
    if rows == [] then None
    else
      var first := FirstSource(rows[..|rows|-1], keyOf, key);
      if first.None? && keyOf(rows[|rows|-1]) == key then Some(SourceOf(rows[|rows|-1])) else first
  }

  ghost predicate AllNamed<Key>(rows: seq<Row>, keyOf: Grouping<Key>, m: map<Key, Breakdown>)
  {
    forall key :: key in m ==> FirstSource(rows, keyOf, key) == Some(m[key].source)
  }

  lemma {:induction false} FirstSourceOfNone<Key>(rows: seq<Row>, keyOf: Grouping<Key>, key: Key)
    requires key !in KeysIn(rows, keyOf)
    ensures FirstSource(rows, keyOf, key) == None
  {
    if rows != [] {
      FirstSourceOfNone(rows[..|rows|-1], keyOf, key);
    }
  }

  /** It names what the first row of the group names, an unnamed format as unknown. */
  lemma {:induction false} FirstSourceIs<Key>(rows: seq<Row>, keyOf: Grouping<Key>, key: Key) returns (k: nat)
    requires FirstSource(rows, keyOf, key).Some?
    ensures k < |rows| && keyOf(rows[k]) == key && forall j :: 0 <= j < k ==> keyOf(rows[j]) != key
    ensures var s, row := FirstSource(rows, keyOf, key).value, rows[k];
            && s.modelName == row.modelName && s.channelId == row.channelId && s.channelName == row.channelName
            && (TrimSpace(row.requestFormat) == "" ==> s.requestFormat == "unknown")
            && (TrimSpace(row.requestFormat) != "" ==> s.requestFormat == row.requestFormat)
  {
    var n := |rows| - 1;
    if FirstSource(rows[..n], keyOf, key).Some? {
      k := FirstSourceIs(rows[..n], keyOf, key);
    } else {
      k := n;
      forall j | 0 <= j < n ensures keyOf(rows[j]) != key {
        NoFirstSource(rows[..n], keyOf, key, j);
      }
    }
  }

  lemma {:induction false} NoFirstSource<Key>(rows: seq<Row>, keyOf: Grouping<Key>, key: Key, j: nat)
    requires FirstSource(rows, keyOf, key).None? && j < |rows|
    ensures keyOf(rows[j]) != key
  {
    if j < |rows| - 1 {
      NoFirstSource(rows[..|rows|-1], keyOf, key, j);
    }
  }

  lemma FirstSourceOneMore<Key>(rows: seq<Row>, keyOf: Grouping<Key>, row: Row, key: Key)
    ensures var first := FirstSource(rows, keyOf, key);
            FirstSource(rows + [row], keyOf, key)
              == if first.None? && keyOf(row) == key then Some(SourceOf(row)) else first
  {
    assert (rows + [row])[..|rows|] == rows;
  }

  lemma NamedOneMore<Key>(rows: seq<Row>, keyOf: Grouping<Key>, row: Row, m: map<Key, Breakdown>, e: Breakdown)
    requires m.Keys == KeysIn(rows, keyOf) && AllNamed(rows, keyOf, m)
    requires e.source == if keyOf(row) in m then m[keyOf(row)].source else SourceOf(row)
    ensures AllNamed(rows + [row], keyOf, m[keyOf(row) := e])
  {
    var after := m[keyOf(row) := e];
    forall key | key in after ensures FirstSource(rows + [row], keyOf, key) == Some(after[key].source) {
      FirstSourceOneMore(rows, keyOf, row, key);
      if key !in m {
        FirstSourceOfNone(rows, keyOf, key);
      }
    }
  }

  lemma BreakdownOneMore<Key>(rows: seq<Row>, keyOf: Grouping<Key>, row: Row, m: map<Key, Breakdown>, e: Breakdown)
    requires Grouped(rows, keyOf, CountersBySource(m))
    requires e.counters == (if keyOf(row) in m then m[keyOf(row)].counters else ZERO).Plus(row.counters)
    ensures Grouped(rows + [row], keyOf, CountersBySource(m[keyOf(row) := e]))
  {
    GroupedOneMore(rows, row, keyOf, CountersBySource(m));
    assert CountersBySource(m[keyOf(row) := e]) == CountersBySource(m)[keyOf(row) := e.counters];
  }

  /** On which side of the compared date a row lies. */
  ghost function Before(compareDate: string): Grouping<bool>
  {
    (row: Row) => ComesFirst(row.day, compareDate)
  }

  lemma BeforeIff(compareDate: string, day: string)
    ensures ComesFirst(day, compareDate) <==> !AtMost(compareDate, day)
  {
    AtMostTotal(day, compareDate);
    if day != compareDate {
      AtMostIff(day, compareDate);
    }
  }

  /** The two parts of the comparison; nothing is compared without a date. */
  ghost predicate Compared(rows: seq<Row>, compareDate: string, before: Counters, after: Counters)
  {
    if compareDate == "" then before == ZERO && after == ZERO
    else before == Total(rows, Before(compareDate), true) && after == Total(rows, Before(compareDate), false)
  }

  lemma ComparedOneMore(rows: seq<Row>, row: Row, compareDate: string, before: Counters, after: Counters)
    requires Compared(rows, compareDate, before, after)
    ensures if compareDate == "" then Compared(rows + [row], compareDate, before, after)
            else if !AtMost(compareDate, row.day) then
              Compared(rows + [row], compareDate, before.Plus(row.counters), after)
            else Compared(rows + [row], compareDate, before, after.Plus(row.counters))
  {
    BeforeIff(compareDate, row.day);
    TotalOneMore(rows, row, Before(compareDate), true);
    TotalOneMore(rows, row, Before(compareDate), false);
  }

  /** The loop, for any way of making keys from sources. */
  method Aggregate<Key(==)>(rows: seq<Row>, compareDate: string, keyOf: Grouping<Key>)
      returns (total: Counters, dayMap: map<string, Counters>, breakdownMap: map<Key, Breakdown>,
               before: Counters, after: Counters)
    ensures total == Sum(rows) && Compared(rows, compareDate, before, after)
    ensures Grouped(rows, DayOf, dayMap)
    ensures Grouped(rows, keyOf, CountersBySource(breakdownMap)) && AllNamed(rows, keyOf, breakdownMap)
  {
    total, before, after := ZERO, ZERO, ZERO;
    dayMap, breakdownMap := map[], map[];
    for i := 0 to |rows|
      invariant total == Sum(rows[..i]) && Compared(rows[..i], compareDate, before, after)
      invariant Grouped(rows[..i], DayOf, dayMap)
      invariant Grouped(rows[..i], keyOf, CountersBySource(breakdownMap)) && AllNamed(rows[..i], keyOf, breakdownMap)
    {
      var row := rows[i];
      assert rows[..i+1] == rows[..i] + [row];
      SumOneMore(rows[..i], row);
      total := total.Plus(row.counters);

      GroupedOneMore(rows[..i], row, DayOf, dayMap);
      var day := if row.day in dayMap then dayMap[row.day] else ZERO;
      dayMap := dayMap[row.day := day.Plus(row.counters)];

      var key := keyOf(row);
      var entry := if key in breakdownMap then breakdownMap[key] else Breakdown(SourceOf(row), ZERO, 0.0);
      entry := entry.(counters := entry.counters.Plus(row.counters));
      NamedOneMore(rows[..i], keyOf, row, breakdownMap, entry);
      BreakdownOneMore(rows[..i], keyOf, row, breakdownMap, entry);
      breakdownMap := breakdownMap[key := entry];

      ComparedOneMore(rows[..i], row, compareDate, before, after);
      if compareDate != "" {
        if !AtMost(compareDate, row.day) {
          before := before.Plus(row.counters);
        } else {
          after := after.Plus(row.counters);
        }
      }
    }
    assert rows[..|rows|] == rows;
  }

  // ----- the sorted lists -----

  predicate DayAtMost(a: Day, b: Day)
  {
    AtMost(a.day, b.day)
  }

  lemma DayAtMostOrders()
    ensures TotalPreorder(DayAtMost)
  {
    forall a: Day, b: Day ensures DayAtMost(a, b) || DayAtMost(b, a) {
      AtMostTotal(a.day, b.day);
    }
    forall a: Day, b: Day, c: Day | DayAtMost(a, b) && DayAtMost(b, c) ensures DayAtMost(a, c) {
      AtMostTransitive(a.day, b.day, c.day);
    }
  }

  /** The dearer first; then by model, channel and format. */
  predicate DearerFirst(a: Breakdown, b: Breakdown)
  {
    var s, t := a.source, b.source;
    if a.counters.quota != b.counters.quota then a.counters.quota > b.counters.quota
    else if s.modelName != t.modelName then AtMost(s.modelName, t.modelName)
    else if s.channelId != t.channelId then s.channelId < t.channelId
    else AtMost(s.requestFormat, t.requestFormat)
  }

  lemma DearerFirstOrders()
    ensures TotalPreorder(DearerFirst)
  {
    forall a: Breakdown, b: Breakdown ensures DearerFirst(a, b) || DearerFirst(b, a) {
      AtMostTotal(a.source.modelName, b.source.modelName);
      AtMostTotal(a.source.requestFormat, b.source.requestFormat);
    }
    forall a: Breakdown, b: Breakdown, c: Breakdown | DearerFirst(a, b) && DearerFirst(b, c) ensures DearerFirst(a, c) {
      DearerFirstTransitive(a, b, c);
    }
  }

  lemma DearerFirstTransitive(a: Breakdown, b: Breakdown, c: Breakdown)
    requires DearerFirst(a, b) && DearerFirst(b, c)
    ensures DearerFirst(a, c)
  {
    if a.counters.quota == b.counters.quota == c.counters.quota {
      if AtMost(a.source.modelName, b.source.modelName) && AtMost(b.source.modelName, c.source.modelName) {
        AtMostTransitive(a.source.modelName, b.source.modelName, c.source.modelName);
        AtMostTotal(a.source.modelName, b.source.modelName);
      }
      if && AtMost(a.source.requestFormat, b.source.requestFormat)
         && AtMost(b.source.requestFormat, c.source.requestFormat)
      {
        AtMostTransitive(a.source.requestFormat, b.source.requestFormat, c.source.requestFormat);
      }
    }
  }

  method ListDays(dayMap: map<string, Counters>) returns (series: seq<Day>)
    ensures Listed(dayMap, DayKey, DayCounters, series)
    ensures forall e :: e in series ==> e.hitRate == HitRate(e.counters)
  {
    series := [];
    var days := dayMap.Keys;
    while days != {}
      invariant ListedUpTo(dayMap, days, DayKey, DayCounters, series)
      invariant forall e :: e in series ==> e.hitRate == HitRate(e.counters)
      decreases |days|
    {
      var day :| day in days;
      var entry := Day(day, dayMap[day], HitRate(dayMap[day]));
      ListedOneMore(dayMap, days, DayKey, DayCounters, series, day, entry);
      series := series + [entry];
      days := days - {day};
    }
    assert dayMap - {} == dayMap;
  }

  method ListBreakdown<Key(==)>(breakdownMap: map<Key, Breakdown>, ghost keyOf: Breakdown -> Key)
      returns (list: seq<Breakdown>)
    requires forall key, rate :: key in breakdownMap ==> keyOf(breakdownMap[key].(hitRate := rate)) == key
    ensures Listed(CountersBySource(breakdownMap), keyOf, EntryCounters, list)
    ensures forall e :: e in list ==> e.hitRate == HitRate(e.counters)
    ensures forall e :: e in list ==> keyOf(e) in breakdownMap && e.source == breakdownMap[keyOf(e)].source
  {
    list := [];
    var keys := breakdownMap.Keys;
    while keys != {}
      invariant ListedUpTo(CountersBySource(breakdownMap), keys, keyOf, EntryCounters, list)
      invariant forall e :: e in list ==> e.hitRate == HitRate(e.counters)
      invariant forall e :: e in list ==> keyOf(e) in breakdownMap && e.source == breakdownMap[keyOf(e)].source
      decreases |keys|
    {
      var key :| key in keys;
      var entry := breakdownMap[key];
      entry := entry.(hitRate := HitRate(entry.counters));
      ListedOneMore(CountersBySource(breakdownMap), keys, keyOf, EntryCounters, list, key, entry);
      list := list + [entry];
      keys := keys - {key};
    }
    assert CountersBySource(breakdownMap) - {} == CountersBySource(breakdownMap);
  }

  /** What the report says of the rows. */
  ghost predicate Reports(rows: seq<Row>, r: Report)
  {
    && r.summary == Part(Sum(rows), HitRate(Sum(rows)))
    && ListsGroups(rows, DayOf, DayKey, DayCounters, r.timeseries)
    && ListsGroups(rows, BreakdownKey, EntryKey, EntryCounters, r.breakdown)
  }

  ghost predicate DaysIncrease(series: seq<Day>)
  {
    forall i, j :: 0 <= i < j < |series| ==> ComesFirst(series[i].day, series[j].day)
  }

  lemma SortedDaysIncrease(series: seq<Day>)
    requires SortedBy(series, DayAtMost) && DistinctKeys(DayKey, series)
    ensures DaysIncrease(series)
  {
    forall i, j | 0 <= i < j < |series| ensures ComesFirst(series[i].day, series[j].day) {
      assert DayAtMost(series[i], series[j]);
      assert DayKey(series[i]) != DayKey(series[j]);
      AtMostIff(series[i].day, series[j].day);
    }
  }

  ghost predicate RowOn(rows: seq<Row>, day: string)
  {
    exists k :: 0 <= k < |rows| && rows[k].day == day
  }

  ghost predicate EntryOn(series: seq<Day>, day: string)
  {
    exists i :: 0 <= i < |series| && series[i].day == day
  }

  /** The days of the series are exactly the days of the rows. */
  ghost predicate DaysOfRows(rows: seq<Row>, series: seq<Day>)
  {
    forall day :: RowOn(rows, day) <==> EntryOn(series, day)
  }

  lemma ListedDaysOfRows(rows: seq<Row>, series: seq<Day>)
    requires ListsGroups(rows, DayOf, DayKey, DayCounters, series)
    ensures DaysOfRows(rows, series)
  {
    forall day ensures RowOn(rows, day) <==> EntryOn(series, day) {
      KeysInIff(rows, DayOf, day);
      if k :| 0 <= k < |rows| && rows[k].day == day {
        assert InGroup(rows, DayOf, k, day);
        var i :| EntryAt(series, DayKey, i, day);
        assert series[i].day == day;
      }
      if i :| 0 <= i < |series| && series[i].day == day {
        assert EntryHolds(rows, DayOf, DayKey(series[i]), DayCounters(series[i]));
        var k :| InGroup(rows, DayOf, k, day);
        assert rows[k].day == day;
      }
    }
  }

  /** Quota does not increase along the list; entries of equal quota come by model, channel and format. */
  ghost predicate DearestFirst(list: seq<Breakdown>)
  {
    forall i, j :: 0 <= i < j < |list| ==>
      var s, t := list[i].source, list[j].source;
      && list[i].counters.quota >= list[j].counters.quota
      && (list[i].counters.quota == list[j].counters.quota ==>
            || ComesFirst(s.modelName, t.modelName)
            || (s.modelName == t.modelName
                && (|| s.channelId < t.channelId
                    || (s.channelId == t.channelId
                        && (s.requestFormat == t.requestFormat || ComesFirst(s.requestFormat, t.requestFormat))))))
  }

  lemma SortedDearestFirst(list: seq<Breakdown>)
    requires SortedBy(list, DearerFirst)
    ensures DearestFirst(list)
  {
    forall i, j | 0 <= i < j < |list|
      ensures var s, t := list[i].source, list[j].source;
              && (s.modelName != t.modelName ==>
                   (AtMost(s.modelName, t.modelName) <==> ComesFirst(s.modelName, t.modelName)))
              && (s.requestFormat != t.requestFormat ==>
                   (AtMost(s.requestFormat, t.requestFormat) <==> ComesFirst(s.requestFormat, t.requestFormat)))
              && DearerFirst(list[i], list[j])
    {
      var s, t := list[i].source, list[j].source;
      if s.modelName != t.modelName {
        AtMostIff(s.modelName, t.modelName);
      }
      if s.requestFormat != t.requestFormat {
        AtMostIff(s.requestFormat, t.requestFormat);
      }
    }
  }

  method MakeTimeseries(ghost rows: seq<Row>, dayMap: map<string, Counters>) returns (series: seq<Day>)
    requires Grouped(rows, DayOf, dayMap)
    ensures ListsGroups(rows, DayOf, DayKey, DayCounters, series) && DaysOfRows(rows, series) && DaysIncrease(series)
    ensures forall e :: e in series ==> e.hitRate == HitRate(e.counters)
  {
    var days := ListDays(dayMap);
    DayAtMostOrders();
    series := Sort(days, DayAtMost);
    ListedPermutes(dayMap, DayKey, DayCounters, days, series);
    ListedLists(rows, DayOf, dayMap, DayKey, DayCounters, series);
    SortedDaysIncrease(series);
    ListedDaysOfRows(rows, series);
  }

  /** Every entry of the map is found under the key made from its source. */
  lemma {:induction false} FirstSourceKey(rows: seq<Row>, key: string)
    ensures var first := FirstSource(rows, BreakdownKey, key); first.Some? ==> SourceKey(first.value) == key
  {
    if rows != [] {
      FirstSourceKey(rows[..|rows|-1], key);
    }
  }

  method MakeBreakdown(ghost rows: seq<Row>, breakdownMap: map<string, Breakdown>) returns (list: seq<Breakdown>)
    requires Grouped(rows, BreakdownKey, CountersBySource(breakdownMap)) && AllNamed(rows, BreakdownKey, breakdownMap)
    ensures ListsGroups(rows, BreakdownKey, EntryKey, EntryCounters, list) && DearestFirst(list)
    ensures forall e :: e in list ==>
              e.hitRate == HitRate(e.counters) && FirstSource(rows, BreakdownKey, EntryKey(e)) == Some(e.source)
  {
    forall key, rate | key in breakdownMap ensures EntryKey(breakdownMap[key].(hitRate := rate)) == key {
      FirstSourceKey(rows, key);
    }
    var entries := ListBreakdown(breakdownMap, EntryKey);
    DearerFirstOrders();
    list := Sort(entries, DearerFirst);
    ListedPermutes(CountersBySource(breakdownMap), EntryKey, EntryCounters, entries, list);
    ListedLists(rows, BreakdownKey, CountersBySource(breakdownMap), EntryKey, EntryCounters, list);
    SortedDearestFirst(list);
  }

  /** The report on the rows: each part adds up to the summary. */
  method GetUserCacheAnalytics(rows: seq<Row>, compareDate: string) returns (r: Report)
    ensures Reports(rows, r) && DaysOfRows(rows, r.timeseries) && DaysIncrease(r.timeseries)
    ensures DearestFirst(r.breakdown)
    ensures Compared(rows, compareDate, r.before.counters, r.after.counters)
    ensures r.before.hitRate == HitRate(r.before.counters) && r.after.hitRate == HitRate(r.after.counters)
    ensures forall e :: e in r.timeseries ==> e.hitRate == HitRate(e.counters)
    ensures forall e :: e in r.breakdown ==>
              e.hitRate == HitRate(e.counters) && FirstSource(rows, BreakdownKey, EntryKey(e)) == Some(e.source)
  {
    var total, dayMap, breakdownMap, before, after := Aggregate(rows, compareDate, BreakdownKey);
    var timeseries := MakeTimeseries(rows, dayMap);
    var breakdown := MakeBreakdown(rows, breakdownMap);
    r := Report(Part(total, HitRate(total)), timeseries, breakdown,
                Part(before, HitRate(before)), Part(after, HitRate(after)));
  }

  // ----- what a reader of the report may add up -----

  lemma ReportAddsUp(rows: seq<Row>, r: Report)
    requires Reports(rows, r)
    ensures Added(Mapped(DayCounters, r.timeseries)) == r.summary.counters
    ensures Added(Mapped(EntryCounters, r.breakdown)) == r.summary.counters
  {
    EntriesAddUp(rows, DayOf, DayKey, DayCounters, r.timeseries);
    EntriesAddUp(rows, BreakdownKey, EntryKey, EntryCounters, r.breakdown);
  }

  lemma ComparedAddsUp(rows: seq<Row>, compareDate: string, before: Counters, after: Counters)
    requires compareDate != "" && Compared(rows, compareDate, before, after)
    ensures before.Plus(after) == Sum(rows)
  {
    TwoSidesAddUp(rows, Before(compareDate), true, false);
  }

  lemma ListedRateIsBetween<Entry>(countersOf: Entry -> Counters, list: seq<Entry>, lo: real, hi: real)
    requires list != []
    requires forall i :: 0 <= i < |list| ==> Sensible(countersOf(list[i])) && lo <= HitRate(countersOf(list[i])) <= hi
    ensures lo <= HitRate(Added(Mapped(countersOf, list))) <= hi
  {
    OverallRateIsBetween(Mapped(countersOf, list), lo, hi);
  }

  /** With sensible counts the overall hit rate lies between the daily ones. */
  lemma SummaryRateIsBetween(rows: seq<Row>, r: Report, lo: real, hi: real)
    requires Reports(rows, r) && rows != []
    requires forall e :: e in r.timeseries ==> Sensible(e.counters) && lo <= HitRate(e.counters) <= hi
    ensures lo <= r.summary.hitRate <= hi
  {
    TimeseriesRateIsBetween(rows, r.timeseries, lo, hi);
  }

  lemma TimeseriesRateIsBetween(rows: seq<Row>, series: seq<Day>, lo: real, hi: real)
    requires ListsGroups(rows, DayOf, DayKey, DayCounters, series) && rows != []
    requires forall e :: e in series ==> Sensible(e.counters) && lo <= HitRate(e.counters) <= hi
    ensures lo <= HitRate(Sum(rows)) <= hi
  {
    EntriesAddUp(rows, DayOf, DayKey, DayCounters, series);
    SomeDay(rows, series);
    ListedRateIsBetween(DayCounters, series, lo, hi);
  }

  lemma SomeDay(rows: seq<Row>, series: seq<Day>)
    requires rows != [] && ListsGroups(rows, DayOf, DayKey, DayCounters, series)
    ensures series != []
  {
    assert HasEntry(DayKey, series, DayOf(rows[|rows|-1]));
  }

  /** An entry sums exactly the rows of its model, channel and format when its format runs into no other of the rows
      and none of them into it. */
  lemma {:induction false} EntrySumsItsSource(rows: seq<Row>, source: Source)
    requires forall k :: 0 <= k < |rows| ==> FormatsApart(SourceOf(rows[k]).requestFormat, source.requestFormat)
    ensures Total(rows, BreakdownKey, SourceKey(source))
         == Total(rows, Triple, (source.modelName, source.channelId, source.requestFormat))
  {
    if rows != [] {
      var last := rows[|rows|-1];
      EntrySumsItsSource(rows[..|rows|-1], source);
      if SourceKey(SourceOf(last)) == SourceKey(source) {
        ApartKeys(SourceOf(last), source);
      }
    }
  }

  /** The formats the program writes; an empty one is read as unknown. */
  predicate Written(f: string)
  {
    || f == "chat_completions" || f == "response_api" || f == "claude_messages" || f == "realtime"
    || TrimSpace(f) == ""
  }

  lemma WrittenHasNoSeparator(row: Row)
    requires Written(row.requestFormat)
    ensures '|' !in SourceOf(row).requestFormat
  {
    if TrimSpace(row.requestFormat) != "" {
      NamedHasNoSeparator(row.requestFormat);
    }
  }

  lemma NamedHasNoSeparator(f: string)
    requires f == "chat_completions" || f == "response_api" || f == "claude_messages" || f == "realtime"
    ensures '|' !in f
  {
  }

  lemma NoSeparatorIsApart(f: string, f': string)
    requires '|' !in f && '|' !in f'
    ensures FormatsApart(f, f')
  {
    forall z ensures f != z + "|" + f' && f' != z + "|" + f {
      assert (z + "|" + f')[|z|] == '|' && (z + "|" + f)[|z|] == '|';
    }
  }

  /** Over what the program writes, every entry sums exactly the rows of its model, channel and format. */
  lemma WrittenEntriesSumTheirSource(rows: seq<Row>, k: nat)
    requires k < |rows| && forall i :: 0 <= i < |rows| ==> Written(rows[i].requestFormat)
    ensures var source := SourceOf(rows[k]);
            Total(rows, BreakdownKey, SourceKey(source))
            == Total(rows, Triple, (source.modelName, source.channelId, source.requestFormat))
  {
    var source := SourceOf(rows[k]);
    WrittenHasNoSeparator(rows[k]);
    forall i | 0 <= i < |rows| ensures FormatsApart(SourceOf(rows[i]).requestFormat, source.requestFormat) {
      WrittenHasNoSeparator(rows[i]);
      NoSeparatorIsApart(SourceOf(rows[i]).requestFormat, source.requestFormat);
    }
    EntrySumsItsSource(rows, source);
  }

  ghost predicate FormatsApart(f: string, f': string)
  {
    !RunsInto(f, f') && !RunsInto(f', f)
  }

  lemma ApartKeys(a: Source, b: Source)
    requires SourceKey(a) == SourceKey(b) && FormatsApart(a.requestFormat, b.requestFormat)
    ensures SameSource(a, b)
  {
    SourceKeysCollideIff(a.requestFormat, b.requestFormat);
  }

  function Triple(row: Row): (string, int, string)
  {
    var s := SourceOf(row);
    (s.modelName, s.channelId, s.requestFormat)
  }
}
