/** The selection by SQL over the ability table, the simple form that the cached one speeds up. */
module SqlSelection {
  import opened Wrappers
  import opened Text
  import opened Channels
  import opened ChannelCache
  import opened ChannelSelection

  /** The rows the queries range over. */
  ghost predicate InPool(rows: seq<Ability>, g: string, m: string, exclude: set<int>, now: int, a: Ability)
  {
    a in rows && a.grp == g && a.model == m && a.Usable(now) && a.channelId !in exclude
  }

  /** MAX(priority) over the pool; rows without a priority do not take part. */
  ghost predicate IsMaxPriority(rows: seq<Ability>, g: string, m: string, exclude: set<int>, now: int, p: int)
  {
    && (exists a :: InPool(rows, g, m, exclude, now, a) && a.priority == Some(p))
    && forall a :: InPool(rows, g, m, exclude, now, a) && a.priority.Some? ==> a.priority.value <= p
  }

  /** The rows among which the query draws: of maximal priority, or of a priority below the maximum. */
  ghost predicate SqlMay(rows: seq<Ability>, g: string, m: string, ignoreFirst: bool, exclude: set<int>, now: int,
                         a: Ability)
  {
    && InPool(rows, g, m, exclude, now, a) && a.priority.Some?
    && if ignoreFirst then exists p :: IsMaxPriority(rows, g, m, exclude, now, p) && a.priority.value < p
       else IsMaxPriority(rows, g, m, exclude, now, a.priority.value)
  }

  /** The ids the SQL selection may return. */
  ghost predicate SqlMayReturn(rows: seq<Ability>, g: string, m: string, ignoreFirst: bool, exclude: set<int>, now: int,
                               id: int)
  {
    exists a :: SqlMay(rows, g, m, ignoreFirst, exclude, now, a) && a.channelId == id
  }

  /** The ids the cached selection may return. */
  ghost predicate CacheMayReturn(list: seq<Channel>, m: string, ignoreFirst: bool, exclude: set<int>, id: int)
  {
    exists c :: May(Candidates(list, m, exclude, false), ignoreFirst, c) && c.id == id
  }

  /** A row of the pool and its channel in a fresh index. */
  lemma RowOfCandidate(channels: seq<Channel>, rows: seq<Ability>, index: Index, g: string, m: string,
                       exclude: set<int>, now: int, c: Channel) returns (a: Ability)
    requires InSync(channels, rows) && Fresh(index, channels, rows, now)
    requires c in Candidates(Lookup(index, g, m), m, exclude, false)
    ensures InPool(rows, g, m, exclude, now, a) && a.channelId == c.id && a.priority == Some(c.Priority())
  {
    assert Serves(channels, rows, now, c, g, m);
    a :| a in rows && a.Is(g, m, c.id) && a.Usable(now);
    var d :| d in channels && Matches(a, d);
    assert d == c;
  }

  lemma CandidateOfRow(channels: seq<Channel>, rows: seq<Ability>, index: Index, g: string, m: string,
                       exclude: set<int>, now: int, a: Ability) returns (c: Channel)
    requires InSync(channels, rows) && Fresh(index, channels, rows, now)
    requires InPool(rows, g, m, exclude, now, a)
    ensures c in Candidates(Lookup(index, g, m), m, exclude, false)
    ensures a.channelId == c.id && a.priority == Some(c.Priority())
  {
    c :| c in channels && Matches(a, c);
    assert a.Is(g, m, c.id);
    assert Serves(channels, rows, now, c, g, m);
  }

  /** The highest candidate priority is the maximum the query computes. */
  lemma TopIsMax(channels: seq<Channel>, rows: seq<Ability>, index: Index, g: string, m: string,
                 exclude: set<int>, now: int, c: Channel)
    requires InSync(channels, rows) && Fresh(index, channels, rows, now)
    requires c in Candidates(Lookup(index, g, m), m, exclude, false)
    ensures IsTop(Candidates(Lookup(index, g, m), m, exclude, false), c)
       <==> IsMaxPriority(rows, g, m, exclude, now, c.Priority())
  {
    var cands := Candidates(Lookup(index, g, m), m, exclude, false);
    var row := RowOfCandidate(channels, rows, index, g, m, exclude, now, c);
    if IsTop(cands, c) {
      forall a | InPool(rows, g, m, exclude, now, a) && a.priority.Some? ensures a.priority.value <= c.Priority() {
        var d := CandidateOfRow(channels, rows, index, g, m, exclude, now, a);
      }
    }
    if IsMaxPriority(rows, g, m, exclude, now, c.Priority()) {
      forall d | d in cands ensures d.Priority() <= c.Priority() {
        var a := RowOfCandidate(channels, rows, index, g, m, exclude, now, d);
      }
    }
  }

  /** Drawing from the first tier, the cache may return exactly the channels SQL may return. */
  lemma SameFirstTier(channels: seq<Channel>, rows: seq<Ability>, index: Index, g: string, m: string,
                      exclude: set<int>, now: int, id: int)
    requires InSync(channels, rows) && Fresh(index, channels, rows, now)
    ensures CacheMayReturn(Lookup(index, g, m), m, false, exclude, id)
       <==> SqlMayReturn(rows, g, m, false, exclude, now, id)
  {
    var cands := Candidates(Lookup(index, g, m), m, exclude, false);
    if c :| May(cands, false, c) && c.id == id {
      var a := RowOfCandidate(channels, rows, index, g, m, exclude, now, c);
      TopIsMax(channels, rows, index, g, m, exclude, now, c);
      assert SqlMay(rows, g, m, false, exclude, now, a);
    }
    if a :| SqlMay(rows, g, m, false, exclude, now, a) && a.channelId == id {
      var c := CandidateOfRow(channels, rows, index, g, m, exclude, now, a);
      TopIsMax(channels, rows, index, g, m, exclude, now, c);
      assert May(cands, false, c);
    }
  }

  ghost predicate BelowTop(cands: set<Channel>, c: Channel, top: Channel)
  {
    c in cands && IsTop(cands, top) && c.Priority() < top.Priority()
  }

  /** Drawing below the first tier, SQL may return exactly the candidates below the top, of whatever sign. */
  lemma SqlBelowTop(channels: seq<Channel>, rows: seq<Ability>, index: Index, g: string, m: string,
                    exclude: set<int>, now: int, id: int)
    requires InSync(channels, rows) && Fresh(index, channels, rows, now)
    ensures SqlMayReturn(rows, g, m, true, exclude, now, id)
       <==> exists c, d :: BelowTop(Candidates(Lookup(index, g, m), m, exclude, false), c, d) && c.id == id
  {
    var cands := Candidates(Lookup(index, g, m), m, exclude, false);
    if c, d :| BelowTop(cands, c, d) && c.id == id {
      var a := RowOfCandidate(channels, rows, index, g, m, exclude, now, c);
      TopIsMax(channels, rows, index, g, m, exclude, now, d);
      assert SqlMay(rows, g, m, true, exclude, now, a);
    }
    if a :| SqlMay(rows, g, m, true, exclude, now, a) && a.channelId == id {
      var p :| IsMaxPriority(rows, g, m, exclude, now, p) && a.priority.value < p;
      var b :| InPool(rows, g, m, exclude, now, b) && b.priority == Some(p);
      var c := CandidateOfRow(channels, rows, index, g, m, exclude, now, a);
      var d := CandidateOfRow(channels, rows, index, g, m, exclude, now, b);
      TopIsMax(channels, rows, index, g, m, exclude, now, d);
      assert BelowTop(cands, c, d) && c.id == id;
    }
  }

  ghost predicate AllOfOnePriority(cands: set<Channel>)
  {
    forall c, d :: c in cands && d in cands ==> c.Priority() == d.Priority()
  }

  /** Drawing below the first tier, the two forms may return the same channels exactly when the highest
      remaining priority is positive or there is nothing below it anyway. */
  lemma SameLowerTiersIff(channels: seq<Channel>, rows: seq<Ability>, index: Index, g: string, m: string,
                          exclude: set<int>, now: int)
    requires InSync(channels, rows) && Fresh(index, channels, rows, now)
    ensures SameBelowTop(rows, Lookup(index, g, m), g, m, exclude, now)
       <==> var cands := Candidates(Lookup(index, g, m), m, exclude, false);
            AllOfOnePriority(cands) || exists c :: c in cands && c.Priority() > 0
  {
    forall id ensures SqlIdBelowTop(rows, Lookup(index, g, m), g, m, exclude, now, id) {
      SqlBelowTop(channels, rows, index, g, m, exclude, now, id);
    }
    LowerTiersDecided(rows, Lookup(index, g, m), g, m, exclude, now);
  }

  /** SQL may return the id exactly when a candidate below the top carries it. */
  ghost predicate SqlIdBelowTop(rows: seq<Ability>, list: seq<Channel>, g: string, m: string, exclude: set<int>,
                                now: int, id: int)
  {
    SqlMayReturn(rows, g, m, true, exclude, now, id)
    <==> exists c, d :: BelowTop(Candidates(list, m, exclude, false), c, d) && c.id == id
  }

  lemma LowerTiersDecided(rows: seq<Ability>, list: seq<Channel>, g: string, m: string, exclude: set<int>, now: int)
    requires forall id :: SqlIdBelowTop(rows, list, g, m, exclude, now, id)
    ensures SameBelowTop(rows, list, g, m, exclude, now)
       <==> var cands := Candidates(list, m, exclude, false);
            AllOfOnePriority(cands) || exists c :: c in cands && c.Priority() > 0
  {
    var cands := Candidates(list, m, exclude, false);
    if AllOfOnePriority(cands) || exists c :: c in cands && c.Priority() > 0 {
      forall id
        ensures CacheMayReturn(list, m, true, exclude, id) <==> SqlMayReturn(rows, g, m, true, exclude, now, id)
      {
        assert SqlIdBelowTop(rows, list, g, m, exclude, now, id);
        if c, d :| BelowTop(cands, c, d) && c.id == id {
          assert May(cands, true, c);
        }
        if c :| May(cands, true, c) && c.id == id {
          var d :| IsTop(cands, d) && d.Priority() > 0 && c.Priority() < d.Priority();
          assert BelowTop(cands, c, d);
        }
      }
    } else {
      var top := SomeTop(cands);
      var low :| low in cands && low.Priority() != top.Priority();
      assert BelowTop(cands, low, top);
      assert SqlIdBelowTop(rows, list, g, m, exclude, now, low.id);
      assert SqlMayReturn(rows, g, m, true, exclude, now, low.id) && !CacheMayReturn(list, m, true, exclude, low.id);
    }
  }

  /** Below the first tier, the cache and SQL may return the same ids. */
  ghost predicate SameBelowTop(rows: seq<Ability>, list: seq<Channel>, g: string, m: string, exclude: set<int>,
                               now: int)
  {
    forall id :: CacheMayReturn(list, m, true, exclude, id) <==> SqlMayReturn(rows, g, m, true, exclude, now, id)
  }

  /** When no candidate has a positive priority, SQL finds each one below the highest and the cache finds none. */
  lemma LowerTierIsMissed(channels: seq<Channel>, rows: seq<Ability>, index: Index, g: string, m: string,
                          exclude: set<int>, now: int, high: Channel, low: Channel)
    requires InSync(channels, rows) && Fresh(index, channels, rows, now)
    requires var cands := Candidates(Lookup(index, g, m), m, exclude, false);
             BelowTop(cands, low, high) && high.Priority() <= 0
    ensures SqlMayReturn(rows, g, m, true, exclude, now, low.id)
    ensures !CacheMayReturn(Lookup(index, g, m), m, true, exclude, low.id)
  {
    SqlBelowTop(channels, rows, index, g, m, exclude, now, low.id);
  }

  /** Two enabled channels of one group and model, one of the default priority and one below it, with their rows. */
  function Pair(g: string, m: string): seq<Channel>
  {
    [Channel(1, STATUS_ENABLED, g, m, None, None, 0, [], map[], map[]),
     Channel(2, STATUS_ENABLED, g, m, Some(-1), None, 0, [], map[], map[])]
  }

  function RowsOfPair(g: string, m: string): seq<Ability>
  {
    [Ability(g, m, 1, true, Some(0), None), Ability(g, m, 2, true, Some(-1), None)]
  }

  lemma PairDeclares(g: string, m: string, c: Channel, g': string, m': string)
    requires ',' !in g && ',' !in m && c in Pair(g, m)
    ensures c.Declares(g', m') <==> g' == g && m' == m
  {
    SplitWhole(g, ',');
    SplitWhole(m, ',');
  }

  lemma PairInSync(g: string, m: string)
    requires ',' !in g && ',' !in m
    ensures InSync(Pair(g, m), RowsOfPair(g, m))
  {
    var channels, rows := Pair(g, m), RowsOfPair(g, m);
    forall a | a in rows ensures exists c :: c in channels && Matches(a, c) {
      var c := if a.channelId == 1 then channels[0] else channels[1];
      PairDeclares(g, m, c, g, m);
      assert c in channels && Matches(a, c);
    }
  }

  lemma PairServes(g: string, m: string, now: int, c: Channel, g': string, m': string)
    requires ',' !in g && ',' !in m
    ensures Serves(Pair(g, m), RowsOfPair(g, m), now, c, g', m') <==> c in Pair(g, m) && g' == g && m' == m
  {
    var rows := RowsOfPair(g, m);
    if c in Pair(g, m) {
      PairDeclares(g, m, c, g', m');
      assert rows[c.id-1] in rows && rows[c.id-1].Is(g, m, c.id) && rows[c.id-1].Usable(now);
    }
  }

  lemma PairFresh(g: string, m: string, now: int)
    requires ',' !in g && ',' !in m
    ensures Fresh(map[g := map[m := Pair(g, m)]], Pair(g, m), RowsOfPair(g, m), now)
  {
    var channels, rows, index := Pair(g, m), RowsOfPair(g, m), map[g := map[m := Pair(g, m)]];
    forall g', m', c ensures c in Lookup(index, g', m') <==> Serves(channels, rows, now, c, g', m') {
      PairServes(g, m, now, c, g', m');
    }
  }

  /** A table and an index for which the lower channel is missed. */
  lemma LowerTierIsMissedOnce(g: string, m: string, now: int)
    requires ',' !in g && ',' !in m
    ensures var channels, rows, index := Pair(g, m), RowsOfPair(g, m), map[g := map[m := Pair(g, m)]];
            && InSync(channels, rows) && Fresh(index, channels, rows, now)
            && SqlMayReturn(rows, g, m, true, {}, now, 2) && !CacheMayReturn(Lookup(index, g, m), m, true, {}, 2)
  {
    var channels, rows, index := Pair(g, m), RowsOfPair(g, m), map[g := map[m := Pair(g, m)]];
    PairInSync(g, m);
    PairFresh(g, m, now);
    assert channels[0] in channels && channels[1] in channels;
    LowerTierIsMissed(channels, rows, index, g, m, {}, now, channels[0], channels[1]);
  }

  // ----- the check that follows the query -----

  function OnFirst(c: char, parts: seq<string>): seq<string>
    requires parts != []
  {
    [[c] + parts[0]] + parts[1..]
  }

  function OnLast(parts: seq<string>, c: char): seq<string>
    requires parts != []
  {
    parts[..|parts|-1] + [parts[|parts|-1] + [c]]
  }

  lemma OnBothEnds(c: char, parts: seq<string>, d: char)
    requires parts != []
    ensures OnFirst(c, OnLast(parts, d)) == OnLast(OnFirst(c, parts), d)
  {
    if |parts| == 1 {
      assert [c] + (parts[0] + [d]) == ([c] + parts[0]) + [d];
    }
  }

  lemma OnLastOf(first: string, parts: seq<string>, c: char)
    requires parts != []
    ensures [first] + OnLast(parts, c) == OnLast([first] + parts, c)
  {
  }

  lemma {:induction false} SplitSnoc(s: string, x: char, separator: char)
    ensures Split(s + [x], separator)
         == if x == separator then Split(s, separator) + [""] else OnLast(Split(s, separator), x)
  {
    if s == "" {
      assert s + [x] == [x] && [x][1..] == "";
      assert [x] + "" == [x] && "" + [x] == [x];
    } else {
      var rest := Split(s[1..], separator);
      assert (s + [x])[1..] == s[1..] + [x];
      SplitSnoc(s[1..], x, separator);
      if x != separator {
        OnBothEnds(s[0], rest, x);
        OnLastOf("", rest, x);
      }
    }
  }

  lemma {:induction false} NonEmptyTrimmedHas(parts: seq<string>, i: nat)
    requires i < |parts| && TrimSpace(parts[i]) != ""
    ensures TrimSpace(parts[i]) in NonEmptyTrimmed(parts)
  {
    if i > 0 {
      NonEmptyTrimmedHas(parts[1..], i - 1);
    }
  }

  lemma {:induction false} TrimSpaceSnoc(s: string, x: char)
    requires IsSpace(x)
    ensures TrimSpace(s + [x]) == TrimSpace(s)
  {
    if s == "" {
      assert "" + [x] == [x];
      assert TrimLeft([x]) == TrimLeft([x][1..]) == "";
    } else if IsSpace(s[0]) {
      assert (s + [x])[1..] == s[1..] + [x];
      TrimSpaceSnoc(s[1..], x);
    } else {
      assert (s + [x])[..|s|] == s;
    }
  }

  lemma {:induction false} SplitOfTrimLeft(s: string, i: nat) returns (j: nat)
    requires i < |Split(s, ',')|
    ensures j < |Split(TrimLeft(s), ',')| && TrimSpace(Split(TrimLeft(s), ',')[j]) == TrimSpace(Split(s, ',')[i])
  {
    if s == "" || !IsSpace(s[0]) {
      return i;
    }
    var p, q := Split(s, ','), Split(s[1..], ',');
    assert p == [[s[0]] + q[0]] + q[1..];
    assert ([s[0]] + q[0])[1..] == q[0];
    j := SplitOfTrimLeft(s[1..], i);
  }

  lemma TrimOnLast(parts: seq<string>, x: char, i: nat)
    requires i < |parts| && IsSpace(x)
    ensures TrimSpace(OnLast(parts, x)[i]) == TrimSpace(parts[i])
  {
    TrimSpaceSnoc(parts[|parts|-1], x);
  }

  lemma {:induction false} SplitOfTrimRight(s: string, i: nat) returns (j: nat)
    requires i < |Split(s, ',')|
    ensures j < |Split(TrimRight(s), ',')| && TrimSpace(Split(TrimRight(s), ',')[j]) == TrimSpace(Split(s, ',')[i])
  {
    if s == "" || !IsSpace(s[|s|-1]) {
      return i;
    }
    var prefix, x := s[..|s|-1], s[|s|-1];
    assert s == prefix + [x];
    SplitSnoc(prefix, x, ',');
    TrimOnLast(Split(prefix, ','), x, i);
    j := SplitOfTrimRight(prefix, i);
  }

  /** A channel supports every model it declares, so the last check of the SQL selection never fails
      when rows and channels agree. */
  lemma DeclaredModelIsSupported(c: Channel, m: string)
    requires m in c.Models()
    ensures SupportsModel(c, m)
  {
    var i :| 0 <= i < |c.Models()| && c.Models()[i] == m;
    var j := SplitOfTrimLeft(c.models, i);
    var k := SplitOfTrimRight(TrimLeft(c.models), j);
    var parts := Split(TrimSpace(c.models), ',');
    if TrimSpace(m) != "" && SupportedModelNames(c) != [] {
      NonEmptyTrimmedHas(parts, k);
      var names := SupportedModelNames(c);
      var n :| 0 <= n < |names| && names[n] == TrimSpace(m);
      assert EqualFold(names[n], TrimSpace(m));
    }
  }

  /** Whatever row SQL draws, its channel exists, is enabled and supports the model. */
  lemma DrawnRowServes(channels: seq<Channel>, rows: seq<Ability>, g: string, m: string, ignoreFirst: bool,
                       exclude: set<int>, now: int, a: Ability)
    requires InSync(channels, rows) && SqlMay(rows, g, m, ignoreFirst, exclude, now, a)
    ensures exists c :: c in channels && c.id == a.channelId && c.status == STATUS_ENABLED && SupportsModel(c, m)
  {
    var c :| c in channels && Matches(a, c);
    DeclaredModelIsSupported(c, m);
  }
}
