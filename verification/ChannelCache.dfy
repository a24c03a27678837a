/** The sorted in-memory index of channels, rebuilt from the channel and ability tables. */
module ChannelCache {
  import opened Wrappers
  import opened Text
  import opened Channels
  import opened Sorting

  type Index = map<string, map<string, seq<Channel>>>

  /** The channels listed for a group and model. */
  function Lookup(index: Index, g: string, m: string): seq<Channel>
  {
    if g in index && m in index[g] then index[g][m] else []
  }

  predicate HigherFirst(a: Channel, b: Channel)
  {
    a.Priority() >= b.Priority()
  }

  predicate Descending(list: seq<Channel>)
  {
    forall i, j :: 0 <= i < j < |list| ==> list[i].Priority() >= list[j].Priority()
  }

  // ----- the ability key -----

  /** "group:model:channelId" */
  function AbilityKey(g: string, m: string, id: int): string
  {
    g + [':'] + (m + [':'] + Decimal(id))
  }

  /** One group name continues the other past a colon. */
  predicate Ambiguous(g: string, h: string)
  {
    g + ":" <= h || h + ":" <= g
  }

  lemma LongerGroupContinues(g: string, m: string, id: int, g': string, m': string, id': int)
    requires AbilityKey(g, m, id) == AbilityKey(g', m', id') && |g| < |g'|
    ensures g + ":" <= g'
  {
    var s := AbilityKey(g, m, id);
    assert s[..|g|+1] == g + ":" && s[..|g'|] == g';
    assert g + ":" == s[..|g'|][..|g|+1];
  }

  /** Two ability keys of groups that do not run into each other differ unless all parts agree;
      the model name may contain colons. */
  lemma AbilityKeyDecodes(g: string, m: string, id: int, g': string, m': string, id': int)
    requires !Ambiguous(g, g')
    requires AbilityKey(g, m, id) == AbilityKey(g', m', id')
    ensures g == g' && m == m' && id == id'
  {
    if |g| < |g'| {
      LongerGroupContinues(g, m, id, g', m', id');
    } else if |g'| < |g| {
      LongerGroupContinues(g', m', id', g, m, id);
    }
    var s := AbilityKey(g, m, id);
    assert g == s[..|g|] && g' == s[..|g'|];
    assert s[|g|+1..] == m + [':'] + Decimal(id) == m' + [':'] + Decimal(id');
    LastFieldUnique(m, m', ':', Decimal(id), Decimal(id'));
    DecimalInjective(id, id');
  }

  /** Two keys are the same exactly when the ids are and group and model read the same with the colon in between. */
  lemma SameKeyIff(g: string, m: string, id: int, g': string, m': string, id': int)
    ensures AbilityKey(g, m, id) == AbilityKey(g', m', id') <==> id == id' && g + ":" + m == g' + ":" + m'
  {
    var left, left' := g + ":" + m, g' + ":" + m';
    assert AbilityKey(g, m, id) == left + ":" + Decimal(id);
    assert AbilityKey(g', m', id') == left' + ":" + Decimal(id');
    if AbilityKey(g, m, id) == AbilityKey(g', m', id') {
      LastFieldUnique(left, left', ':', Decimal(id), Decimal(id'));
      DecimalInjective(id, id');
    }
  }

  /** Keys of two different groups can coincide exactly when one group continues the other past a colon. */
  lemma KeysCollideIff(g: string, g': string)
    requires g != g'
    ensures (exists m, id, m', id' :: AbilityKey(g, m, id) == AbilityKey(g', m', id')) <==> Ambiguous(g, g')
  {
    if m, id, m', id' :| AbilityKey(g, m, id) == AbilityKey(g', m', id') {
      if !Ambiguous(g, g') {
        AbilityKeyDecodes(g, m, id, g', m', id');
      }
    }
    if g + ":" <= g' {
      Collision(g, g', 0);
    }
    if g' + ":" <= g {
      Collision(g', g, 0);
    }
  }

  lemma Collision(g: string, g': string, id: int)
    requires g + ":" <= g'
    ensures AbilityKey(g, g'[|g|+1..] + ":", id) == AbilityKey(g', "", id)
  {
    var rest := g'[|g|+1..];
    assert g' == g + ":" + rest;
    assert g + ":" + (rest + ":") == g' + ":" + "";
    SameKeyIff(g, rest + ":", id, g', "", id);
  }

  // ----- building the index -----

  /** The channel is listed under (g, m): it declares both and its ability key is a valid one. */
  predicate Lists(c: Channel, g: string, m: string, valid: set<string>)
  {
    c.Declares(g, m) && AbilityKey(g, m, c.id) in valid
  }

  /** Appending a channel under one group and model. */
  function Append(index: Index, g: string, m: string, c: Channel): Index
    requires g in index
  {
    index[g := index[g][m := (if m in index[g] then index[g][m] else []) + [c]]]
  }

  lemma LookupAppend(index: Index, g: string, m: string, c: Channel, g': string, m': string)
    requires g in index
    ensures Lookup(Append(index, g, m, c), g', m')
         == if g' == g && m' == m then Lookup(index, g, m) + [c] else Lookup(index, g', m')
  {
  }

  /** The inner loops of the rebuild: one channel is entered under each of its groups and models. */
  method ListChannel(index: Index, channel: Channel, valid: set<string>) returns (index': Index)
    ensures forall g, m, c :: c in Lookup(index', g, m) <==>
              c in Lookup(index, g, m) || (c == channel && Lists(channel, g, m, valid))
  {
    index' := index;
    var groups := channel.Groups();
    for i := 0 to |groups|
      invariant forall g, m, c :: c in Lookup(index', g, m) <==>
                  c in Lookup(index, g, m) || (c == channel && g in groups[..i] && Lists(channel, g, m, valid))
    {
      index' := ListUnderGroup(index', channel, groups[i], valid);
      assert groups[..i+1] == groups[..i] + [groups[i]];
    }
    assert groups[..|groups|] == groups;
  }

  /** An index differs from an earlier one in that the channel is listed under some models of one group. */
  ghost predicate Entered(index: Index, index': Index, channel: Channel, groupName: string, models: seq<string>,
                          valid: set<string>, g: string, m: string, c: Channel)
  {
    c in Lookup(index', g, m) <==>
      c in Lookup(index, g, m) || (c == channel && g == groupName && m in models && Lists(channel, g, m, valid))
  }

  method ListUnderGroup(index: Index, channel: Channel, groupName: string, valid: set<string>) returns (index': Index)
    requires groupName in channel.Groups()
    ensures forall g, m, c :: c in Lookup(index', g, m) <==>
              c in Lookup(index, g, m) || (c == channel && g == groupName && Lists(channel, g, m, valid))
  {
    index' := index;
    if groupName !in index' {
      index' := index'[groupName := map[]];
    }
    var models := channel.Models();
    for i := 0 to |models|
      invariant groupName in index'
      invariant forall g, m, c :: Entered(index, index', channel, groupName, models[..i], valid, g, m, c)
    {
      var modelName := models[i];
      ghost var before := index';
      if AbilityKey(groupName, modelName, channel.id) in valid {
        index' := Append(index', groupName, modelName, channel);
      }
      ghost var done := models[..i+1];
      forall g, m, c ensures Entered(index, index', channel, groupName, done, valid, g, m, c) {
        assert Entered(index, before, channel, groupName, models[..i], valid, g, m, c);
        OneMoreModel(index, before, channel, groupName, models, i, valid, g, m, c);
      }
    }
    forall g, m, c
      ensures c in Lookup(index', g, m) <==>
                c in Lookup(index, g, m) || (c == channel && g == groupName && Lists(channel, g, m, valid))
    {
      assert Entered(index, index', channel, groupName, models[..|models|], valid, g, m, c);
    }
  }

  lemma OneMoreModel(index: Index, before: Index, channel: Channel, groupName: string, models: seq<string>, i: nat,
                     valid: set<string>, g: string, m: string, c: Channel)
    requires groupName in before && groupName in channel.Groups() && models == channel.Models() && i < |models|
    requires Entered(index, before, channel, groupName, models[..i], valid, g, m, c)
    ensures var after := if AbilityKey(groupName, models[i], channel.id) in valid
                         then Append(before, groupName, models[i], channel) else before;
            Entered(index, after, channel, groupName, models[..i+1], valid, g, m, c)
  {
    assert models[..i+1] == models[..i] + [models[i]];
    LookupAppend(before, groupName, models[i], channel, g, m);
  }

  /** The sort of the rebuild, list by list; channels of equal priority may end up in any order. */
  method SortModels(lists: map<string, seq<Channel>>) returns (r: map<string, seq<Channel>>)
    ensures r.Keys == lists.Keys
    ensures forall m :: m in r ==> Descending(r[m]) && forall c :: c in r[m] <==> c in lists[m]
  {
    r := lists;
    var keys := lists.Keys;
    while keys != {}
      invariant keys <= r.Keys == lists.Keys
      invariant forall m :: m in r ==> (m !in keys ==> Descending(r[m])) && forall c :: c in r[m] <==> c in lists[m]
      decreases |keys|
    {
      var m :| m in keys;
      var sorted := Sort(r[m], HigherFirst);
      r := r[m := sorted];
      keys := keys - {m};
    }
  }

  method SortIndex(index: Index) returns (r: Index)
    ensures forall g, m :: Descending(Lookup(r, g, m))
    ensures forall g, m, c :: c in Lookup(r, g, m) <==> c in Lookup(index, g, m)
  {
    r := index;
    var keys := index.Keys;
    while keys != {}
      invariant keys <= r.Keys == index.Keys
      invariant forall g, m :: g in r && g !in keys ==> Descending(Lookup(r, g, m))
      invariant forall g, m, c :: c in Lookup(r, g, m) <==> c in Lookup(index, g, m)
      decreases |keys|
    {
      var g :| g in keys;
      var before := r;
      var sorted := SortModels(r[g]);
      r := r[g := sorted];
      keys := keys - {g};
      forall h, m ensures if h == g then Descending(Lookup(r, h, m)) else Lookup(r, h, m) == Lookup(before, h, m)
                  ensures forall c :: c in Lookup(r, h, m) <==> c in Lookup(before, h, m)
      {
      }
    }
  }

  /** The keys of the abilities that count at this time, for channels that are enabled. */
  method ValidAbilityKeys(enabled: seq<Channel>, rows: seq<Ability>, now: int) returns (valid: set<string>)
    ensures forall key :: key in valid <==>
              exists a :: a in rows && a.Usable(now) && (exists c :: c in enabled && c.id == a.channelId)
                && key == AbilityKey(a.grp, a.model, a.channelId)
  {
    var ids := set c | c in enabled :: c.id;
    valid := {};
    for i := 0 to |rows|
      invariant forall key :: key in valid <==>
                  exists a :: a in rows[..i] && a.Usable(now) && (exists c :: c in enabled && c.id == a.channelId)
                    && key == AbilityKey(a.grp, a.model, a.channelId)
    {
      assert rows[..i+1] == rows[..i] + [rows[i]];
      if rows[i].Usable(now) && rows[i].channelId in ids {
        valid := valid + {AbilityKey(rows[i].grp, rows[i].model, rows[i].channelId)};
      }
    }
    assert rows[..|rows|] == rows;
  }

  /** The names of groups in use do not run into each other in ability keys; names without colons never do. */
  ghost predicate Unambiguous(channels: seq<Channel>, rows: seq<Ability>)
  {
    forall c, g, a :: c in channels && g in c.Groups() && a in rows ==> !Ambiguous(g, a.grp)
  }

  /** Some usable row of an enabled channel has the ability key of these three. */
  ghost predicate HasKey(channels: seq<Channel>, rows: seq<Ability>, now: int, key: string)
  {
    exists a, d :: a in rows && a.Usable(now) && d in channels && d.status == STATUS_ENABLED && d.id == a.channelId
                   && key == AbilityKey(a.grp, a.model, a.channelId)
  }

  /** What the rebuild goes by: the channel is enabled, declares both, and the key is in use. */
  ghost predicate Keyed(channels: seq<Channel>, rows: seq<Ability>, now: int, c: Channel, g: string, m: string)
  {
    && c in channels && c.status == STATUS_ENABLED && c.Declares(g, m)
    && HasKey(channels, rows, now, AbilityKey(g, m, c.id))
  }

  /** A channel that serves is listed; one that is listed without serving has its key from a group that runs into
      its own. */
  lemma KeyedUnlessAmbiguous(channels: seq<Channel>, rows: seq<Ability>, now: int, c: Channel, g: string, m: string)
    ensures Serves(channels, rows, now, c, g, m) ==> Keyed(channels, rows, now, c, g, m)
    ensures Keyed(channels, rows, now, c, g, m) && !Serves(channels, rows, now, c, g, m) ==>
              exists a :: a in rows && a.Usable(now) && Ambiguous(g, a.grp)
                          && AbilityKey(a.grp, a.model, a.channelId) == AbilityKey(g, m, c.id)
  {
    if Keyed(channels, rows, now, c, g, m) {
      var a, d :| a in rows && a.Usable(now) && d in channels && d.status == STATUS_ENABLED && d.id == a.channelId
                  && AbilityKey(g, m, c.id) == AbilityKey(a.grp, a.model, a.channelId);
      if !Ambiguous(g, a.grp) {
        AbilityKeyDecodes(g, m, c.id, a.grp, a.model, a.channelId);
        assert a.Is(g, m, c.id);
      }
    }
    if Serves(channels, rows, now, c, g, m) {
      var a :| a in rows && a.Is(g, m, c.id) && a.Usable(now);
      assert AbilityKey(g, m, c.id) == AbilityKey(a.grp, a.model, a.channelId);
    }
  }

  /** A usable row of the channel reads like this group and model. */
  ghost predicate ReadsLike(rows: seq<Ability>, now: int, c: Channel, g: string, m: string)
  {
    exists a :: a in rows && a.Usable(now) && a.channelId == c.id && a.grp + ":" + a.model == g + ":" + m
  }

  /** This very row is there and usable. */
  ghost predicate HasRow(rows: seq<Ability>, now: int, c: Channel, g: string, m: string)
  {
    exists a :: a in rows && a.Usable(now) && a.Is(g, m, c.id)
  }

  /** A channel is listed exactly when it is enabled, declares the two and has a usable row of its own that reads like
      them; it serves exactly when that row is theirs. */
  lemma KeyedIff(channels: seq<Channel>, rows: seq<Ability>, now: int, c: Channel, g: string, m: string)
    ensures Keyed(channels, rows, now, c, g, m) <==>
              c in channels && c.status == STATUS_ENABLED && c.Declares(g, m) && ReadsLike(rows, now, c, g, m)
    ensures Serves(channels, rows, now, c, g, m) <==>
              c in channels && c.status == STATUS_ENABLED && c.Declares(g, m) && HasRow(rows, now, c, g, m)
  {
    forall a: Ability
      ensures AbilityKey(a.grp, a.model, a.channelId) == AbilityKey(g, m, c.id) <==>
                a.channelId == c.id && a.grp + ":" + a.model == g + ":" + m
    {
      SameKeyIff(a.grp, a.model, a.channelId, g, m, c.id);
    }
  }

  lemma ListsIffServes(channels: seq<Channel>, rows: seq<Ability>, now: int, c: Channel, g: string, m: string)
    requires Unambiguous(channels, rows)
    ensures Keyed(channels, rows, now, c, g, m) <==> Serves(channels, rows, now, c, g, m)
  {
    KeyedUnlessAmbiguous(channels, rows, now, c, g, m);
  }

  lemma ListsIffKeyed(channels: seq<Channel>, rows: seq<Ability>, now: int, enabled: seq<Channel>, valid: set<string>,
                      c: Channel, g: string, m: string)
    requires forall d :: d in enabled <==> d in channels && d.status == STATUS_ENABLED
    requires forall key :: key in valid <==>
               exists a :: a in rows && a.Usable(now) && (exists d :: d in enabled && d.id == a.channelId)
                 && key == AbilityKey(a.grp, a.model, a.channelId)
    ensures c in enabled && Lists(c, g, m, valid) <==> Keyed(channels, rows, now, c, g, m)
  {
    var key := AbilityKey(g, m, c.id);
    if key in valid {
      var a :| a in rows && a.Usable(now) && (exists d :: d in enabled && d.id == a.channelId)
               && key == AbilityKey(a.grp, a.model, a.channelId);
      var d :| d in enabled && d.id == a.channelId;
      assert HasKey(channels, rows, now, key);
    }
    if HasKey(channels, rows, now, key) {
      var a, d :| a in rows && a.Usable(now) && d in channels && d.status == STATUS_ENABLED && d.id == a.channelId
                  && key == AbilityKey(a.grp, a.model, a.channelId);
      assert d in enabled;
    }
  }

  /** The index is up to date: under every group and model it lists exactly the channels that
      serve them, by falling priority. */
  ghost predicate Fresh(index: Index, channels: seq<Channel>, rows: seq<Ability>, now: int)
  {
    && (forall g, m :: Descending(Lookup(index, g, m)))
    && forall g, m, c :: c in Lookup(index, g, m) <==> Serves(channels, rows, now, c, g, m)
  }

  /** The index lists by key, whether or not group names run into each other. */
  ghost predicate Rebuilt(index: Index, channels: seq<Channel>, rows: seq<Ability>, now: int)
  {
    && (forall g, m :: Descending(Lookup(index, g, m)))
    && forall g, m, c :: c in Lookup(index, g, m) <==> Keyed(channels, rows, now, c, g, m)
  }

  /** A rebuilt index is up to date exactly when every enabled channel that has a usable row reading like a group and a
      model it declares also has a usable row for these two. */
  lemma RebuiltIsFreshIff(index: Index, channels: seq<Channel>, rows: seq<Ability>, now: int)
    requires Rebuilt(index, channels, rows, now)
    ensures Fresh(index, channels, rows, now) <==>
              forall c, g, m :: c in channels && c.status == STATUS_ENABLED && c.Declares(g, m) ==>
                (ReadsLike(rows, now, c, g, m) ==> HasRow(rows, now, c, g, m))
    ensures Unambiguous(channels, rows) ==> Fresh(index, channels, rows, now)
  {
    forall c, g, m
      ensures Serves(channels, rows, now, c, g, m) ==> Keyed(channels, rows, now, c, g, m)
      ensures Unambiguous(channels, rows) && Keyed(channels, rows, now, c, g, m) ==>
                Serves(channels, rows, now, c, g, m)
      ensures Keyed(channels, rows, now, c, g, m) <==>
                c in channels && c.status == STATUS_ENABLED && c.Declares(g, m) && ReadsLike(rows, now, c, g, m)
      ensures Serves(channels, rows, now, c, g, m) <==>
                c in channels && c.status == STATUS_ENABLED && c.Declares(g, m) && HasRow(rows, now, c, g, m)
    {
      KeyedUnlessAmbiguous(channels, rows, now, c, g, m);
      KeyedIff(channels, rows, now, c, g, m);
    }
  }

  /** A channel of the groups g and g:x with the models m and x:m, of which (g, x:m) is suspended while (g:x, m) is
      usable. */
  ghost predicate Mixed(c: Channel, rows: seq<Ability>, now: int, g: string, x: string, m: string)
  {
    && c.status == STATUS_ENABLED && ',' !in g + x + m
    && c.groups == g + "," + (g + ":" + x) && c.models == m + "," + (x + ":" + m)
    && HasRow(rows, now, c, g + ":" + x, m) && !HasRow(rows, now, c, g, x + ":" + m)
  }

  /** It is listed under the suspended pair. */
  lemma ListedThoughSuspended(index: Index, channels: seq<Channel>, rows: seq<Ability>, now: int, c: Channel,
                              g: string, x: string, m: string)
    requires c in channels && Mixed(c, rows, now, g, x, m) && Rebuilt(index, channels, rows, now)
    ensures c in Lookup(index, g, x + ":" + m) && !Serves(channels, rows, now, c, g, x + ":" + m)
    ensures !Fresh(index, channels, rows, now)
  {
    DeclaresTwo(c, g, g + ":" + x, m, x + ":" + m);
    MixedReadsLike(c, rows, now, g, x, m);
    KeyedIff(channels, rows, now, c, g, x + ":" + m);
  }

  lemma MixedReadsLike(c: Channel, rows: seq<Ability>, now: int, g: string, x: string, m: string)
    requires HasRow(rows, now, c, g + ":" + x, m)
    ensures ReadsLike(rows, now, c, g, x + ":" + m)
  {
    assert (g + ":" + x) + ":" + m == g + ":" + (x + ":" + m);
  }

  /** Such a channel with such rows. */
  lemma MixedExists(id: int, now: int)
    ensures exists c: Channel, rows :: c.id == id && Mixed(c, rows, now, "a", "b", "c")
  {
    var c := Channel(id, STATUS_ENABLED, "a,a:b", "c,b:c", None, None, 0, [], map[], map[]);
    var suspended := Ability("a", "b:c", id, true, None, Some(now));
    var usable := Ability("a:b", "c", id, true, None, None);
    var rows := [suspended, usable];
    assert usable in rows && usable.Is("a" + ":" + "b", "c", id);
    assert ',' !in "a" + "b" + "c";
    assert "a" + "," + ("a" + ":" + "b") == "a,a:b" && "c" + "," + ("b" + ":" + "c") == "c,b:c";
    assert Mixed(c, rows, now, "a", "b", "c");
  }

  lemma DeclaresTwo(c: Channel, g: string, h: string, m: string, n: string)
    requires c.groups == g + "," + h && c.models == m + "," + n && ',' !in g + h + m + n
    ensures c.Declares(g, n)
  {
    assert ',' !in g && ',' !in h && ',' !in m && ',' !in n by {
      NoneIn(g, h, m, n, ',');
    }
    SplitFirst(g, ',', h);
    SplitFirst(m, ',', n);
    SplitWhole(n, ',');
    assert c.Groups()[0] == g && c.Models()[1] == n;
  }

  lemma NoneIn(a: string, b: string, c: string, d: string, x: char)
    requires x !in a + b + c + d
    ensures x !in a && x !in b && x !in c && x !in d
  {
  }

  class Cache {
    var group2model2channels: Index

    constructor ()
      ensures group2model2channels == map[]
    {
      group2model2channels := map[];
    }

    method InitChannelCache(table: seq<Channel>, rows: seq<Ability>, now: int)
      modifies this
      ensures Rebuilt(group2model2channels, table, rows, now)
      ensures Unambiguous(table, rows) ==> Fresh(group2model2channels, table, rows, now)
    {
      var channels: seq<Channel> := [];
      for i := 0 to |table|
        invariant forall c :: c in channels <==> c in table[..i] && c.status == STATUS_ENABLED
      {
        assert table[..i+1] == table[..i] + [table[i]];
        if table[i].status == STATUS_ENABLED {
          channels := channels + [table[i]];
        }
      }
      assert table[..|table|] == table;

      var valid := ValidAbilityKeys(channels, rows, now);
      var index: Index := map[];
      for i := 0 to |channels|
        invariant forall g, m, c :: c in Lookup(index, g, m) <==> c in channels[..i] && Lists(c, g, m, valid)
      {
        assert channels[..i+1] == channels[..i] + [channels[i]];
        index := ListChannel(index, channels[i], valid);
      }
      assert channels[..|channels|] == channels;
      index := SortIndex(index);

      forall g, m, c ensures c in Lookup(index, g, m) <==> Keyed(table, rows, now, c, g, m) {
        ListsIffKeyed(table, rows, now, channels, valid, c, g, m);
      }
      RebuiltIsFreshIff(index, table, rows, now);
      group2model2channels := index;
    }

    method GetChannelsFromCache(g: string, m: string, memoryCacheEnabled: bool) returns (r: Result<seq<Channel>>)
      ensures r.Err? <==> !memoryCacheEnabled || Lookup(group2model2channels, g, m) == []
      ensures r.Ok? ==> r.value == Lookup(group2model2channels, g, m)
    {
      if !memoryCacheEnabled {
        return Err;
      }
      var channelsFromCache := Lookup(group2model2channels, g, m);
      if |channelsFromCache| == 0 {
        return Err;
      }
      return Ok(channelsFromCache);
    }
  }
}
