/** The ability table: how its rows are created, recreated and suspended. */
module AbilityTable {
  import opened Wrappers
  import opened Text
  import opened Channels

  predicate Distinct(names: seq<string>)
  {
    forall i, j :: 0 <= i < j < |names| ==> names[i] != names[j]
  }

  /** The row created for one group and model of a channel; the priority column defaults to 0. */
  function NewRow(c: Channel, g: string, m: string): Ability
  {
    Ability(g, m, c.id, c.status == STATUS_ENABLED, Some(c.Priority()), None)
  }

  /** A new row is enabled exactly when its channel is, is not suspended, and has the channel's priority, or 0 when that
      is missing. */
  lemma NewRowIs(c: Channel, g: string, m: string)
    ensures var row := NewRow(c, g, m);
            && row.grp == g && row.model == m && row.channelId == c.id && row.suspendUntil == None
            && (row.enabled <==> c.status == 1)
            && (c.priority.Some? ==> row.priority == c.priority) && (c.priority.None? ==> row.priority == Some(0))
  {
  }

  function RowsForModel(c: Channel, groups: seq<string>, m: string): seq<Ability>
  {
    seq(|groups|, i requires 0 <= i < |groups| => NewRow(c, groups[i], m))
  }

  lemma RowsForModelUnique(c: Channel, groups: seq<string>, m: string)
    ensures UniqueRows(RowsForModel(c, groups, m)) <==> Distinct(groups)
  {
    var rows := RowsForModel(c, groups, m);
    if i, j :| 0 <= i < j < |groups| && groups[i] == groups[j] {
      assert rows[j].Is(rows[i].grp, rows[i].model, rows[i].channelId);
    }
  }

  lemma UniqueConcat(a: seq<Ability>, b: seq<Ability>)
    requires forall x, y :: x in a && y in b ==> !y.Is(x.grp, x.model, x.channelId)
    ensures UniqueRows(a + b) <==> UniqueRows(a) && UniqueRows(b)
  {
    if UniqueRows(a + b) {
      forall i, j | 0 <= i < j < |b| ensures !b[j].Is(b[i].grp, b[i].model, b[i].channelId) {
        assert (a + b)[|a|+i] == b[i] && (a + b)[|a|+j] == b[j];
      }
      forall i, j | 0 <= i < j < |a| ensures !a[j].Is(a[i].grp, a[i].model, a[i].channelId) {
        assert (a + b)[i] == a[i] && (a + b)[j] == a[j];
      }
    }
    if UniqueRows(a) && UniqueRows(b) {
      forall i, j | 0 <= i < j < |a + b|
        ensures !(a + b)[j].Is((a + b)[i].grp, (a + b)[i].model, (a + b)[i].channelId)
      {
        if i < |a| <= j {
          assert (a + b)[i] in a && (a + b)[j] in b;
        }
      }
    }
  }

  /** The names without repetition. */
  method DeDuplication(names: seq<string>) returns (r: seq<string>)
    ensures Distinct(r) && forall s :: s in r <==> s in names
  {
    r := [];
    for i := 0 to |names|
      invariant Distinct(r) && forall s :: s in r <==> s in names[..i]
    {
      assert names[..i+1] == names[..i] + [names[i]];
      if names[i] !in r {
        r := r + [names[i]];
      }
    }
    assert names[..|names|] == names;
  }

  /** Setting the suspension of one ability. */
  function Suspended(rows: seq<Ability>, g: string, m: string, id: int, until: int): (r: seq<Ability>)
    ensures |r| == |rows|
  {
    seq(|rows|, i requires 0 <= i < |rows| =>
      if rows[i].Is(g, m, id) then rows[i].(suspendUntil := Some(until)) else rows[i])
  }

  /** Setting whether the abilities of a channel are enabled. */
  function Switched(rows: seq<Ability>, id: int, status: bool): (r: seq<Ability>)
    ensures |r| == |rows|
  {
    seq(|rows|, i requires 0 <= i < |rows| => if rows[i].channelId == id then rows[i].(enabled := status) else rows[i])
  }

  class Table {
    var rows: seq<Ability>

    ghost predicate Valid()
      reads this
    {
      UniqueRows(rows)
    }

    constructor ()
      ensures Valid() && rows == []
    {
      rows := [];
    }

    /** Insertion is all or nothing: it fails when it would break the primary key, or for reasons of the database. */
    method Create(abilities: seq<Ability>, fails: bool) returns (ok: bool)
      modifies this
      ensures ok <==> !fails && UniqueRows(old(rows) + abilities)
      ensures rows == if ok then old(rows) + abilities else old(rows)
    {
      ok := !fails && UniqueRows(rows + abilities);
      if ok {
        rows := rows + abilities;
      }
    }

    /** Adds one row per declared group and model. It fails, adding nothing, exactly when the channel
        repeats a group, already has a row for something it declares, or the database fails. */
    method AddAbilities(c: Channel, fails: bool) returns (ok: bool)
      requires Valid()
      modifies this
      ensures Valid()
      ensures ok <==> !fails && Distinct(c.Groups())
                      && forall a :: a in old(rows) && a.channelId == c.id ==> !c.Declares(a.grp, a.model)
      ensures ok ==> old(rows) <= rows
      ensures ok ==>
                forall a :: a in rows[|old(rows)|..] <==> c.Declares(a.grp, a.model) && a == NewRow(c, a.grp, a.model)
      ensures !ok ==> rows == old(rows)
    {
      var models := DeDuplication(c.Models());
      var groups := c.Groups();
      assert models != [] by {
        assert c.Models()[0] in models;
      }
      var abilities: seq<Ability> := [];
      for i := 0 to |models|
        invariant forall a :: a in abilities <==>
                    a.grp in groups && a.model in models[..i] && a == NewRow(c, a.grp, a.model)
        invariant UniqueRows(abilities) <==> i == 0 || Distinct(groups)
        invariant rows == old(rows)
      {
        var block := RowsForModel(c, groups, models[i]);
        assert models[..i+1] == models[..i] + [models[i]];
        forall a ensures a in block <==> a.grp in groups && a.model == models[i] && a == NewRow(c, a.grp, a.model) {
          if a.grp in groups && a == NewRow(c, a.grp, models[i]) {
            var k :| 0 <= k < |groups| && groups[k] == a.grp;
            assert block[k] == a;
          }
        }
        RowsForModelUnique(c, groups, models[i]);
        UniqueConcat(abilities, block);
        abilities := abilities + block;
      }
      assert models[..|models|] == models;
      forall a ensures a in abilities <==> c.Declares(a.grp, a.model) && a == NewRow(c, a.grp, a.model) {
      }
      Conflicts(rows, c, abilities);
      ok := Create(abilities, fails);
      assert ok ==> rows[|old(rows)|..] == abilities;
    }

    /** Recreates the rows of a channel, lifting every suspension. If the channel repeats a group or the
        insertion fails, its old rows are gone all the same. */
    method UpdateAbilities(c: Channel, deleteFails: bool, createFails: bool) returns (ok: bool)
      requires Valid()
      modifies this
      ensures Valid()
      ensures ok <==> !deleteFails && !createFails && Distinct(c.Groups())
      ensures forall a :: a in rows <==>
                || (a in old(rows) && (deleteFails || a.channelId != c.id))
                || (ok && c.Declares(a.grp, a.model) && a == NewRow(c, a.grp, a.model))
    {
      ok := DeleteAbilities(c.id, deleteFails);
      if !ok {
        return;
      }
      ghost var kept := rows;
      ok := AddAbilities(c, createFails);
      assert ok ==> rows == kept + rows[|kept|..];
    }

    method DeleteAbilities(id: int, fails: bool) returns (ok: bool)
      requires Valid()
      modifies this
      ensures Valid() && ok == !fails
      ensures forall a :: a in rows <==> a in old(rows) && (fails || a.channelId != id)
    {
      if fails {
        return false;
      }
      var kept: seq<Ability> := [];
      for i := 0 to |rows|
        invariant rows == old(rows)
        invariant UniqueRows(kept)
        invariant forall a :: a in kept <==> a in rows[..i] && a.channelId != id
      {
        assert rows[..i+1] == rows[..i] + [rows[i]];
        if rows[i].channelId != id {
          forall x | x in kept ensures !rows[i].Is(x.grp, x.model, x.channelId) {
            assert x in rows[..i];
          }
          kept := kept + [rows[i]];
        }
      }
      assert rows[..|rows|] == rows;
      rows := kept;
      return true;
    }

    /** Enables or disables every ability of a channel. */
    method UpdateAbilityStatus(id: int, status: bool, fails: bool) returns (ok: bool)
      requires Valid()
      modifies this
      ensures Valid() && ok == !fails
      ensures rows == if ok then Switched(old(rows), id, status) else old(rows)
    {
      if fails {
        return false;
      }
      rows := Switched(rows, id, status);
      return true;
    }

    /** Suspends one ability until the given time. */
    method SuspendAbility(g: string, m: string, id: int, now: int, duration: int, fails: bool) returns (ok: bool)
      requires Valid()
      modifies this
      ensures Valid()
      ensures ok <==> g != "" && m != "" && id != 0 && !fails
      ensures rows == if ok then Suspended(old(rows), g, m, id, now + duration) else old(rows)
    {
      if g == "" || m == "" || id == 0 || fails {
        return false;
      }
      rows := Suspended(rows, g, m, id, now + duration);
      return true;
    }
  }

  lemma Conflicts(rows: seq<Ability>, c: Channel, abilities: seq<Ability>)
    requires UniqueRows(rows)
    requires forall a :: a in abilities <==> c.Declares(a.grp, a.model) && a == NewRow(c, a.grp, a.model)
    ensures UniqueRows(rows + abilities) <==>
              UniqueRows(abilities) && forall a :: a in rows && a.channelId == c.id ==> !c.Declares(a.grp, a.model)
  {
    if x :| x in rows && x.channelId == c.id && c.Declares(x.grp, x.model) {
      var y := NewRow(c, x.grp, x.model);
      assert y in abilities;
      var i :| 0 <= i < |rows| && rows[i] == x;
      var j :| 0 <= j < |abilities| && abilities[j] == y;
      var all := rows + abilities;
      assert all[i] == x && all[|rows|+j] == y;
      assert all[|rows|+j].Is(all[i].grp, all[i].model, all[i].channelId);
    } else {
      forall x, y | x in rows && y in abilities ensures !y.Is(x.grp, x.model, x.channelId) {
      }
      UniqueConcat(rows, abilities);
    }
  }

  // ----- rows and channels in sync -----

  /** Every row of another channel agrees with that channel. */
  ghost predicate OthersInSync(channels: seq<Channel>, rows: seq<Ability>, id: int)
  {
    && UniqueIds(channels)
    && forall a :: a in rows && a.channelId != id ==> exists c :: c in channels && Matches(a, c)
  }

  lemma NewRowMatches(c: Channel, a: Ability)
    requires c.Declares(a.grp, a.model) && a == NewRow(c, a.grp, a.model)
    ensures Matches(a, c)
  {
  }

  /** Adding the rows of a channel neither brings rows and channels in sync nor puts them out of it. */
  lemma AddKeepsSync(channels: seq<Channel>, rows: seq<Ability>, added: seq<Ability>, c: Channel)
    requires c in channels
    requires forall a :: a in added ==> c.Declares(a.grp, a.model) && a == NewRow(c, a.grp, a.model)
    ensures InSync(channels, rows + added) <==> InSync(channels, rows)
  {
    forall a | a in added ensures Matches(a, c) {
      NewRowMatches(c, a);
    }
    if InSync(channels, rows + added) {
      forall a | a in rows ensures exists d :: d in channels && Matches(a, d) {
        assert a in rows + added;
      }
    }
  }

  /** Whatever a channel has become, recreating its rows brings rows and channels in sync, even if the insertion fails,
      if and only if the rows of the other channels were; when the old rows cannot be deleted, nothing changes. */
  lemma UpdateRestoresSyncIff(channels: seq<Channel>, rows: seq<Ability>, after: seq<Ability>, c: Channel,
                              deletes: bool, ok: bool)
    requires c in channels && (ok ==> deletes)
    requires forall a :: a in after <==>
               || (a in rows && (!deletes || a.channelId != c.id))
               || (ok && c.Declares(a.grp, a.model) && a == NewRow(c, a.grp, a.model))
    ensures InSync(channels, after) <==> if deletes then OthersInSync(channels, rows, c.id) else InSync(channels, rows)
  {
    forall a: Ability | c.Declares(a.grp, a.model) && a == NewRow(c, a.grp, a.model) ensures Matches(a, c) {
      NewRowMatches(c, a);
    }
    if InSync(channels, after) {
      forall a | a in rows && (!deletes || a.channelId != c.id) ensures exists d :: d in channels && Matches(a, d) {
        assert a in after;
      }
    }
  }

  /** A suspension leaves rows and channels in sync, or out of it. */
  lemma SuspendKeepsSync(channels: seq<Channel>, rows: seq<Ability>, g: string, m: string, id: int, until: int)
    ensures InSync(channels, Suspended(rows, g, m, id, until)) <==> InSync(channels, rows)
  {
    var after := Suspended(rows, g, m, id, until);
    forall i | 0 <= i < |rows| ensures after[i] in after && rows[i] in rows {
    }
    forall i, c | 0 <= i < |rows| ensures Matches(after[i], c) <==> Matches(rows[i], c) {
    }
    if InSync(channels, rows) {
      forall a | a in after ensures exists c :: c in channels && Matches(a, c) {
        var i :| 0 <= i < |after| && after[i] == a;
        var c :| c in channels && Matches(rows[i], c);
        assert Matches(after[i], c);
      }
    }
    if InSync(channels, after) {
      forall a | a in rows ensures exists c :: c in channels && Matches(a, c) {
        var i :| 0 <= i < |rows| && rows[i] == a;
        var c :| c in channels && Matches(after[i], c);
        assert Matches(rows[i], c);
      }
    }
  }

  /** A channel's new status and the switch of its rows go together. */
  lemma SwitchKeepsSync(channels: seq<Channel>, rows: seq<Ability>, i: nat, status: int)
    requires i < |channels| && InSync(channels, rows)
    requires forall j :: 0 <= j < |channels| && j != i ==> channels[j].id != channels[i].id
    ensures InSync(channels[i := channels[i].(status := status)],
                   Switched(rows, channels[i].id, status == STATUS_ENABLED))
  {
    var c := channels[i].(status := status);
    var channels', after := channels[i := c], Switched(rows, c.id, status == STATUS_ENABLED);
    forall a | a in after ensures exists d :: d in channels' && Matches(a, d) {
      var k :| 0 <= k < |after| && after[k] == a;
      assert rows[k] in rows;
      var d :| d in channels && Matches(rows[k], d);
      var j :| 0 <= j < |channels| && channels[j] == d;
      assert channels'[j] in channels' && Matches(a, channels'[j]);
    }
    assert UniqueIds(channels');
  }

  // ----- suspension and the index -----

  /** A suspended ability serves at no time up to the end of the suspension and at every later time;
      nothing else about the tables changes what is served. */
  lemma ServesWhenSuspended(channels: seq<Channel>, rows: seq<Ability>, g: string, m: string, c: Channel, until: int,
                            now: int, g': string, m': string, c': Channel)
    requires UniqueRows(rows)
    ensures var after := Suspended(rows, g, m, c.id, until);
            Serves(channels, after, now, c', g', m') <==>
              if g' == g && m' == m && c'.id == c.id
              then until < now && c' in channels && c'.status == STATUS_ENABLED && c'.Declares(g, m)
                   && exists a :: a in rows && a.Is(g, m, c.id) && a.enabled
              else Serves(channels, rows, now, c', g', m')
  {
    var after := Suspended(rows, g, m, c.id, until);
    if g' == g && m' == m && c'.id == c.id {
      if i :| 0 <= i < |rows| && rows[i].Is(g, m, c.id) && rows[i].enabled {
        assert after[i] in after && after[i].Is(g, m, c.id);
        assert until < now ==> after[i].Usable(now);
      }
      forall a | a in after && a.Is(g, m, c.id)
        ensures a.suspendUntil == Some(until) && exists b :: b in rows && b.Is(g, m, c.id) && b.enabled == a.enabled
      {
        var i :| 0 <= i < |after| && after[i] == a;
        assert rows[i] in rows;
      }
    } else {
      forall a: Ability | a.Is(g', m', c'.id) ensures a in after <==> a in rows {
        if a in rows {
          var i :| 0 <= i < |rows| && rows[i] == a;
          assert after[i] == a;
        }
      }
    }
  }

  /** Recreating a channel's rows lifts the suspension at once. */
  lemma ServesWhenRecreated(channels: seq<Channel>, rows: seq<Ability>, c: Channel, g: string, m: string, now: int)
    requires c in channels && c.Declares(g, m) && NewRow(c, g, m) in rows
    ensures Serves(channels, rows, now, c, g, m) <==> c.status == STATUS_ENABLED
  {
    assert NewRow(c, g, m).Is(g, m, c.id);
    if c.status == STATUS_ENABLED {
      assert NewRow(c, g, m).Usable(now);
    }
  }
}
