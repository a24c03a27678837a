/** Removing duplicate request-cost rows before the unique index is created, in its two forms:
    by row id in batches, and per request id where the table has no id column. */
module CostDedup {

  const BATCH_SIZE := 1000

  /** `marker` is the newest column the table has: updated_at, created_at, created_time or id. */
  datatype Row<Id> = Row(id: int, requestId: Id, marker: int)

  function Filter<Id>(rows: seq<Row<Id>>, keep: Row<Id> -> bool): (r: seq<Row<Id>>)
    ensures forall x :: x in r ==> x in rows && keep(x)
    ensures forall x :: x in rows && keep(x) ==> x in r
  {
    if rows == [] then []
    else
      (if keep(rows[0]) then [rows[0]] else []) + Filter(rows[1..], keep)
  }

  lemma {:induction false} FilterSame<Id>(rows: seq<Row<Id>>, f: Row<Id> -> bool, g: Row<Id> -> bool)
    requires forall x :: x in rows ==> f(x) == g(x)
    ensures Filter(rows, f) == Filter(rows, g)
  {
    if rows != [] {
      FilterSame(rows[1..], f, g);
    }
  }

  // ----- the conditions rows are kept on -----

  function Both<Id>(f: Row<Id> -> bool, g: Row<Id> -> bool): Row<Id> -> bool
  {
    r => f(r) && g(r)
  }

  function IdNotIn<Id>(ids: seq<int>): Row<Id> -> bool
  {
    (r: Row<Id>) => r.id !in ids
  }

  function NotBefore<Id(==)>(requestId: Id, marker: int): Row<Id> -> bool
  {
    (r: Row<Id>) => r.requestId != requestId || r.marker >= marker
  }

  function NotOlderThan<Id(==)>(latest: seq<(Id, int)>): Row<Id> -> bool
  {
    r => !OlderThanOneOf(r, latest)
  }

  function NewestOf<Id(==)>(all: seq<Row<Id>>): Row<Id> -> bool
  {
    r => Newest(all, r)
  }

  lemma {:induction false} FilterTwice<Id>(rows: seq<Row<Id>>, f: Row<Id> -> bool, g: Row<Id> -> bool)
    ensures Filter(Filter(rows, f), g) == Filter(rows, Both(f, g))
  {
    if rows != [] {
      FilterTwice(rows[1..], f, g);
      var rest := Filter(rows[1..], f);
      if f(rows[0]) {
        assert Filter(rows, f) == [rows[0]] + rest && ([rows[0]] + rest)[1..] == rest;
      } else {
        assert Filter(rows, f) == rest;
      }
    }
  }

  /** No row for the same request is newer. */
  predicate Newest<Id(==)>(all: seq<Row<Id>>, r: Row<Id>)
  {
    forall i :: 0 <= i < |all| && all[i].requestId == r.requestId ==> all[i].marker <= r.marker
  }

  /** The rows that ought to remain. */
  function Survivors<Id(==)>(rows: seq<Row<Id>>): seq<Row<Id>>
  {
    Filter(rows, NewestOf(rows))
  }

  ghost predicate UniqueIds<Id>(rows: seq<Row<Id>>)
  {
    forall x, y :: x in rows && y in rows && x.id == y.id ==> x == y
  }

  lemma TakeOneMore<T>(list: seq<T>, i: nat)
    requires i < |list|
    ensures list[..i+1] == list[..i] + [list[i]]
  {
  }

  lemma TakeAll<T>(list: seq<T>)
    ensures list[..|list|] == list
  {
  }

  class CostTable<Id(==)> {
    var rows: seq<Row<Id>>

    constructor (rows: seq<Row<Id>>)
      ensures this.rows == rows
    {
      this.rows := rows;
    }

    /** The ids of the rows that are older than another row of their request. */
    method StaleIds() returns (ids: seq<int>)
      ensures forall id :: id in ids <==> exists r :: r in rows && r.id == id && !Newest(rows, r)
    {
      ids := [];
      for i := 0 to |rows|
        invariant forall id :: id in ids <==> exists r :: r in rows[..i] && r.id == id && !Newest(rows, r)
      {
        assert rows[..i+1] == rows[..i] + [rows[i]];
        if !Newest(rows, rows[i]) {
          ids := ids + [rows[i].id];
        }
      }
      assert rows[..|rows|] == rows;
    }

    /** Deleting the stale rows by id, a batch at a time. */
    method DedupByIds()
      requires UniqueIds(rows)
      modifies this
      ensures rows == Survivors(old(rows))
    {
      ghost var before := rows;
      var staleIds := StaleIds();
      var start := 0;
      FilterAll(before, IdNotIn(staleIds[..0]));
      while start < |staleIds|
        invariant 0 <= start <= |staleIds|
        invariant rows == Filter(before, IdNotIn(staleIds[..start]))
      {
        var end := if start + BATCH_SIZE < |staleIds| then start + BATCH_SIZE else |staleIds|;
        var batch := staleIds[start..end];
        rows := Filter(rows, IdNotIn(batch));
        FilterTwice(before, IdNotIn(staleIds[..start]), IdNotIn(batch));
        assert staleIds[..end] == staleIds[..start] + batch;
        FilterSame(before, Both(IdNotIn(staleIds[..start]), IdNotIn(batch)), IdNotIn(staleIds[..end]));
        start := end;
      }
      assert staleIds[..start] == staleIds;
      FilterSame(before, IdNotIn(staleIds), NewestOf(before));
    }

    /** SELECT request_id, MAX(marker) ... GROUP BY request_id */
    method Latest() returns (keep: seq<(Id, int)>)
      ensures forall k :: 0 <= k < |keep| ==> IsMaxMarker(rows, keep[k].0, keep[k].1)
      ensures forall r :: r in rows ==> HasGroup(keep, r.requestId)
    {
      keep := [];
      for i := 0 to |rows|
        invariant GroupsOf(rows[..i], keep)
      {
        var row := rows[i];
        var at := PlaceOf(keep, row.requestId);
        MaxMarkersExtend(rows[..i], row, keep, at);
        keep := Regroup(keep, row, at);
        TakeOneMore(rows, i);
      }
      TakeAll(rows);
    }

    /** Deleting, request by request, the rows older than its newest marker. */
    method DedupByRequest()
      modifies this
      ensures rows == Survivors(old(rows))
    {
      ghost var before := rows;
      var keepRows := Latest();
      FilterAll(before, NotOlderThan(keepRows[..0]));
      for n := 0 to |keepRows|
        invariant rows == Filter(before, NotOlderThan(keepRows[..n]))
      {
        var (requestId, maxMarker) := keepRows[n];
        rows := Filter(rows, NotBefore(requestId, maxMarker));
        FilterTwice(before, NotOlderThan(keepRows[..n]), NotBefore(requestId, maxMarker));
        OneMoreRequest(before, keepRows, n);
      }
      assert keepRows[..|keepRows|] == keepRows;
      forall r | r in before ensures !OlderThanOneOf(r, keepRows) <==> Newest(before, r) {
        OlderIffNotNewest(before, keepRows, r);
      }
      FilterSame(before, NotOlderThan(keepRows), NewestOf(before));
    }
  }

  // ----- the form without ids -----

  /** The newest marker of a request among the rows. */
  predicate IsMaxMarker<Id(==)>(rows: seq<Row<Id>>, requestId: Id, marker: int)
  {
    && (exists i :: 0 <= i < |rows| && rows[i].requestId == requestId && rows[i].marker == marker)
    && forall i :: 0 <= i < |rows| && rows[i].requestId == requestId ==> rows[i].marker <= marker
  }

  /** One of the listed requests is the row's, with a newer marker. */
  predicate OlderThanOneOf<Id(==)>(r: Row<Id>, latest: seq<(Id, int)>)
  {
    exists k :: 0 <= k < |latest| && latest[k].0 == r.requestId && r.marker < latest[k].1
  }

  lemma OneMoreRequest<Id>(rows: seq<Row<Id>>, latest: seq<(Id, int)>, n: nat)
    requires n < |latest|
    ensures Filter(rows, Both(NotOlderThan(latest[..n]), NotBefore(latest[n].0, latest[n].1)))
         == Filter(rows, NotOlderThan(latest[..n+1]))
  {
    var more := latest[..n+1];
    assert more == latest[..n] + [latest[n]];
    forall r | r in rows
      ensures OlderThanOneOf(r, more) <==>
                OlderThanOneOf(r, latest[..n]) || (r.requestId == latest[n].0 && r.marker < latest[n].1)
    {
      if k :| 0 <= k < n && latest[..n][k].0 == r.requestId && r.marker < latest[..n][k].1 {
        assert more[k] == latest[..n][k];
      }
      assert more[n] == latest[n];
    }
    FilterSame(rows, Both(NotOlderThan(latest[..n]), NotBefore(latest[n].0, latest[n].1)), NotOlderThan(more));
  }

  lemma OlderIffNotNewest<Id>(rows: seq<Row<Id>>, latest: seq<(Id, int)>, r: Row<Id>)
    requires r in rows
    requires forall k :: 0 <= k < |latest| ==> IsMaxMarker(rows, latest[k].0, latest[k].1)
    requires forall x :: x in rows ==> HasGroup(latest, x.requestId)
    ensures OlderThanOneOf(r, latest) <==> !Newest(rows, r)
  {
    assert HasGroup(latest, r.requestId);
    var k :| 0 <= k < |latest| && latest[k].0 == r.requestId;
    var i :| 0 <= i < |rows| && rows[i].requestId == latest[k].0 && rows[i].marker == latest[k].1;
  }

  function Max(a: int, b: int): int
  {
    if a > b then a else b
  }

  /** The groups with one more row counted in, `at` being the place of its request. */
  function Regroup<Id(==)>(keep: seq<(Id, int)>, row: Row<Id>, at: nat): seq<(Id, int)>
    requires at <= |keep|
  {
    if at < |keep| then keep[at := (row.requestId, Max(keep[at].1, row.marker))]
    else keep + [(row.requestId, row.marker)]
  }

  function PlaceOf<Id(==)>(keep: seq<(Id, int)>, requestId: Id): (at: nat)
    ensures at <= |keep| && (at < |keep| ==> keep[at].0 == requestId)
    ensures at == |keep| ==> forall k :: 0 <= k < |keep| ==> keep[k].0 != requestId
  {
    if keep == [] then 0 else if keep[0].0 == requestId then 0 else 1 + PlaceOf(keep[1..], requestId)
  }

  /** One entry per request among the rows, with its newest marker. */
  ghost predicate GroupsOf<Id>(rows: seq<Row<Id>>, keep: seq<(Id, int)>)
  {
    && (forall k :: 0 <= k < |keep| ==> IsMaxMarker(rows, keep[k].0, keep[k].1))
    && (forall j, k :: 0 <= j < k < |keep| ==> keep[j].0 != keep[k].0)
    && (forall r :: r in rows ==> HasGroup(keep, r.requestId))
  }

  ghost predicate HasGroup<Id>(keep: seq<(Id, int)>, requestId: Id)
  {
    exists k :: 0 <= k < |keep| && keep[k].0 == requestId
  }

  lemma MarkersExtend<Id>(rows: seq<Row<Id>>, row: Row<Id>, requestId: Id, marker: int)
    requires IsMaxMarker(rows, requestId, marker)
    ensures IsMaxMarker(rows + [row], requestId, if requestId == row.requestId then Max(marker, row.marker) else marker)
  {
    var rows' := rows + [row];
    var i :| 0 <= i < |rows| && rows[i].requestId == requestId && rows[i].marker == marker;
    assert rows'[i] == rows[i] && rows'[|rows|] == row;
  }

  lemma MarkerStarts<Id>(rows: seq<Row<Id>>, row: Row<Id>)
    requires forall r :: r in rows ==> r.requestId != row.requestId
    ensures IsMaxMarker(rows + [row], row.requestId, row.marker)
  {
    assert (rows + [row])[|rows|] == row;
  }

  lemma MaxMarkersExtend<Id>(rows: seq<Row<Id>>, row: Row<Id>, keep: seq<(Id, int)>, at: nat)
    requires GroupsOf(rows, keep)
    requires at <= |keep| && (at < |keep| ==> keep[at].0 == row.requestId)
    requires at == |keep| ==> forall k :: 0 <= k < |keep| ==> keep[k].0 != row.requestId
    ensures GroupsOf(rows + [row], Regroup(keep, row, at))
  {
    var keep' := Regroup(keep, row, at);
    forall k | 0 <= k < |keep'| ensures IsMaxMarker(rows + [row], keep'[k].0, keep'[k].1) {
      if k < |keep| {
        MarkersExtend(rows, row, keep[k].0, keep[k].1);
      } else {
        forall r | r in rows ensures r.requestId != row.requestId {
          assert HasGroup(keep, r.requestId);
        }
        MarkerStarts(rows, row);
      }
    }
    forall r | r in rows + [row] ensures HasGroup(keep', r.requestId) {
      if r == row {
        assert keep'[at].0 == r.requestId;
      } else {
        assert HasGroup(keep, r.requestId);
        var k :| 0 <= k < |keep| && keep[k].0 == r.requestId;
        assert keep'[k].0 == r.requestId;
      }
    }
  }

  lemma {:induction false} FilterAll<Id>(rows: seq<Row<Id>>, keep: Row<Id> -> bool)
    requires forall x :: x in rows ==> keep(x)
    ensures Filter(rows, keep) == rows
  {
    if rows != [] {
      FilterAll(rows[1..], keep);
    }
  }

  // ----- what survives -----

  lemma {:induction false} NewestExists<Id>(all: seq<Row<Id>>, rows: seq<Row<Id>>, r: Row<Id>) returns (best: Row<Id>)
    requires r in all && r in rows
    ensures best in all && best in rows && best.requestId == r.requestId
    ensures forall x :: x in rows && x.requestId == r.requestId && x in all ==> x.marker <= best.marker
    decreases |rows|
  {
    var i :| 0 <= i < |rows| && rows[i] == r;
    var rest := rows[..i] + rows[i+1..];
    best := r;
    if x :| x in rest && x in all && x.requestId == r.requestId {
      var other := NewestExists(all, rest, x);
      if other.marker > r.marker {
        best := other;
      }
    }
    forall x | x in rows && x.requestId == r.requestId && x in all ensures x.marker <= best.marker {
      var k :| 0 <= k < |rows| && rows[k] == x;
      if k < i {
        assert rest[k] == x;
      } else if k > i {
        assert rest[k-1] == x;
      }
    }
  }

  /** Every request keeps a row, and only rows with its newest marker. */
  lemma SurvivorsCover<Id>(rows: seq<Row<Id>>, r: Row<Id>)
    requires r in rows
    ensures exists s :: s in Survivors(rows) && s.requestId == r.requestId
    ensures r in Survivors(rows) <==> forall x :: x in rows && x.requestId == r.requestId ==> x.marker <= r.marker
  {
    var best := NewestExists(rows, rows, r);
    forall i | 0 <= i < |rows| && rows[i].requestId == best.requestId ensures rows[i].marker <= best.marker {
      assert rows[i] in rows;
    }
    assert best in Survivors(rows);
    if forall x :: x in rows && x.requestId == r.requestId ==> x.marker <= r.marker {
      forall i | 0 <= i < |rows| && rows[i].requestId == r.requestId ensures rows[i].marker <= r.marker {
        assert rows[i] in rows;
      }
    }
  }

  ghost predicate DistinctRequests<Id>(rows: seq<Row<Id>>)
  {
    forall i, j :: 0 <= i < j < |rows| ==> rows[i].requestId != rows[j].requestId
  }

  ghost predicate DistinctAmong<Id>(rows: seq<Row<Id>>, keep: Row<Id> -> bool)
  {
    forall i, j :: 0 <= i < j < |rows| && keep(rows[i]) && keep(rows[j]) ==> rows[i].requestId != rows[j].requestId
  }

  ghost predicate AllAvoid<Id>(rows: seq<Row<Id>>, requestId: Id)
  {
    forall k :: 0 <= k < |rows| ==> rows[k].requestId != requestId
  }

  ghost predicate KeptAvoid<Id>(rows: seq<Row<Id>>, keep: Row<Id> -> bool, requestId: Id)
  {
    forall k :: 0 <= k < |rows| && keep(rows[k]) ==> rows[k].requestId != requestId
  }

  lemma DistinctCons<Id>(x: Row<Id>, rest: seq<Row<Id>>)
    ensures DistinctRequests([x] + rest) <==>
              DistinctRequests(rest) && AllAvoid(rest, x.requestId)
  {
    var r := [x] + rest;
    assert forall k :: 0 <= k < |rest| ==> r[k+1] == rest[k];
    if DistinctRequests(r) {
      forall i, j | 0 <= i < j < |rest| ensures rest[i].requestId != rest[j].requestId {
        assert r[i+1].requestId != r[j+1].requestId;
      }
      forall k | 0 <= k < |rest| ensures rest[k].requestId != x.requestId {
        assert r[0].requestId != r[k+1].requestId;
      }
    }
  }

  lemma DistinctAmongCons<Id>(rows: seq<Row<Id>>, keep: Row<Id> -> bool)
    requires rows != []
    ensures DistinctAmong(rows, keep) <==>
              DistinctAmong(rows[1..], keep)
              && (keep(rows[0]) ==> KeptAvoid(rows[1..], keep, rows[0].requestId))
  {
    var tail := rows[1..];
    assert forall k :: 0 <= k < |tail| ==> tail[k] == rows[k+1];
    if DistinctAmong(rows, keep) {
      forall i, j | 0 <= i < j < |tail| && keep(tail[i]) && keep(tail[j])
        ensures tail[i].requestId != tail[j].requestId
      {
        assert keep(rows[i+1]) && keep(rows[j+1]);
      }
    }
  }

  lemma {:induction false} FilterDistinctIff<Id>(rows: seq<Row<Id>>, keep: Row<Id> -> bool)
    ensures DistinctRequests(Filter(rows, keep)) <==> DistinctAmong(rows, keep)
  {
    if rows != [] {
      var tail, rest := rows[1..], Filter(rows[1..], keep);
      FilterDistinctIff(tail, keep);
      DistinctAmongCons(rows, keep);
      if keep(rows[0]) {
        DistinctCons(rows[0], rest);
        FilterAvoids(tail, keep, rows[0].requestId);
        assert Filter(rows, keep) == [rows[0]] + rest;
      } else {
        assert Filter(rows, keep) == rest;
      }
    }
  }

  lemma FilterAvoids<Id>(rows: seq<Row<Id>>, keep: Row<Id> -> bool, requestId: Id)
    ensures AllAvoid(Filter(rows, keep), requestId) <==> KeptAvoid(rows, keep, requestId)
  {
    var rest := Filter(rows, keep);
    if AllAvoid(rest, requestId) {
      forall n | 0 <= n < |rows| && keep(rows[n]) ensures rows[n].requestId != requestId {
        assert rows[n] in rows;
        assert rows[n] in rest;
      }
    }
    if KeptAvoid(rows, keep, requestId) {
      forall k | 0 <= k < |rest| ensures rest[k].requestId != requestId {
        assert rest[k] in rest;
        assert rest[k] in rows;
      }
    }
  }

  predicate SameMarker<Id(==)>(r: Row<Id>, s: Row<Id>)
  {
    r.requestId == s.requestId && r.marker == s.marker
  }

  /** The unique index can be created after the removal exactly when no request has its newest marker twice. */
  lemma IndexPossibleIff<Id>(rows: seq<Row<Id>>)
    ensures DistinctRequests(Survivors(rows)) <==>
              forall i, j :: 0 <= i < j < |rows| && SameMarker(rows[i], rows[j]) ==> !Newest(rows, rows[i])
  {
    FilterDistinctIff(rows, NewestOf(rows));
  }

  /** Two rows of one request with the same marker both survive. */
  lemma TieBlocksIndex(requestId: string, marker: int)
    ensures !DistinctRequests(Survivors([Row(1, requestId, marker), Row(2, requestId, marker)]))
  {
    var rows := [Row(1, requestId, marker), Row(2, requestId, marker)];
    assert SameMarker(rows[0], rows[1]) && Newest(rows, rows[0]);
    IndexPossibleIff(rows);
  }
}
