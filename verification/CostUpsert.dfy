/** The lock-free upsert of a request's cost: update, else create, else update again, by any number of
    concurrent calls, over a table with a unique index on the request id whose old rows are pruned. */
module CostUpsert {
  import opened Wrappers

  /** Rows are pruned once they are older than this. */
  const WEEK := 3600 * 24 * 7

  datatype Row<Id> = Row(requestId: Id, quota: int, createdTime: int)

  datatype Call<Id> = Call(requestId: Id, quota: int)

  /** Where a call stands, and since when if it has found no row. A call that is `Lost` has returned without error
      and without having written. */
  datatype Stage = Updating | Creating(since: int) | Retrying(since: int) | Done | Lost | Failed

  /** The table, the stage of every call, and the calls that have written, in order. */
  datatype State<Id> = State(rows: seq<Row<Id>>, stages: seq<Stage>, writes: seq<nat>)

  /** One database statement of one call, or a round of pruning. A statement may fail; creating also fails, without
      help, when the index forbids it. The stamp of a new row and the time pruning goes by are read before their
      statement. */
  datatype Step = Update(at: int, call: nat, fails: bool)
                | Create(at: int, call: nat, fails: bool, stamp: int)
                | Retry(at: int, call: nat, fails: bool)
                | Prune(at: int, asOf: int)

  predicate HasRow<Id(==)>(rows: seq<Row<Id>>, id: Id)
  {
    exists i :: 0 <= i < |rows| && rows[i].requestId == id
  }

  /** UPDATE ... SET quota WHERE request_id = id */
  function SetQuota<Id(==)>(rows: seq<Row<Id>>, id: Id, quota: int): (r: seq<Row<Id>>)
    ensures |r| == |rows|
  {
    seq(|rows|, i requires 0 <= i < |rows| => if rows[i].requestId == id then rows[i].(quota := quota) else rows[i])
  }

  /** DELETE ... WHERE created_time < cutoff */
  function Kept<Id>(rows: seq<Row<Id>>, cutoff: int): (r: seq<Row<Id>>)
    ensures forall i :: 0 <= i < |r| ==> r[i] in rows && r[i].createdTime >= cutoff
    ensures forall i :: 0 <= i < |rows| && rows[i].createdTime >= cutoff ==> rows[i] in r
  {
    if rows == [] then []
    else
      var last := rows[|rows|-1];
      Kept(rows[..|rows|-1], cutoff) + if last.createdTime >= cutoff then [last] else []
  }

  function Init<Id>(calls: seq<Call<Id>>): State<Id>
  {
    State([], seq(|calls|, i => Updating), [])
  }

  /** The state after one step; a step that is not due changes nothing. */
  function Apply<Id(==)>(calls: seq<Call<Id>>, s: State<Id>, step: Step): (r: State<Id>)
    requires |s.stages| == |calls|
    ensures |r.stages| == |calls|
  {
    if step.Prune? then s.(rows := Kept(s.rows, step.asOf - WEEK))
    else
      var t := step.call;
      if t >= |calls| then s
      else
        var id, quota := calls[t].requestId, calls[t].quota;
        var written := s.(rows := SetQuota(s.rows, id, quota), stages := s.stages[t := Done], writes := s.writes + [t]);
        match step
        case Update(at, _, fails) =>
          if !s.stages[t].Updating? then s
          else if fails then s.(stages := s.stages[t := Failed])
          else if HasRow(s.rows, id) then written
          else s.(stages := s.stages[t := Creating(at)])
        case Create(_, _, fails, stamp) =>
          if !s.stages[t].Creating? then s
          else if fails || HasRow(s.rows, id) then s.(stages := s.stages[t := Retrying(s.stages[t].since)])
          else State(s.rows + [Row(id, quota, stamp)], s.stages[t := Done], s.writes + [t])
        case Retry(_, _, fails) =>
          if !s.stages[t].Retrying? then s
          else if fails then s.(stages := s.stages[t := Failed])
          else if HasRow(s.rows, id) then written
          else s.(stages := s.stages[t := Lost])
  }

  /** The state after any interleaving of steps. */
  function Run<Id(==)>(calls: seq<Call<Id>>, steps: seq<Step>): (r: State<Id>)
    ensures |r.stages| == |calls|
  {
    if steps == [] then Init(calls) else Apply(calls, Run(calls, steps[..|steps|-1]), steps[|steps|-1])
  }

  /** The call that wrote last for a request id. */
  ghost function LastWriter<Id>(calls: seq<Call<Id>>, writes: seq<nat>, id: Id): Option<nat>
  {
    if writes == [] then None
    else
      var t := writes[|writes|-1];
      if t < |calls| && calls[t].requestId == id then Some(t) else LastWriter(calls, writes[..|writes|-1], id)
  }

  lemma LastWriterAppend<Id>(calls: seq<Call<Id>>, writes: seq<nat>, t: nat, id: Id)
    ensures LastWriter(calls, writes + [t], id)
         == if t < |calls| && calls[t].requestId == id then Some(t) else LastWriter(calls, writes, id)
  {
    assert (writes + [t])[..|writes|] == writes;
  }

  lemma {:induction false} LastWriterIn<Id>(calls: seq<Call<Id>>, writes: seq<nat>, id: Id)
    ensures var w := LastWriter(calls, writes, id);
            w.Some? ==> w.value in writes && w.value < |calls| && calls[w.value].requestId == id
  {
    if writes != [] {
      LastWriterIn(calls, writes[..|writes|-1], id);
    }
  }

  /** A row carries the quota of the last write for its request id. */
  ghost predicate RowCurrent<Id>(calls: seq<Call<Id>>, writes: seq<nat>, row: Row<Id>)
  {
    var w := LastWriter(calls, writes, row.requestId);
    w.Some? && w.value < |calls| && row.quota == calls[w.value].quota
  }

  /** What every interleaving keeps, whatever is pruned and whatever fails: the rows have distinct ids and are
      current, and the calls that have written are exactly the ones that are done, once each. */
  ghost predicate Consistent<Id>(calls: seq<Call<Id>>, s: State<Id>)
  {
    && |s.stages| == |calls|
    && (forall i, j :: 0 <= i < j < |s.rows| ==> s.rows[i].requestId != s.rows[j].requestId)
    && (forall i :: 0 <= i < |s.rows| ==> RowCurrent(calls, s.writes, s.rows[i]))
    && (forall i :: 0 <= i < |s.writes| ==> s.writes[i] < |calls|)
    && (forall i, j :: 0 <= i < j < |s.writes| ==> s.writes[i] != s.writes[j])
    && (forall t :: 0 <= t < |calls| ==> (t in s.writes <==> s.stages[t].Done?))
  }

  lemma WriteKeepsConsistent<Id>(calls: seq<Call<Id>>, s: State<Id>, t: nat, stamp: int)
    requires Consistent(calls, s) && t < |calls| && !s.stages[t].Done?
    ensures Consistent(calls, State(SetQuota(s.rows, calls[t].requestId, calls[t].quota),
                                    s.stages[t := Done], s.writes + [t]))
    ensures !HasRow(s.rows, calls[t].requestId) ==>
              Consistent(calls, State(s.rows + [Row(calls[t].requestId, calls[t].quota, stamp)],
                                      s.stages[t := Done], s.writes + [t]))
  {
    forall id ensures LastWriter(calls, s.writes + [t], id)
                   == if calls[t].requestId == id then Some(t) else LastWriter(calls, s.writes, id)
    {
      LastWriterAppend(calls, s.writes, t, id);
    }
    var rows := SetQuota(s.rows, calls[t].requestId, calls[t].quota);
    forall i | 0 <= i < |rows| ensures RowCurrent(calls, s.writes + [t], rows[i]) {
      assert RowCurrent(calls, s.writes, s.rows[i]);
    }
    if !HasRow(s.rows, calls[t].requestId) {
      forall i | 0 <= i < |s.rows| ensures RowCurrent(calls, s.writes + [t], s.rows[i]) {
        assert RowCurrent(calls, s.writes, s.rows[i]);
      }
    }
  }

  predicate DistinctIds<Id(==)>(rows: seq<Row<Id>>)
  {
    forall i, j :: 0 <= i < j < |rows| ==> rows[i].requestId != rows[j].requestId
  }

  lemma {:induction false} KeptDistinct<Id>(rows: seq<Row<Id>>, cutoff: int)
    requires DistinctIds(rows)
    ensures DistinctIds(Kept(rows, cutoff))
  {
    if rows != [] {
      var init := rows[..|rows|-1];
      KeptDistinct(init, cutoff);
      var kept := Kept(init, cutoff);
      forall i | 0 <= i < |kept| ensures kept[i].requestId != rows[|rows|-1].requestId {
        assert kept[i] in init;
      }
    }
  }

  lemma PruneKeepsConsistent<Id>(calls: seq<Call<Id>>, s: State<Id>, cutoff: int)
    requires Consistent(calls, s)
    ensures Consistent(calls, s.(rows := Kept(s.rows, cutoff)))
  {
    KeptDistinct(s.rows, cutoff);
    var kept := Kept(s.rows, cutoff);
    forall i | 0 <= i < |kept| ensures RowCurrent(calls, s.writes, kept[i]) {
      assert kept[i] in s.rows;
    }
  }

  lemma StepKeepsConsistent<Id>(calls: seq<Call<Id>>, s: State<Id>, step: Step)
    requires Consistent(calls, s)
    ensures Consistent(calls, Apply(calls, s, step))
  {
    if step.Prune? {
      PruneKeepsConsistent(calls, s, step.asOf - WEEK);
    } else if step.call < |calls| && !s.stages[step.call].Done? {
      WriteKeepsConsistent(calls, s, step.call, if step.Create? then step.stamp else 0);
    }
  }

  lemma {:induction false} RunConsistent<Id>(calls: seq<Call<Id>>, steps: seq<Step>)
    ensures Consistent(calls, Run(calls, steps))
  {
    if steps != [] {
      RunConsistent(calls, steps[..|steps|-1]);
      StepKeepsConsistent(calls, Run(calls, steps[..|steps|-1]), steps[|steps|-1]);
    }
  }

  /** In every interleaving, disturbed or not: at most one row per request id, carrying the quota of the last
      write for its id; and the calls that are done are the ones that have written, once each. */
  lemma AtMostOneRowAndOneWrite<Id>(calls: seq<Call<Id>>, steps: seq<Step>)
    ensures var s := Run(calls, steps);
            && (forall i, j :: 0 <= i < |s.rows| && 0 <= j < |s.rows| ==>
                  (s.rows[i].requestId == s.rows[j].requestId ==> i == j))
            && (forall i :: 0 <= i < |s.rows| ==> RowCurrent(calls, s.writes, s.rows[i]))
            && (forall i, j :: 0 <= i < |s.writes| && 0 <= j < |s.writes| && s.writes[i] == s.writes[j] ==> i == j)
            && (forall t :: 0 <= t < |calls| ==> (t in s.writes <==> s.stages[t].Done?))
  {
    RunConsistent(calls, steps);
  }

  // ----- the rows of one request -----

  lemma SetQuotaKeepsRows<Id>(rows: seq<Row<Id>>, id: Id, quota: int, other: Id)
    ensures HasRow(SetQuota(rows, id, quota), other) <==> HasRow(rows, other)
  {
    var after := SetQuota(rows, id, quota);
    if i :| 0 <= i < |rows| && rows[i].requestId == other {
      assert after[i].requestId == other;
    }
  }

  lemma AppendKeepsRows<Id>(rows: seq<Row<Id>>, row: Row<Id>, other: Id)
    ensures HasRow(rows + [row], other) <==> HasRow(rows, other) || row.requestId == other
  {
    var after := rows + [row];
    if i :| 0 <= i < |rows| && rows[i].requestId == other {
      assert after[i].requestId == other;
    }
    assert after[|rows|] == row;
  }

  /** Every row of the request was created at this time or later. */
  ghost predicate NotBefore<Id>(rows: seq<Row<Id>>, id: Id, oldest: int)
  {
    forall i :: 0 <= i < |rows| && rows[i].requestId == id ==> rows[i].createdTime >= oldest
  }

  /** What one step does to the rows of a request: it adds none but by creating one, and it prunes none that was
      created less than a week before. */
  lemma RowsAfterStep<Id>(calls: seq<Call<Id>>, s: State<Id>, step: Step, id: Id, oldest: int)
    requires |s.stages| == |calls| && NotBefore(s.rows, id, oldest)
    requires step.Create? && step.call < |calls| && calls[step.call].requestId == id ==> step.stamp >= oldest
    ensures NotBefore(Apply(calls, s, step).rows, id, oldest)
    ensures HasRow(s.rows, id) && (step.Prune? ==> step.asOf - WEEK <= oldest) ==>
              HasRow(Apply(calls, s, step).rows, id)
  {
    if step.Prune? {
      PruneKeeps(s.rows, step.asOf - WEEK, id, oldest);
    } else if step.call < |calls| {
      var call := calls[step.call];
      SetQuotaKeepsRows(s.rows, call.requestId, call.quota, id);
      AppendKeepsRows(s.rows, Row(call.requestId, call.quota, if step.Create? then step.stamp else 0), id);
    }
  }

  lemma PruneKeeps<Id>(rows: seq<Row<Id>>, cutoff: int, id: Id, oldest: int)
    requires NotBefore(rows, id, oldest)
    ensures NotBefore(Kept(rows, cutoff), id, oldest)
    ensures HasRow(rows, id) && cutoff <= oldest ==> HasRow(Kept(rows, cutoff), id)
  {
    var kept := Kept(rows, cutoff);
    forall i | 0 <= i < |kept| && kept[i].requestId == id ensures kept[i].createdTime >= oldest {
      assert kept[i] in rows;
    }
    if i :| cutoff <= oldest && 0 <= i < |rows| && rows[i].requestId == id {
      assert rows[i] in kept;
    }
  }

  /** As far as the request goes, creating fails only when the index forbids it, and pruning comes too early for any
      of its rows, the oldest of which is created at this time. */
  predicate Undisturbed<Id(==)>(calls: seq<Call<Id>>, steps: seq<Step>, id: Id, oldest: int)
  {
    forall i :: 0 <= i < |steps| ==>
      && (steps[i].Prune? ==> steps[i].asOf - WEEK <= oldest)
      && (steps[i].Create? && steps[i].call < |calls| && calls[steps[i].call].requestId == id ==>
            !steps[i].fails && steps[i].stamp >= oldest)
  }

  /** In an undisturbed run, a row once written stays, and a call about to retry has a row to update. */
  ghost predicate Steady<Id>(calls: seq<Call<Id>>, s: State<Id>, id: Id, oldest: int)
  {
    && |s.stages| == |calls| && NotBefore(s.rows, id, oldest)
    && (forall t :: 0 <= t < |calls| && calls[t].requestId == id ==>
          && !s.stages[t].Lost?
          && (t in s.writes || s.stages[t].Retrying? ==> HasRow(s.rows, id)))
  }

  lemma StepKeepsSteady<Id>(calls: seq<Call<Id>>, s: State<Id>, step: Step, id: Id, oldest: int)
    requires Steady(calls, s, id, oldest) && Undisturbed(calls, [step], id, oldest)
    ensures Steady(calls, Apply(calls, s, step), id, oldest)
  {
    assert [step][0] == step;
    RowsAfterStep(calls, s, step, id, oldest);
    if !step.Prune? && step.call < |calls| && calls[step.call].requestId == id {
      var quota := calls[step.call].quota;
      SetQuotaKeepsRows(s.rows, id, quota, id);
      AppendKeepsRows(s.rows, Row(id, quota, if step.Create? then step.stamp else 0), id);
    }
  }

  lemma {:induction false} RunSteady<Id>(calls: seq<Call<Id>>, steps: seq<Step>, id: Id, oldest: int)
    requires Undisturbed(calls, steps, id, oldest)
    ensures Steady(calls, Run(calls, steps), id, oldest)
  {
    if steps != [] {
      RunSteady(calls, steps[..|steps|-1], id, oldest);
      assert Undisturbed(calls, [steps[|steps|-1]], id, oldest);
      StepKeepsSteady(calls, Run(calls, steps[..|steps|-1]), steps[|steps|-1], id, oldest);
    }
  }

  /** For a week after the oldest row of a request, with pruning going on, no completed call of it is lost, and once
      it is written it has exactly one row, with the quota of the last write. */
  lemma UndisturbedUpsert<Id>(calls: seq<Call<Id>>, steps: seq<Step>, id: Id, oldest: int)
    requires Undisturbed(calls, steps, id, oldest)
    ensures var s := Run(calls, steps);
            && (forall t :: 0 <= t < |calls| && calls[t].requestId == id ==> !s.stages[t].Lost?)
            && (LastWriter(calls, s.writes, id).Some? <==> HasRow(s.rows, id))
            && (LastWriter(calls, s.writes, id).Some? ==>
                  exists i :: 0 <= i < |s.rows| && LastWriter(calls, s.writes, id).value < |calls|
                    && s.rows[i].requestId == id
                    && s.rows[i].quota == calls[LastWriter(calls, s.writes, id).value].quota)
  {
    var s := Run(calls, steps);
    RunConsistent(calls, steps);
    RunSteady(calls, steps, id, oldest);
    LastWriterIn(calls, s.writes, id);
    if i :| 0 <= i < |s.rows| && s.rows[i].requestId == id {
      assert RowCurrent(calls, s.writes, s.rows[i]);
    }
  }

  // ----- when a call can be lost -----

  /** One step loses a call when its retry finds no row, and in no other way. */
  lemma LostIff<Id>(calls: seq<Call<Id>>, s: State<Id>, step: Step, t: nat)
    requires |s.stages| == |calls| && t < |calls| && !s.stages[t].Lost?
    ensures Apply(calls, s, step).stages[t].Lost? <==>
              step.Retry? && step.call == t && !step.fails && s.stages[t].Retrying?
              && !HasRow(s.rows, calls[t].requestId)
  {
  }

  /** The step neither makes the call's own creation fail nor prunes a row of its request. */
  ghost predicate Spares<Id>(calls: seq<Call<Id>>, s: State<Id>, step: Step, t: nat)
    requires t < |calls|
  {
    && (step.Create? && step.call == t ==> !step.fails)
    && (step.Prune? ==> NotBefore(s.rows, calls[t].requestId, step.asOf - WEEK))
  }

  /** The call is not lost, and when it is about to retry there is a row for it to find. */
  ghost predicate Safe<Id>(calls: seq<Call<Id>>, s: State<Id>, t: nat)
  {
    && |s.stages| == |calls| && t < |calls| && !s.stages[t].Lost?
    && (s.stages[t].Retrying? ==> HasRow(s.rows, calls[t].requestId))
  }

  lemma StepKeepsSafe<Id>(calls: seq<Call<Id>>, s: State<Id>, step: Step, t: nat)
    requires Safe(calls, s, t) && Spares(calls, s, step, t)
    ensures Safe(calls, Apply(calls, s, step), t)
  {
    var id := calls[t].requestId;
    LostIff(calls, s, step, t);
    if step.Prune? {
      PruneKeeps(s.rows, step.asOf - WEEK, id, step.asOf - WEEK);
    } else if step.call < |calls| {
      var other := calls[step.call];
      SetQuotaKeepsRows(s.rows, other.requestId, other.quota, id);
      AppendKeepsRows(s.rows, Row(other.requestId, other.quota, if step.Create? then step.stamp else 0), id);
    }
  }

  /** Whatever else is disturbed, a call can only be lost in a run that makes its own creation fail or prunes a row
      of its own request, over a week old. */
  lemma {:induction false} LostNeedsDisturbance<Id>(calls: seq<Call<Id>>, steps: seq<Step>, t: nat)
    requires t < |calls|
    requires forall k :: 0 <= k < |steps| ==> Spares(calls, Run(calls, steps[..k]), steps[k], t)
    ensures Safe(calls, Run(calls, steps), t)
  {
    if steps != [] {
      var last := |steps| - 1;
      forall k | 0 <= k < last ensures Spares(calls, Run(calls, steps[..last][..k]), steps[..last][k], t) {
        assert steps[..last][..k] == steps[..k];
      }
      LostNeedsDisturbance(calls, steps[..last], t);
      StepKeepsSafe(calls, Run(calls, steps[..last]), steps[last], t);
    }
  }

  // ----- what becomes of a call -----

  /** What a statement of a call that writes makes of the table: the rows of its request take its quota, a created row
      is added with its stamp, and every other row stays. */
  lemma StatementWrites<Id>(calls: seq<Call<Id>>, s: State<Id>, step: Step, t: nat)
    requires |s.stages| == |calls| && t < |calls| && !step.Prune? && step.call == t
    ensures var stage, s' := s.stages[t], Apply(calls, s, step);
            var id, quota := calls[t].requestId, calls[t].quota;
            var found := exists i :: 0 <= i < |s.rows| && s.rows[i].requestId == id;
            && (s'.writes == s.writes + [t] && s'.stages[t] == Done <==> s'.writes != s.writes)
            && (s'.writes != s.writes <==>
                  !step.fails && (if found then (step.Update? && stage.Updating?) || (step.Retry? && stage.Retrying?)
                                  else step.Create? && stage.Creating?))
            && (s'.writes == s.writes ==> s'.rows == s.rows)
            && (s'.writes != s.writes && !found ==> s'.rows == s.rows + [Row(id, quota, step.stamp)])
            && (s'.writes != s.writes && found ==>
                  && |s'.rows| == |s.rows|
                  && forall i :: 0 <= i < |s.rows| ==>
                       && s'.rows[i].requestId == s.rows[i].requestId
                       && s'.rows[i].createdTime == s.rows[i].createdTime
                       && s'.rows[i].quota == if s.rows[i].requestId == id then quota else s.rows[i].quota)
  {
    assert HasRow(s.rows, calls[t].requestId) <==>
        exists i :: 0 <= i < |s.rows| && s.rows[i].requestId == calls[t].requestId;
  }

  /** This step is an update or a retry of the call that is due, and the statement fails. */
  ghost predicate FailsAt<Id>(calls: seq<Call<Id>>, steps: seq<Step>, k: nat, t: nat)
    requires k < |steps| && t < |calls|
  {
    var stage := Run(calls, steps[..k]).stages[t];
    || (steps[k].Update? && steps[k].call == t && steps[k].fails && stage == Updating)
    || (steps[k].Retry? && steps[k].call == t && steps[k].fails && stage.Retrying?)
  }

  /** In every run, a call fails if and only if one of its own updates fails when it is due. */
  lemma {:induction false} FailedIff<Id>(calls: seq<Call<Id>>, steps: seq<Step>, t: nat)
    requires t < |calls|
    ensures Run(calls, steps).stages[t] == Failed <==> exists k :: 0 <= k < |steps| && FailsAt(calls, steps, k, t)
  {
    if steps != [] {
      var n := |steps| - 1;
      FailedIff(calls, steps[..n], t);
      forall k | 0 <= k < n ensures FailsAt(calls, steps[..n], k, t) <==> FailsAt(calls, steps, k, t) {
        assert steps[..n][..k] == steps[..k];
      }
      assert FailsAt(calls, steps, n, t) <==>
          Run(calls, steps[..n]).stages[t] != Failed && Run(calls, steps).stages[t] == Failed;
    }
  }

  /** How many of its three statements a call has behind it at a stage. */
  function Rank(stage: Stage): nat
  {
    match stage
    case Updating => 0
    case Creating(_) => 1
    case Retrying(_) => 2
    case _ => 3
  }

  /** A step never takes a call back, and one of the call's own takes it on when it is due. */
  lemma RankStep<Id>(calls: seq<Call<Id>>, s: State<Id>, step: Step, t: nat)
    requires |s.stages| == |calls| && t < |calls|
    ensures var before, after := Rank(s.stages[t]), Rank(Apply(calls, s, step).stages[t]);
            && before <= after
            && (!step.Prune? && step.call == t ==>
                 (step.Update? ==> 1 <= after) && (step.Create? && 1 <= before ==> 2 <= after)
                 && (step.Retry? && 2 <= before ==> after == 3))
  {
  }

  lemma {:induction false} RankGrows<Id>(calls: seq<Call<Id>>, steps: seq<Step>, from: nat, t: nat)
    requires from <= |steps| && t < |calls|
    ensures Rank(Run(calls, steps[..from]).stages[t]) <= Rank(Run(calls, steps).stages[t])
  {
    var n := |steps| - 1;
    if from == |steps| {
      assert steps[..from] == steps;
    } else {
      assert steps[..n][..from] == steps[..from];
      RankGrows(calls, steps[..n], from, t);
      RankStep(calls, Run(calls, steps[..n]), steps[n], t);
    }
  }

  /** From here on the call has this much behind it. */
  lemma RankAfter<Id>(calls: seq<Call<Id>>, steps: seq<Step>, i: nat, j: nat, t: nat)
    requires i < j <= |steps| && t < |calls|
    requires !steps[i].Prune? && steps[i].call == t
    ensures var before, after := Rank(Run(calls, steps[..i]).stages[t]), Rank(Run(calls, steps[..j]).stages[t]);
            && (steps[i].Update? ==> 1 <= after) && (steps[i].Create? && 1 <= before ==> 2 <= after)
            && (steps[i].Retry? && 2 <= before ==> 3 <= after)
  {
    assert steps[..j][..i+1] == steps[..i+1] && steps[..i+1][..i] == steps[..i];
    RankStep(calls, Run(calls, steps[..i]), steps[i], t);
    RankGrows(calls, steps[..j], i + 1, t);
  }

  lemma ThreeTurns<Id>(calls: seq<Call<Id>>, steps: seq<Step>, t: nat, i: nat, j: nat, k: nat)
    requires t < |calls| && i < j < k < |steps|
    requires steps[i].Update? && steps[j].Create? && steps[k].Retry?
    requires steps[i].call == steps[j].call == steps[k].call == t
    ensures 3 <= Rank(Run(calls, steps).stages[t])
  {
    RankAfter(calls, steps, i, j, t);
    RankAfter(calls, steps, j, k, t);
    RankAfter(calls, steps, k, |steps|, t);
    assert steps[..|steps|] == steps;
  }

  /** Whatever all other calls do, a call whose own updates do not fail, which is not disturbed in its creation or by
      pruning, and which has had its three turns is done and has written. */
  lemma Completes<Id>(calls: seq<Call<Id>>, steps: seq<Step>, t: nat, i: nat, j: nat, k: nat)
    requires t < |calls| && i < j < k < |steps|
    requires steps[i].Update? && steps[j].Create? && steps[k].Retry?
    requires steps[i].call == steps[j].call == steps[k].call == t
    requires forall n :: 0 <= n < |steps| ==> Spares(calls, Run(calls, steps[..n]), steps[n], t)
    requires forall n :: 0 <= n < |steps| && !steps[n].Prune? && steps[n].call == t ==> !steps[n].fails
    ensures var s := Run(calls, steps); s.stages[t] == Done && t in s.writes
  {
    FailedIff(calls, steps, t);
    LostNeedsDisturbance(calls, steps, t);
    RunConsistent(calls, steps);
    ThreeTurns(calls, steps, t, i, j, k);
  }

  /** A call that is done wrote its quota at one of its own statements: right after it there was a row of its request
      with that quota. */
  lemma {:induction false} DoneHasWritten<Id>(calls: seq<Call<Id>>, steps: seq<Step>, t: nat)
      returns (k: nat, i: nat)
    requires t < |calls| && Run(calls, steps).stages[t] == Done
    ensures k < |steps| && !steps[k].Prune? && steps[k].call == t && i < |Run(calls, steps[..k+1]).rows|
    ensures Run(calls, steps[..k+1]).rows[i].requestId == calls[t].requestId
    ensures Run(calls, steps[..k+1]).rows[i].quota == calls[t].quota
  {
    var n := |steps| - 1;
    var s := Run(calls, steps[..n]);
    if s.stages[t] == Done {
      k, i := DoneHasWritten(calls, steps[..n], t);
      assert steps[..n][..k+1] == steps[..k+1];
    } else {
      k, i := n, |s.rows|;
      assert steps[..n+1] == steps;
      if !steps[n].Create? {
        i :| 0 <= i < |s.rows| && s.rows[i].requestId == calls[t].requestId;
      }
    }
  }

  /** The step is in time: statements follow the clock, the stamp of a row is at most `lag` older than its creation,
      and no call takes longer than `span`. */
  predicate InTime<Id>(calls: seq<Call<Id>>, s: State<Id>, clock: int, step: Step, span: int, lag: int)
    requires |s.stages| == |calls|
  {
    && clock <= step.at && (step.Prune? ==> step.asOf <= step.at)
    && (!step.Prune? && step.call < |calls| ==>
          var stage := s.stages[step.call];
          && (stage.Creating? || stage.Retrying? ==> step.at <= stage.since + span)
          && (step.Create? && stage.Creating? ==> stage.since <= step.stamp <= step.at <= step.stamp + lag))
  }

  /** The time of the last step. */
  function Clock(steps: seq<Step>, start: int): int
  {
    if steps == [] then start else steps[|steps|-1].at
  }

  ghost predicate Timely<Id>(calls: seq<Call<Id>>, steps: seq<Step>, start: int, span: int, lag: int)
  {
    steps == [] ||
      var n := |steps| - 1;
      && Timely(calls, steps[..n], start, span, lag)
      && InTime(calls, Run(calls, steps[..n]), Clock(steps[..n], start), steps[n], span, lag)
  }

  /** Creating a row fails for another reason than the index only where that is allowed. */
  predicate FailsOnlyIf(steps: seq<Step>, spurious: bool)
  {
    forall i :: 0 <= i < |steps| ==> (steps[i].Create? && steps[i].fails ==> spurious)
  }

  /** While a call looks for a row to write, the rows of its request are hardly older than its first statement; and
      while it retries in time there is one. */
  ghost predicate Covered<Id>(calls: seq<Call<Id>>, s: State<Id>, clock: int, span: int, lag: int, t: nat)
    requires |s.stages| == |calls| && t < |calls|
  {
    var stage, id := s.stages[t], calls[t].requestId;
    && !stage.Lost?
    && (stage.Creating? || stage.Retrying? ==> stage.since <= clock && NotBefore(s.rows, id, stage.since - lag))
    && (stage.Retrying? && clock <= stage.since + span ==> HasRow(s.rows, id))
  }

  lemma StepKeepsCovered<Id>(calls: seq<Call<Id>>, s: State<Id>, clock: int, step: Step, span: int, lag: int, t: nat)
    requires |s.stages| == |calls| && t < |calls| && span + lag <= WEEK
    requires Covered(calls, s, clock, span, lag, t) && InTime(calls, s, clock, step, span, lag)
    requires step.Create? ==> !step.fails
    ensures Covered(calls, Apply(calls, s, step), step.at, span, lag, t)
  {
    var stage, id := s.stages[t], calls[t].requestId;
    LostIff(calls, s, step, t);
    if stage.Creating? || stage.Retrying? {
      if step.Create? && step.call < |calls| && s.stages[step.call].Creating? {
        assert step.stamp >= stage.since - lag;
      }
      CoveredRows(calls, s, clock, step, span, lag, t);
    }
  }

  lemma CoveredRows<Id>(calls: seq<Call<Id>>, s: State<Id>, clock: int, step: Step, span: int, lag: int, t: nat)
    requires |s.stages| == |calls| && t < |calls| && span + lag <= WEEK
    requires s.stages[t].Creating? || s.stages[t].Retrying?
    requires Covered(calls, s, clock, span, lag, t) && InTime(calls, s, clock, step, span, lag)
    ensures var since, id, rows' := s.stages[t].since, calls[t].requestId, Apply(calls, s, step).rows;
            && NotBefore(rows', id, since - lag)
            && (step.at <= since + span && HasRow(s.rows, id) ==> HasRow(rows', id))
  {
    var since, id := s.stages[t].since, calls[t].requestId;
    if step.Create? && (step.call >= |calls| || !s.stages[step.call].Creating?) {
      assert Apply(calls, s, step).rows == s.rows;
    } else if step.Prune? && step.at > since + span {
      PruneKeeps(s.rows, step.asOf - WEEK, id, since - lag);
    } else {
      RowsAfterStep(calls, s, step, id, since - lag);
    }
  }

  lemma {:induction false} RunCovered<Id>(calls: seq<Call<Id>>, steps: seq<Step>, start: int, span: int, lag: int,
                                            t: nat)
    requires t < |calls| && span + lag <= WEEK
    requires Timely(calls, steps, start, span, lag) && FailsOnlyIf(steps, false)
    ensures Covered(calls, Run(calls, steps), Clock(steps, start), span, lag, t)
  {
    if steps != [] {
      var n := |steps| - 1;
      RunCovered(calls, steps[..n], start, span, lag, t);
      StepKeepsCovered(calls, Run(calls, steps[..n]), Clock(steps[..n], start), steps[n], span, lag, t);
    }
  }

  ghost predicate NothingLost(calls: seq<Call<int>>, steps: seq<Step>)
  {
    forall t :: 0 <= t < |calls| ==> !Run(calls, steps).stages[t].Lost?
  }

  /** Every run in which calls and stamps take no longer than this. */
  ghost predicate NeverLoses(span: int, lag: int, spurious: bool)
  {
    forall calls, steps, start ::
      Timely(calls, steps, start, span, lag) && FailsOnlyIf(steps, spurious) ==> NothingLost(calls, steps)
  }

  /** With pruning at any time, no run of calls that take at most `span`, and whose rows are stamped at most `lag`
      before they are created, loses a call if and only if creations do not fail by themselves and the two together
      are at most a week of seconds. */
  lemma NothingLostIff(span: int, lag: int, spurious: bool)
    requires 0 <= lag <= span
    ensures NeverLoses(span, lag, spurious) <==> !spurious && span + lag <= 604800
  {
    if spurious {
      FailedCreationLosesCall(span, lag);
    } else if span + lag > WEEK {
      PruningLosesCall(span, lag);
    } else {
      forall calls: seq<Call<int>>, steps, start | Timely(calls, steps, start, span, lag) && FailsOnlyIf(steps, false)
        ensures NothingLost(calls, steps)
      {
        forall t | 0 <= t < |calls| ensures !Run(calls, steps).stages[t].Lost? {
          RunCovered(calls, steps, start, span, lag, t);
        }
      }
    }
  }

  // ----- two runs that lose a call -----

  lemma {:induction false} RunTo(calls: seq<Call<int>>, steps: seq<Step>, k: nat, before: State<int>,
                                 span: int, lag: int)
    requires k < |steps| && Run(calls, steps[..k]) == before && Timely(calls, steps[..k], 0, span, lag)
    requires InTime(calls, before, if k == 0 then 0 else steps[k-1].at, steps[k], span, lag)
    ensures Run(calls, steps[..k+1]) == Apply(calls, before, steps[k]) && Timely(calls, steps[..k+1], 0, span, lag)
  {
    assert steps[..k+1][..k] == steps[..k];
    assert k > 0 ==> steps[..k][k-1] == steps[k-1];
  }

  /** Two calls for one request that both find no row. The first one stamps its row at 0 and creates it at `lag`, when
      the second one starts and fails to create its own; by the time that one retries, the row is over a week old. */
  function Race(span: int, lag: int): seq<Step>
  {
    [Update(0, 0, false), Update(lag, 1, false), Create(lag, 0, false, 0), Create(lag, 1, false, lag),
     Prune(lag + span, lag + span), Retry(lag + span, 1, false)]
  }

  lemma {:induction false} BothFindNothing(calls: seq<Call<int>>, span: int, lag: int)
    requires 0 <= lag <= span && |calls| == 2
    ensures var race := Race(span, lag);
            && Run(calls, race[..2]) == State([], [Creating(0), Creating(lag)], [])
            && Timely(calls, race[..2], 0, span, lag)
  {
    var race := Race(span, lag);
    assert Run(calls, race[..0]) == State([], [Updating, Updating], []);
    RunTo(calls, race, 0, State([], [Updating, Updating], []), span, lag);
    RunTo(calls, race, 1, State([], [Creating(0), Updating], []), span, lag);
  }

  lemma {:induction false} OtherLosesRace(calls: seq<Call<int>>, row: Row<int>, span: int, lag: int)
    requires 0 <= lag <= span && |calls| == 2 && calls[0].requestId == calls[1].requestId
    requires row == Row(calls[0].requestId, calls[0].quota, 0)
    ensures var race := Race(span, lag);
            && Run(calls, race[..4]) == State([row], [Done, Retrying(lag)], [0])
            && Timely(calls, race[..4], 0, span, lag)
  {
    BothFindNothing(calls, span, lag);
    var race := Race(span, lag);
    RunTo(calls, race, 2, State([], [Creating(0), Creating(lag)], []), span, lag);
    var s := State([row], [Done, Creating(lag)], [0]);
    assert [] + [row] == [row];
    assert s.rows[0].requestId == calls[1].requestId;
    RunTo(calls, race, 3, s, span, lag);
  }

  lemma {:induction false} KeptNone<Id>(row: Row<Id>, cutoff: int)
    requires row.createdTime < cutoff
    ensures Kept([row], cutoff) == []
  {
    assert [row][..0] == [];
  }

  lemma {:induction false} RowIsPruned(calls: seq<Call<int>>, row: Row<int>, span: int, lag: int)
    requires 0 <= lag <= span && span + lag > WEEK && |calls| == 2 && calls[0].requestId == calls[1].requestId
    requires row == Row(calls[0].requestId, calls[0].quota, 0)
    ensures var race := Race(span, lag);
            && Run(calls, race[..5]) == State([], [Done, Retrying(lag)], [0])
            && Timely(calls, race[..5], 0, span, lag)
  {
    OtherLosesRace(calls, row, span, lag);
    RunTo(calls, Race(span, lag), 4, State([row], [Done, Retrying(lag)], [0]), span, lag);
    KeptNone(row, lag + span - WEEK);
  }

  lemma {:induction false} RaceLosesCall(calls: seq<Call<int>>, span: int, lag: int)
    requires 0 <= lag <= span && span + lag > WEEK && |calls| == 2 && calls[0].requestId == calls[1].requestId
    ensures Run(calls, Race(span, lag)) == State([], [Done, Lost], [0]) && Timely(calls, Race(span, lag), 0, span, lag)
  {
    RowIsPruned(calls, Row(calls[0].requestId, calls[0].quota, 0), span, lag);
    var race := Race(span, lag);
    RunTo(calls, race, 5, State([], [Done, Retrying(lag)], [0]), span, lag);
    assert race[..6] == race;
  }

  lemma {:induction false} LosesAt(calls: seq<Call<int>>, steps: seq<Step>, t: nat, span: int, lag: int, spurious: bool)
    requires t < |calls| && Run(calls, steps).stages[t].Lost?
    requires Timely(calls, steps, 0, span, lag) && FailsOnlyIf(steps, spurious)
    ensures !NeverLoses(span, lag, spurious)
  {
    assert !NothingLost(calls, steps);
  }

  /** Pruning between a lost race and a late retry loses a completed call ... */
  lemma {:induction false} PruningLosesCall(span: int, lag: int)
    requires 0 <= lag <= span && span + lag > WEEK
    ensures var calls := [Call(0, 7), Call(0, 8)];
            Run(calls, Race(span, lag)) == State([], [Done, Lost], [0]) && Timely(calls, Race(span, lag), 0, span, lag)
    ensures !NeverLoses(span, lag, false)
  {
    var calls := [Call(0, 7), Call(0, 8)];
    RaceLosesCall(calls, span, lag);
    LosesAt(calls, Race(span, lag), 1, span, lag, false);
  }

  /** ... and so does a creation that fails by itself, however short the call. */
  const SPURIOUS := [Update(0, 0, false), Create(0, 0, true, 0), Retry(0, 0, false)]

  lemma {:induction false} SpuriousLosesCall(call: Call<int>, span: int, lag: int)
    requires 0 <= lag <= span
    ensures Run([call], SPURIOUS) == State([], [Lost], []) && Timely([call], SPURIOUS, 0, span, lag)
  {
    assert Run([call], SPURIOUS[..0]) == State([], [Updating], []);
    RunTo([call], SPURIOUS, 0, State([], [Updating], []), span, lag);
    RunTo([call], SPURIOUS, 1, State([], [Creating(0)], []), span, lag);
    RunTo([call], SPURIOUS, 2, State([], [Retrying(0)], []), span, lag);
    assert SPURIOUS[..3] == SPURIOUS;
  }

  lemma {:induction false} FailedCreationLosesCall(span: int, lag: int)
    requires 0 <= lag <= span
    ensures Run([Call(0, 7)], SPURIOUS) == State([], [Lost], []) && !NeverLoses(span, lag, true)
  {
    SpuriousLosesCall(Call(0, 7), span, lag);
    LosesAt([Call(0, 7)], SPURIOUS, 0, span, lag, true);
  }
}
