/** Budget pools: their balances, the rows of what was handed out, the users' quotas, and the running log. */
module PoolLedger {
  import opened Wrappers

  datatype Pool = Pool(total: int, used: int, active: bool)
  {
    function Available(): int
    {
      total - used
    }
  }

  /** Quota handed to a user from a pool, and how much of it has been taken back. */
  datatype Allocation = Allocation(poolId: nat, userId: nat, granted: int, recalled: int)
  {
    function Net(): int
    {
      granted - recalled
    }
  }

  datatype Kind = Purchase | Allocate | Recall

  datatype Direction = In | Out

  /** One movement of a pool's balance. */
  datatype Entry = Entry(poolId: nat, userId: nat, kind: Kind, amount: int, direction: Direction, balanceAfter: int)
  {
    function Signed(): int
    {
      if direction.In? then amount else -amount
    }
  }

  /** Pools and users carry the ids 1, 2, ... in order of creation. */
  predicate IsId(id: nat, count: nat)
  {
    1 <= id <= count
  }

  /** What a pool has out with users. */
  function NetOf(rows: seq<Allocation>, poolId: nat): int
  {
    if rows == [] then 0
    else NetOf(rows[..|rows|-1], poolId) + if rows[|rows|-1].poolId == poolId then rows[|rows|-1].Net() else 0
  }

  /** A pool's balance after replaying the log from its opening balance. */
  function Replay(log: seq<Entry>, poolId: nat, opening: int): int
  {
    if log == [] then opening
    else Replay(log[..|log|-1], poolId, opening) + if log[|log|-1].poolId == poolId then log[|log|-1].Signed() else 0
  }

  function Sum(quotas: seq<int>): int
  {
    if quotas == [] then 0 else Sum(quotas[..|quotas|-1]) + quotas[|quotas|-1]
  }

  function ActiveBalance(pools: seq<Pool>): int
  {
    if pools == [] then 0
    else ActiveBalance(pools[..|pools|-1]) + if pools[|pools|-1].active then pools[|pools|-1].Available() else 0
  }

  /** All that users own and active pools have to give. */
  function Wealth(pools: seq<Pool>, quotas: seq<int>): int
  {
    ActiveBalance(pools) + Sum(quotas)
  }

  // ----- sums under change -----

  lemma NetOfAppend(rows: seq<Allocation>, row: Allocation, poolId: nat)
    ensures NetOf(rows + [row], poolId) == NetOf(rows, poolId) + if row.poolId == poolId then row.Net() else 0
  {
    assert (rows + [row])[..|rows|] == rows;
  }

  lemma {:induction false} NetOfUpdate(rows: seq<Allocation>, i: nat, row: Allocation, poolId: nat)
    requires i < |rows| && row.poolId == rows[i].poolId
    ensures NetOf(rows[i := row], poolId)
         == NetOf(rows, poolId) + if row.poolId == poolId then row.Net() - rows[i].Net() else 0
  {
    var n := |rows| - 1;
    if i == n {
      assert rows[i := row][..n] == rows[..n];
    } else {
      assert rows[i := row][..n] == rows[..n][i := row];
      NetOfUpdate(rows[..n], i, row, poolId);
    }
  }

  lemma ReplayAppend(log: seq<Entry>, e: Entry, poolId: nat, opening: int)
    ensures Replay(log + [e], poolId, opening)
         == Replay(log, poolId, opening) + if e.poolId == poolId then e.Signed() else 0
  {
    assert (log + [e])[..|log|] == log;
  }

  lemma {:induction false} ReplayUntouched(log: seq<Entry>, poolId: nat, opening: int)
    requires forall i :: 0 <= i < |log| ==> log[i].poolId != poolId
    ensures Replay(log, poolId, opening) == opening
  {
    if log != [] {
      ReplayUntouched(log[..|log|-1], poolId, opening);
    }
  }

  lemma {:induction false} NetOfUntouched(rows: seq<Allocation>, poolId: nat)
    requires forall i :: 0 <= i < |rows| ==> rows[i].poolId != poolId
    ensures NetOf(rows, poolId) == 0
  {
    if rows != [] {
      NetOfUntouched(rows[..|rows|-1], poolId);
    }
  }

  lemma {:induction false} SumUpdate(quotas: seq<int>, i: nat, q: int)
    requires i < |quotas|
    ensures Sum(quotas[i := q]) == Sum(quotas) + q - quotas[i]
  {
    var n := |quotas| - 1;
    if i == n {
      assert quotas[i := q][..n] == quotas[..n];
    } else {
      assert quotas[i := q][..n] == quotas[..n][i := q];
      SumUpdate(quotas[..n], i, q);
    }
  }

  lemma {:induction false} ActiveBalanceUpdate(pools: seq<Pool>, i: nat, p: Pool)
    requires i < |pools|
    ensures ActiveBalance(pools[i := p]) == ActiveBalance(pools)
              + (if p.active then p.Available() else 0) - (if pools[i].active then pools[i].Available() else 0)
  {
    var n := |pools| - 1;
    if i == n {
      assert pools[i := p][..n] == pools[..n];
    } else {
      assert pools[i := p][..n] == pools[..n][i := p];
      ActiveBalanceUpdate(pools[..n], i, p);
    }
  }

  lemma ActiveBalanceAppend(pools: seq<Pool>, p: Pool)
    ensures ActiveBalance(pools + [p]) == ActiveBalance(pools) + if p.active then p.Available() else 0
  {
    assert (pools + [p])[..|pools|] == pools;
  }

  /** With no row overdrawn, a pool has nothing out exactly when each of its rows is settled. */
  lemma {:induction false} NetOfZeroIff(rows: seq<Allocation>, poolId: nat)
    requires forall i :: 0 <= i < |rows| ==> rows[i].Net() >= 0
    ensures NetOf(rows, poolId) >= 0
    ensures NetOf(rows, poolId) == 0 <==> forall i :: 0 <= i < |rows| && rows[i].poolId == poolId ==> rows[i].Net() == 0
  {
    if rows != [] {
      var init, last := rows[..|rows|-1], rows[|rows|-1];
      NetOfZeroIff(init, poolId);
      assert forall i :: 0 <= i < |init| ==> init[i] == rows[i];
    }
  }

  // ----- what every reachable state satisfies -----

  /** A pool's used quota is what is out with users, within its total, and its log leads to its balance. */
  ghost predicate PoolSound(p: nat, pools: seq<Pool>, rows: seq<Allocation>, log: seq<Entry>, opening: seq<int>)
    requires IsId(p, |pools|) && |opening| == |pools|
  {
    && pools[p-1].used == NetOf(rows, p)
    && pools[p-1].used <= pools[p-1].total
    && Replay(log, p, opening[p-1]) == pools[p-1].Available()
  }

  /** Every entry records the balance that replaying the log up to it gives. */
  ghost predicate EntrySound(log: seq<Entry>, k: nat, opening: seq<int>)
    requires k < |log|
  {
    && IsId(log[k].poolId, |opening|)
    && log[k].balanceAfter == Replay(log[..k+1], log[k].poolId, opening[log[k].poolId-1])
  }

  ghost predicate EntriesSound(log: seq<Entry>, opening: seq<int>)
  {
    forall k {:trigger EntrySound(log, k, opening)} :: 0 <= k < |log| ==> EntrySound(log, k, opening)
  }

  ghost predicate RowsSound(rows: seq<Allocation>, count: nat)
  {
    forall i :: 0 <= i < |rows| ==> IsId(rows[i].poolId, count)
  }

  ghost predicate PoolsSound(pools: seq<Pool>, rows: seq<Allocation>, log: seq<Entry>, opening: seq<int>)
  {
    && |opening| == |pools|
    && forall p {:trigger PoolSound(p, pools, rows, log, opening)} ::
         IsId(p, |pools|) ==> PoolSound(p, pools, rows, log, opening)
  }

  /** The figures agree with each other, whatever amounts have been moved. */
  ghost predicate Sound(pools: seq<Pool>, rows: seq<Allocation>, log: seq<Entry>, opening: seq<int>)
  {
    PoolsSound(pools, rows, log, opening) && RowsSound(rows, |pools|) && EntriesSound(log, opening)
  }

  predicate RowInBounds(row: Allocation)
  {
    0 <= row.recalled <= row.granted
  }

  /** No user has given back more than was handed out, and every movement is of a positive amount. */
  predicate InBounds(rows: seq<Allocation>, log: seq<Entry>)
  {
    && (forall i :: 0 <= i < |rows| ==> RowInBounds(rows[i]))
    && forall k :: 0 <= k < |log| ==> log[k].amount > 0
  }

  ghost predicate Books(pools: seq<Pool>, rows: seq<Allocation>, log: seq<Entry>, opening: seq<int>)
  {
    Sound(pools, rows, log, opening) && InBounds(rows, log)
  }

  lemma NetOfNonNegative(rows: seq<Allocation>, p: nat)
    requires forall i :: 0 <= i < |rows| ==> RowInBounds(rows[i])
    ensures NetOf(rows, p) >= 0
  {
    NetOfZeroIff(rows, p);
  }

  /** With the books in order, what a pool has out lies between nothing and its total. */
  lemma UsedWithinTotal(pools: seq<Pool>, rows: seq<Allocation>, log: seq<Entry>, opening: seq<int>, p: nat)
    requires Books(pools, rows, log, opening) && IsId(p, |pools|)
    ensures 0 <= pools[p-1].used <= pools[p-1].total
  {
    assert PoolSound(p, pools, rows, log, opening);
    NetOfNonNegative(rows, p);
  }

  /** The row that a recall works on: the first one of the pool and user. */
  function FirstRow(rows: seq<Allocation>, poolId: nat, userId: nat): (r: Option<nat>)
    ensures r.Some? ==> r.value < |rows| && rows[r.value].poolId == poolId && rows[r.value].userId == userId
    ensures forall i :: 0 <= i < (if r.Some? then r.value else |rows|) ==>
              rows[i].poolId != poolId || rows[i].userId != userId
  {
    if rows == [] then None
    else
      var before := FirstRow(rows[..|rows|-1], poolId, userId);
      if before.Some? then before
      else if rows[|rows|-1].poolId == poolId && rows[|rows|-1].userId == userId then Some(|rows| - 1)
      else None
  }

  lemma EntriesAfterAppend(log: seq<Entry>, e: Entry, opening: seq<int>)
    requires EntriesSound(log, opening) && IsId(e.poolId, |opening|)
    requires e.balanceAfter == Replay(log, e.poolId, opening[e.poolId-1]) + e.Signed()
    ensures EntriesSound(log + [e], opening)
  {
    var log' := log + [e];
    forall k | 0 <= k < |log'| ensures EntrySound(log', k, opening) {
      if k < |log| {
        assert EntrySound(log, k, opening);
        assert log'[..k+1] == log[..k+1];
      } else {
        assert log'[..k+1] == log';
        ReplayAppend(log, e, e.poolId, opening[e.poolId-1]);
      }
    }
  }

  /** What the rows of each pool weigh after a movement: only the moved pool's weight changes. */
  ghost predicate NetsMove(rows: seq<Allocation>, rows': seq<Allocation>, count: nat, p: nat, change: int)
  {
    forall q :: IsId(q, count) ==> NetOf(rows', q) == NetOf(rows, q) + if q == p then change else 0
  }

  lemma PoolsAfterMove(pools: seq<Pool>, rows: seq<Allocation>, log: seq<Entry>, opening: seq<int>,
                       pool: Pool, rows': seq<Allocation>, e: Entry)
    requires PoolsSound(pools, rows, log, opening) && IsId(e.poolId, |pools|)
    requires pool.used <= pool.total && pool.Available() == pools[e.poolId-1].Available() + e.Signed()
    requires NetsMove(rows, rows', |pools|, e.poolId, pool.used - pools[e.poolId-1].used)
    ensures PoolsSound(pools[e.poolId-1 := pool], rows', log + [e], opening)
  {
    forall q | IsId(q, |pools|) ensures PoolSound(q, pools[e.poolId-1 := pool], rows', log + [e], opening) {
      assert PoolSound(q, pools, rows, log, opening);
      ReplayAppend(log, e, q, opening[q-1]);
    }
  }

  /** A movement of one pool: its figures, its rows and the log change together. */
  lemma SoundAfterMove(pools: seq<Pool>, rows: seq<Allocation>, log: seq<Entry>, opening: seq<int>,
                       pool: Pool, rows': seq<Allocation>, e: Entry)
    requires Sound(pools, rows, log, opening) && IsId(e.poolId, |pools|) && RowsSound(rows', |pools|)
    requires pool.used <= pool.total && pool.Available() == pools[e.poolId-1].Available() + e.Signed()
    requires e.balanceAfter == pool.Available()
    requires NetsMove(rows, rows', |pools|, e.poolId, pool.used - pools[e.poolId-1].used)
    ensures Sound(pools[e.poolId-1 := pool], rows', log + [e], opening)
  {
    assert PoolSound(e.poolId, pools, rows, log, opening);
    PoolsAfterMove(pools, rows, log, opening, pool, rows', e);
    EntriesAfterAppend(log, e, opening);
  }

  lemma NetsAfterAppend(rows: seq<Allocation>, row: Allocation, count: nat)
    ensures NetsMove(rows, rows + [row], count, row.poolId, row.Net())
  {
    forall q | IsId(q, count)
      ensures NetOf(rows + [row], q) == NetOf(rows, q) + if q == row.poolId then row.Net() else 0
    {
      NetOfAppend(rows, row, q);
    }
  }

  lemma NetsAfterUpdate(rows: seq<Allocation>, i: nat, row: Allocation, count: nat)
    requires i < |rows| && row.poolId == rows[i].poolId
    ensures NetsMove(rows, rows[i := row], count, row.poolId, row.Net() - rows[i].Net())
  {
    forall q | IsId(q, count)
      ensures NetOf(rows[i := row], q) == NetOf(rows, q) + if q == row.poolId then row.Net() - rows[i].Net() else 0
    {
      NetOfUpdate(rows, i, row, q);
    }
  }

  // ----- when an operation goes through -----

  predicate IsActive(pools: seq<Pool>, p: nat)
  {
    IsId(p, |pools|) && pools[p-1].active
  }

  function Credit(quotas: seq<int>, userId: nat, amount: int): (r: seq<int>)
    ensures |r| == |quotas|
  {
    if IsId(userId, |quotas|) then quotas[userId-1 := quotas[userId-1] + amount] else quotas
  }

  /** A recall goes through when the pool is active, the first row has that much out and the user still owns it. */
  predicate CanRecall(pools: seq<Pool>, rows: seq<Allocation>, quotas: seq<int>, p: nat, userId: nat, amount: int)
  {
    && IsActive(pools, p)
    && var at := FirstRow(rows, p, userId);
       at.Some? && amount <= rows[at.value].Net() && IsId(userId, |quotas|) && amount <= quotas[userId-1]
  }

  function Recalled(rows: seq<Allocation>, at: nat, amount: int): (r: seq<Allocation>)
    requires at < |rows|
  {
    rows[at := rows[at].(recalled := rows[at].recalled + amount)]
  }

  /** The amount is added to what has been taken back through the row; what was handed out stays, and so do all other
      rows. */
  lemma RecalledIs(rows: seq<Allocation>, at: nat, amount: int, j: nat)
    requires at < |rows| && j < |rows|
    ensures var before, after := rows[j], Recalled(rows, at, amount)[j];
            && after.granted == before.granted && after.poolId == before.poolId && after.userId == before.userId
            && after.recalled == before.recalled + if j == at then amount else 0
  {
  }

  /** A user who exists is credited, and nobody else. */
  lemma CreditIs(quotas: seq<int>, userId: nat, amount: int, u: nat)
    requires 1 <= u <= |quotas|
    ensures Credit(quotas, userId, amount)[u-1] == quotas[u-1] + if u == userId then amount else 0
  {
  }

  /** A recall goes through exactly when the pool exists and is active and, in the first row of this pool and user,
      there is one with at least the amount handed out and not yet taken back, while the user exists and owns it. */
  lemma CanRecallIff(pools: seq<Pool>, rows: seq<Allocation>, quotas: seq<int>, p: nat, userId: nat, amount: int)
    ensures CanRecall(pools, rows, quotas, p, userId, amount) <==>
              && 1 <= p <= |pools| && pools[p-1].active
              && 1 <= userId <= |quotas| && quotas[userId-1] >= amount
              && exists at :: && 0 <= at < |rows| && rows[at].poolId == p && rows[at].userId == userId
                              && rows[at].recalled + amount <= rows[at].granted
                              && forall j :: 0 <= j < at ==> rows[j].poolId != p || rows[j].userId != userId
  {
    var first := FirstRow(rows, p, userId);
    if at :| && 0 <= at < |rows| && rows[at].poolId == p && rows[at].userId == userId
             && forall j :: 0 <= j < at ==> rows[j].poolId != p || rows[j].userId != userId
    {
      assert first == Some(at);
    }
  }

  // ----- the books after each operation -----

  lemma WealthAfterMove(pools: seq<Pool>, quotas: seq<int>, p: nat, pool: Pool, userId: nat, amount: int)
    requires IsActive(pools, p) && pool.active
    ensures Wealth(pools[p-1 := pool], Credit(quotas, userId, amount))
         == Wealth(pools, quotas) + pool.Available() - pools[p-1].Available()
              + if IsId(userId, |quotas|) then amount else 0
  {
    ActiveBalanceUpdate(pools, p - 1, pool);
    if IsId(userId, |quotas|) {
      SumUpdate(quotas, userId - 1, quotas[userId-1] + amount);
    }
  }

  lemma SoundAfterPurchase(pools: seq<Pool>, rows: seq<Allocation>, log: seq<Entry>, opening: seq<int>, p: nat,
                           pool: Pool, e: Entry)
    requires Sound(pools, rows, log, opening) && IsId(p, |pools|) && e.amount >= 0
    requires pool == pools[p-1].(total := pools[p-1].total + e.amount)
    requires e == Entry(p, 0, Purchase, e.amount, In, pool.Available())
    ensures Sound(pools[p-1 := pool], rows, log + [e], opening)
    ensures InBounds(rows, log + [e]) <==> InBounds(rows, log) && e.amount > 0
  {
    assert PoolSound(p, pools, rows, log, opening);
    SoundAfterMove(pools, rows, log, opening, pool, rows, e);
    assert (log + [e])[|log|] == e;
    assert forall k :: 0 <= k < |log| ==> (log + [e])[k] == log[k];
  }

  /** Handing out any amount that the pool has, positive or not, keeps the figures in agreement. */
  lemma SoundAfterAllocate(pools: seq<Pool>, rows: seq<Allocation>, log: seq<Entry>, opening: seq<int>,
                           p: nat, userId: nat, amount: int, pool: Pool, e: Entry)
    requires Sound(pools, rows, log, opening) && IsActive(pools, p) && amount <= pools[p-1].Available()
    requires pool == pools[p-1].(used := pools[p-1].used + amount)
    requires e == Entry(p, userId, Allocate, amount, Out, pool.Available())
    ensures Sound(pools[p-1 := pool], rows + [Allocation(p, userId, amount, 0)], log + [e], opening)
  {
    NetsAfterAppend(rows, Allocation(p, userId, amount, 0), |pools|);
    SoundAfterMove(pools, rows, log, opening, pool, rows + [Allocation(p, userId, amount, 0)], e);
  }

  /** The rows and the log stay in bounds exactly when the amount is positive. */
  lemma InBoundsAfterAllocateIff(rows: seq<Allocation>, log: seq<Entry>, row: Allocation, e: Entry)
    requires row.granted == e.amount && row.recalled == 0
    ensures InBounds(rows + [row], log + [e]) <==> InBounds(rows, log) && e.amount > 0
  {
    assert (log + [e])[|log|] == e;
    assert forall k :: 0 <= k < |log| ==> (log + [e])[k] == log[k];
    assert forall i :: 0 <= i < |rows| ==> (rows + [row])[i] == rows[i];
  }

  /** Allocating a negative amount, as an administrator's top-up may: the row is overdrawn, the pool has less than
      nothing out, and a pool of 10 can afterwards give 13. */
  lemma NegativeAllocation()
    ensures var rows, e := [Allocation(1, 1, -3, 0)], Entry(1, 1, Allocate, -3, Out, 13);
            && Books([Pool(10, 0, true)], [], [], [10])
            && Sound([Pool(10, -3, true)], rows, [e], [10])
            && !Books([Pool(10, -3, true)], rows, [e], [10])
  {
    var pools := [Pool(10, 0, true)];
    var row, e := Allocation(1, 1, -3, 0), Entry(1, 1, Allocate, -3, Out, 13);
    assert PoolSound(1, pools, [], [], [10]);
    SoundAfterAllocate(pools, [], [], [10], 1, 1, -3, Pool(10, -3, true), e);
    InBoundsAfterAllocateIff([], [], row, e);
    assert pools[0 := Pool(10, -3, true)] == [Pool(10, -3, true)];
    assert [] + [row] == [row] && [] + [e] == [e];
  }

  /** Taking an amount back through a row that has it out. */
  lemma SoundAfterRecall(pools: seq<Pool>, rows: seq<Allocation>, log: seq<Entry>, opening: seq<int>,
                         p: nat, at: nat, amount: int, pool: Pool, e: Entry)
    requires Sound(pools, rows, log, opening) && IsActive(pools, p)
    requires at < |rows| && rows[at].poolId == p && amount >= 0
    requires pool == pools[p-1].(used := pools[p-1].used - amount)
    requires e == Entry(p, rows[at].userId, Recall, amount, In, pool.Available())
    ensures Sound(pools[p-1 := pool], Recalled(rows, at, amount), log + [e], opening)
  {
    assert PoolSound(p, pools, rows, log, opening);
    NetsAfterUpdate(rows, at, Recalled(rows, at, amount)[at], |pools|);
    SoundAfterMove(pools, rows, log, opening, pool, Recalled(rows, at, amount), e);
  }

  lemma InBoundsAfterRecall(rows: seq<Allocation>, log: seq<Entry>, at: nat, amount: int, e: Entry)
    requires InBounds(rows, log) && at < |rows| && 0 < amount <= rows[at].Net() && e.amount == amount
    ensures InBounds(Recalled(rows, at, amount), log + [e])
  {
    assert RowInBounds(rows[at]);
  }

  lemma SoundAfterClose(pools: seq<Pool>, rows: seq<Allocation>, log: seq<Entry>, opening: seq<int>, p: nat)
    requires Sound(pools, rows, log, opening) && IsId(p, |pools|)
    ensures Sound(pools[p-1 := pools[p-1].(active := false)], rows, log, opening)
  {
    var closed := pools[p-1 := pools[p-1].(active := false)];
    forall q | IsId(q, |closed|) ensures PoolSound(q, closed, rows, log, opening) {
      assert PoolSound(q, pools, rows, log, opening);
    }
  }

  lemma FreshIdUntouched(rows: seq<Allocation>, log: seq<Entry>, opening: seq<int>, count: nat, start: int)
    requires RowsSound(rows, count) && EntriesSound(log, opening) && |opening| == count
    ensures NetOf(rows, count + 1) == 0 && Replay(log, count + 1, start) == start
  {
    forall k | 0 <= k < |log| ensures log[k].poolId != count + 1 {
      assert EntrySound(log, k, opening);
    }
    NetOfUntouched(rows, count + 1);
    ReplayUntouched(log, count + 1, start);
  }

  lemma EntriesAfterOpening(log: seq<Entry>, opening: seq<int>, start: int)
    requires EntriesSound(log, opening)
    ensures EntriesSound(log, opening + [start])
  {
    forall k | 0 <= k < |log| ensures EntrySound(log, k, opening + [start]) {
      assert EntrySound(log, k, opening);
    }
  }

  /** The log of a new pool starts from what it holds. */
  lemma SoundAfterCreate(pools: seq<Pool>, rows: seq<Allocation>, log: seq<Entry>, opening: seq<int>, start: int)
    requires Sound(pools, rows, log, opening) && start >= 0
    ensures Sound(pools + [Pool(start, 0, true)], rows, log, opening + [start])
  {
    var pools' := pools + [Pool(start, 0, true)];
    FreshIdUntouched(rows, log, opening, |pools|, start);
    forall q: nat | IsId(q, |pools'|) ensures PoolSound(q, pools', rows, log, opening + [start]) {
      if q <= |pools| {
        assert PoolSound(q, pools, rows, log, opening);
      }
    }
    EntriesAfterOpening(log, opening, start);
  }

  /** A pool that carries a balance over opens at 0 and receives the balance as its first entry. */
  lemma SoundAfterCarryOver(pools: seq<Pool>, rows: seq<Allocation>, log: seq<Entry>, opening: seq<int>, remaining: int)
    requires Sound(pools, rows, log, opening) && remaining > 0
    ensures var e := Entry(|pools| + 1, 0, Purchase, remaining, In, remaining);
            Sound(pools + [Pool(remaining, 0, true)], rows, log + [e], opening + [0])
            && (InBounds(rows, log + [e]) <==> InBounds(rows, log))
  {
    var e := Entry(|pools| + 1, 0, Purchase, remaining, In, remaining);
    var pools' := pools + [Pool(0, 0, true)];
    SoundAfterCreate(pools, rows, log, opening, 0);
    SoundAfterPurchase(pools', rows, log, opening + [0], |pools| + 1, Pool(remaining, 0, true), e);
    assert pools'[|pools| := Pool(remaining, 0, true)] == pools + [Pool(remaining, 0, true)];
  }

  /** The first entry of a pool that takes a balance over, if it has one. */
  function CarriedOver(id: nat, remaining: int, logFails: bool): seq<Entry>
  {
    if remaining > 0 && !logFails then [Entry(id, 0, Purchase, remaining, In, remaining)] else []
  }

  /** ... unless that entry is not written: then the log can only start from the balance. */
  lemma SoundAfterOpening(pools: seq<Pool>, rows: seq<Allocation>, log: seq<Entry>, opening: seq<int>,
                          remaining: int, logFails: bool)
    requires Sound(pools, rows, log, opening) && remaining >= 0
    ensures var entries := CarriedOver(|pools| + 1, remaining, logFails);
            Sound(pools + [Pool(remaining, 0, true)], rows, log + entries,
                  opening + [if logFails then remaining else 0])
            && (InBounds(rows, log + entries) <==> InBounds(rows, log))
  {
    if remaining > 0 && !logFails {
      SoundAfterCarryOver(pools, rows, log, opening, remaining);
    } else {
      SoundAfterCreate(pools, rows, log, opening, remaining);
      assert log + [] == log;
    }
  }

  function Closed(pools: seq<Pool>, p: nat): seq<Pool>
  {
    if IsId(p, |pools|) then pools[p-1 := pools[p-1].(active := false)] else pools
  }

  /** The pools after rolling one over, depending on whether it can be closed and the new one created. */
  function RolledOver(pools: seq<Pool>, p: nat, closes: bool, creates: bool): seq<Pool>
  {
    if !IsId(p, |pools|) || !closes then pools
    else Closed(pools, p) + if creates then [Pool(pools[p-1].Available(), 0, true)] else []
  }

  lemma RollOverWealth(pools: seq<Pool>, quotas: seq<int>, p: nat, closes: bool, creates: bool)
    requires IsId(p, |pools|)
    ensures var remaining := pools[p-1].Available();
            Wealth(RolledOver(pools, p, closes, creates), quotas) == Wealth(pools, quotas)
              - (if closes && pools[p-1].active then remaining else 0) + (if closes && creates then remaining else 0)
  {
    if closes {
      var closed := pools[p-1].(active := false);
      ActiveBalanceUpdate(pools, p - 1, closed);
      ActiveBalanceAppend(Closed(pools, p), Pool(pools[p-1].Available(), 0, true));
      assert Closed(pools, p) + [] == Closed(pools, p);
    }
  }

  /** Rolling over a known pool keeps wealth if and only if the pool cannot be closed, or had nothing left, or was
      active and its successor is created, or neither of these two. */
  lemma RollOverKeepsWealthIff(pools: seq<Pool>, quotas: seq<int>, p: nat, closes: bool, creates: bool)
    requires IsId(p, |pools|)
    ensures Wealth(RolledOver(pools, p, closes, creates), quotas) == Wealth(pools, quotas) <==>
              !closes || pools[p-1].Available() == 0 || pools[p-1].active == creates
  {
    RollOverWealth(pools, quotas, p, closes, creates);
  }

  /** Rolling over a pool that was closed with something left makes that much out of nothing; failing to create the
      successor of an active one loses it. */
  lemma RollOverChangesWealth(left: int, quotas: seq<int>)
    requires left > 0
    ensures var closed, active := [Pool(left, 0, false)], [Pool(left, 0, true)];
            && Wealth(RolledOver(closed, 1, true, true), quotas) == Wealth(closed, quotas) + left
            && Wealth(RolledOver(active, 1, true, false), quotas) == Wealth(active, quotas) - left
  {
    RollOverWealth([Pool(left, 0, false)], quotas, 1, true, true);
    RollOverWealth([Pool(left, 0, true)], quotas, 1, true, false);
  }

  class Book {
    var pools: seq<Pool>
    var rows: seq<Allocation>
    var quotas: seq<int>
    var log: seq<Entry>
    /** What each pool's log starts from. */
    ghost var opening: seq<int>

    ghost predicate Valid()
      reads this
    {
      Sound(pools, rows, log, opening)
    }

    /** All amounts so far were positive, and no row is overdrawn. */
    predicate Bounded()
      reads this
    {
      InBounds(rows, log)
    }

    constructor (quotas: seq<int>)
      ensures Valid() && Bounded()
      ensures pools == [] && rows == [] && log == [] && opening == [] && this.quotas == quotas
      ensures quotas == [] ==> Wealth(pools, quotas) == 0
    {
      pools, rows, log, opening := [], [], [], [];
      this.quotas := quotas;
    }

    /** Procurement: the pool, its log and the total wealth grow by exactly the amount. */
    method PurchaseToPool(p: nat, amount: int, fails: bool) returns (ok: bool)
      requires Valid() && amount > 0
      modifies this
      ensures Valid() && Bounded() == old(Bounded())
      ensures rows == old(rows) && quotas == old(quotas) && opening == old(opening)
      ensures ok == (IsActive(old(pools), p) && !fails)
      ensures !ok ==> pools == old(pools) && log == old(log)
      ensures ok ==> pools == old(pools)[p-1 := old(pools)[p-1].(total := old(pools)[p-1].total + amount)]
      ensures ok ==> log == old(log) + [Entry(p, 0, Purchase, amount, In, pools[p-1].Available())]
      ensures Wealth(pools, quotas) == Wealth(old(pools), old(quotas)) + if ok then amount else 0
    {
      if !IsId(p, |pools|) {
        return false;
      }
      var pool := pools[p-1];
      if !pool.active {
        return false;
      }
      if fails {
        return false;
      }
      var oldTotalQuota := pool.total;
      var pool' := pool.(total := pool.total + amount);
      var balanceAfter := (oldTotalQuota + amount) - pool.used;
      var e := Entry(p, 0, Purchase, amount, In, balanceAfter);
      SoundAfterPurchase(pools, rows, log, opening, p, pool', e);
      ActiveBalanceUpdate(pools, p - 1, pool');
      pools, log := pools[p-1 := pool'], log + [e];
      return true;
    }

    /** Handing quota to a user always opens a new row. Any amount up to the balance goes through, also a negative
        one; the books stay in bounds exactly when it is positive. Wealth is kept, unless the user does not exist:
        then the amount leaves the pool and reaches nobody. */
    method AllocateFromPool(p: nat, userId: nat, amount: int, fails: bool) returns (ok: bool)
      requires Valid()
      modifies this
      ensures Valid() && opening == old(opening)
      ensures Bounded() <==> old(Bounded()) && (ok ==> amount > 0)
      ensures ok == (IsActive(old(pools), p) && amount <= old(pools)[p-1].Available() && !fails)
      ensures !ok ==> pools == old(pools) && log == old(log) && rows == old(rows) && quotas == old(quotas)
      ensures ok ==> pools == old(pools)[p-1 := old(pools)[p-1].(used := old(pools)[p-1].used + amount)]
      ensures ok ==> rows == old(rows) + [Allocation(p, userId, amount, 0)]
      ensures ok ==> quotas == Credit(old(quotas), userId, amount)
      ensures ok && IsId(userId, |quotas|) ==> quotas[userId-1] == old(quotas)[userId-1] + amount
      ensures ok ==> log == old(log) + [Entry(p, userId, Allocate, amount, Out, pools[p-1].Available())]
      ensures Wealth(pools, quotas) == Wealth(old(pools), old(quotas))
                                         - if ok && !IsId(userId, |old(quotas)|) then amount else 0
    {
      if !IsId(p, |pools|) {
        return false;
      }
      var pool := pools[p-1];
      if !pool.active || pool.Available() < amount || fails {
        return false;
      }
      var oldUsedQuota := pool.used;
      var pool' := pool.(used := pool.used + amount);
      var allocation := Allocation(p, userId, amount, 0);
      var balanceAfter := pool.total - (oldUsedQuota + amount);
      var e := Entry(p, userId, Allocate, amount, Out, balanceAfter);
      SoundAfterAllocate(pools, rows, log, opening, p, userId, amount, pool', e);
      InBoundsAfterAllocateIff(rows, log, allocation, e);
      WealthAfterMove(pools, quotas, p, pool', userId, amount);
      pools, quotas := pools[p-1 := pool'], Credit(quotas, userId, amount);
      rows, log := rows + [allocation], log + [e];
      return true;
    }

    /** Taking quota back works on the first row of the user in the pool. Wealth is kept. */
    method RecallFromPool(p: nat, userId: nat, amount: int, fails: bool) returns (ok: bool)
      requires Valid() && amount > 0
      modifies this
      ensures Valid() && opening == old(opening) && (old(Bounded()) ==> Bounded())
      ensures ok == (CanRecall(old(pools), old(rows), old(quotas), p, userId, amount) && !fails)
      ensures !ok ==> pools == old(pools) && log == old(log) && rows == old(rows) && quotas == old(quotas)
      ensures ok ==> pools == old(pools)[p-1 := old(pools)[p-1].(used := old(pools)[p-1].used - amount)]
      ensures ok ==> rows == Recalled(old(rows), FirstRow(old(rows), p, userId).value, amount)
      ensures ok ==> forall j :: 0 <= j < |rows| ==>
                && rows[j].granted == old(rows)[j].granted
                && rows[j].recalled == old(rows)[j].recalled
                                         + if Some(j) == FirstRow(old(rows), p, userId) then amount else 0
      ensures ok ==> quotas == Credit(old(quotas), userId, -amount)
      ensures ok ==> quotas[userId-1] == old(quotas)[userId-1] - amount
      ensures ok ==> log == old(log) + [Entry(p, userId, Recall, amount, In, pools[p-1].Available())]
      ensures Wealth(pools, quotas) == Wealth(old(pools), old(quotas))
    {
      if !IsId(p, |pools|) {
        return false;
      }
      var pool := pools[p-1];
      if !pool.active {
        return false;
      }
      var at := FirstRow(rows, p, userId);
      if at.None? {
        return false;
      }
      var allocation := rows[at.value];
      if allocation.Net() < amount {
        return false;
      }
      if !IsId(userId, |quotas|) || quotas[userId-1] < amount || fails {
        return false;
      }
      var oldUsedQuota := pool.used;
      var pool' := pool.(used := pool.used - amount);
      var balanceAfter := pool.total - (oldUsedQuota - amount);
      var e := Entry(p, userId, Recall, amount, In, balanceAfter);
      SoundAfterRecall(pools, rows, log, opening, p, at.value, amount, pool', e);
      if Bounded() {
        InBoundsAfterRecall(rows, log, at.value, amount, e);
      }
      WealthAfterMove(pools, quotas, p, pool', userId, -amount);
      pools, quotas := pools[p-1 := pool'], Credit(quotas, userId, -amount);
      rows, log := Recalled(rows, at.value, amount), log + [e];
      return true;
    }

    /** Closing takes the pool's balance out of circulation; closing an unknown pool does nothing. */
    method ClosePool(p: nat, fails: bool) returns (ok: bool)
      requires Valid()
      modifies `pools
      ensures Valid() && ok == !fails
      ensures pools == if ok then Closed(old(pools), p) else old(pools)
      ensures Wealth(pools, quotas) == Wealth(old(pools), quotas)
                                         - if ok && IsActive(old(pools), p) then old(pools)[p-1].Available() else 0
    {
      if fails {
        return false;
      }
      if IsId(p, |pools|) {
        SoundAfterClose(pools, rows, log, opening, p);
        ActiveBalanceUpdate(pools, p - 1, pools[p-1].(active := false));
        pools := Closed(pools, p);
      }
      return true;
    }

    /** A created pool's log starts from its initial total. */
    method CreatePool(total: int) returns (id: nat)
      requires Valid() && total >= 0
      modifies this
      ensures Valid() && rows == old(rows) && quotas == old(quotas) && log == old(log)
      ensures pools == old(pools) + [Pool(total, 0, true)] && opening == old(opening) + [total] && id == |pools|
      ensures Wealth(pools, quotas) == Wealth(old(pools), quotas) + total
    {
      SoundAfterCreate(pools, rows, log, opening, total);
      ActiveBalanceAppend(pools, Pool(total, 0, true));
      pools, opening := pools + [Pool(total, 0, true)], opening + [total];
      return |pools|;
    }

    /** The pool that takes a balance over. Its log starts from 0, unless the entry for the balance is not written. */
    method OpenWith(remaining: int, logFails: bool) returns (id: nat)
      requires Valid() && remaining >= 0
      modifies this
      ensures Valid() && Bounded() == old(Bounded()) && rows == old(rows) && quotas == old(quotas) && id == |pools|
      ensures pools == old(pools) + [Pool(remaining, 0, true)]
      ensures opening == old(opening) + [if logFails then remaining else 0]
      ensures log == old(log) + CarriedOver(id, remaining, logFails)
      ensures Wealth(pools, quotas) == Wealth(old(pools), quotas) + remaining
    {
      id := |pools| + 1;
      ActiveBalanceAppend(pools, Pool(remaining, 0, true));
      SoundAfterOpening(pools, rows, log, opening, remaining, logFails);
      pools, opening := pools + [Pool(remaining, 0, true)], opening + [if logFails then remaining else 0];
      log := log + CarriedOver(id, remaining, logFails);
    }

    /** Rolling over closes the pool and opens one with what was left. The new log leads from 0 to the balance, unless
        its only entry could not be written. */
    method RollOverPool(p: nat, closeFails: bool, createFails: bool, logFails: bool) returns (r: Result<nat>)
      requires Valid()
      modifies this
      ensures Valid() && Bounded() == old(Bounded()) && rows == old(rows) && quotas == old(quotas)
      ensures r == if IsId(p, |old(pools)|) && !closeFails && !createFails then Ok(|old(pools)| + 1) else Err
      ensures pools == RolledOver(old(pools), p, !closeFails, !createFails)
      ensures r.Err? ==> log == old(log) && opening == old(opening)
      ensures IsId(p, |old(pools)|) ==>
                var remaining := old(pools)[p-1].Available();
                Wealth(pools, quotas) == Wealth(old(pools), quotas)
                  - (if !closeFails && old(pools)[p-1].active then remaining else 0) + (if r.Ok? then remaining else 0)
      ensures !IsId(p, |old(pools)|) ==> pools == old(pools)
      ensures r.Ok? ==>
                var remaining := old(pools)[p-1].Available();
                && opening == old(opening) + [if logFails then remaining else 0]
                && log == old(log) + CarriedOver(r.value, remaining, logFails)
    {
      if !IsId(p, |pools|) {
        return Err;
      }
      var remaining := pools[p-1].Available();
      assert remaining >= 0 by {
        assert PoolSound(p, pools, rows, log, opening);
      }
      var ok := ClosePool(p, closeFails);
      if !ok || createFails {
        return Err;
      }
      var id := OpenWith(remaining, logFails);
      return Ok(id);
    }

    /** One turn of recalling everything: what a row has out is recalled, if it can be. */
    method RecallRow(p: nat, alloc: Allocation, fails: bool) returns (recalled: int)
      requires Valid()
      modifies this
      ensures Valid() && |pools| == |old(pools)| && opening == old(opening) && (old(Bounded()) ==> Bounded())
      ensures IsActive(pools, p) == IsActive(old(pools), p)
      ensures IsId(p, |pools|) ==> recalled == old(pools)[p-1].used - pools[p-1].used
      ensures Turned(alloc, p, IsActive(old(pools), p), fails, old(rows), old(quotas), rows, quotas)
      ensures Wealth(pools, quotas) == Wealth(old(pools), old(quotas))
    {
      recalled := 0;
      var net := alloc.Net();
      if alloc.poolId == p && net > 0 {
        var ok := RecallFromPool(p, alloc.userId, net, fails);
        if ok {
          recalled := net;
        }
      }
    }

    /** Recalling everything: the result is exactly the drop in what the pool has out. With the books in bounds and
        without failures the pool is drained exactly when it is active, no user has anything out in a row other than
        the first one, and every user still owns what is out. */
    method RecallAllFromPool(p: nat, fails: nat -> bool) returns (totalRecalled: int)
      requires Valid()
      modifies this
      ensures Valid() && |pools| == |old(pools)| && opening == old(opening) && (old(Bounded()) ==> Bounded())
      ensures IsId(p, |pools|) ==> totalRecalled == old(pools)[p-1].used - pools[p-1].used
      ensures IsId(p, |pools|) && old(Bounded()) && (forall k :: !fails(k)) ==>
                (pools[p-1].used == 0 <==> Drainable(old(rows), old(quotas), p, old(pools)[p-1].active))
      ensures Wealth(pools, quotas) == Wealth(old(pools), old(quotas))
    {
      var allocations := rows;
      ghost var pools0, quotas0, active := pools, quotas, IsActive(pools, p);
      totalRecalled := 0;
      ghost var noFails := forall k :: !fails(k);
      for i := 0 to |allocations|
        invariant Valid() && |pools| == |pools0| && opening == old(opening) && (old(Bounded()) ==> Bounded())
        invariant IsActive(pools, p) == active && Wealth(pools, quotas) == Wealth(pools0, quotas0)
        invariant IsId(p, |pools|) ==> totalRecalled == pools0[p-1].used - pools[p-1].used
        invariant SameShape(allocations, rows)
        invariant noFails ==> Progress(allocations, quotas0, rows, quotas, p, active, i)
      {
        ghost var rows1, quotas1 := rows, quotas;
        var recalled := RecallRow(p, allocations[i], fails(i));
        totalRecalled := totalRecalled + recalled;
        TurnKeepsShape(allocations, p, active, i, fails(i), rows1, quotas1, rows, quotas);
        if noFails {
          ProgressStep(allocations, quotas0, rows1, quotas1, p, active, i, rows, quotas);
        }
      }
      if noFails && IsId(p, |pools|) && old(Bounded()) {
        DrainedIff(allocations, quotas0, rows, quotas, p, active);
        assert PoolSound(p, pools, rows, log, opening);
      }
    }
  }

  // ----- recalling everything -----

  /** The rows belong to the same pools and users as before. */
  ghost predicate SameShape(rows0: seq<Allocation>, rows: seq<Allocation>)
  {
    && |rows| == |rows0|
    && forall j :: 0 <= j < |rows| ==> rows[j].poolId == rows0[j].poolId && rows[j].userId == rows0[j].userId
  }

  lemma {:induction false} FirstRowByShape(rows0: seq<Allocation>, rows: seq<Allocation>, p: nat, userId: nat)
    requires SameShape(rows0, rows)
    ensures FirstRow(rows, p, userId) == FirstRow(rows0, p, userId)
  {
  }

  /** What one turn of the recall loop does to the rows and the users' quotas. */
  ghost predicate Turned(alloc: Allocation, p: nat, active: bool, fails: bool, rows: seq<Allocation>, quotas: seq<int>,
                         rows': seq<Allocation>, quotas': seq<int>)
  {
    var u, net := alloc.userId, alloc.Net();
    var at := FirstRow(rows, p, u);
    if && alloc.poolId == p && net > 0 && active && !fails && at.Some? && net <= rows[at.value].Net()
       && IsId(u, |quotas|) && net <= quotas[u-1]
    then rows' == Recalled(rows, at.value, net) && quotas' == Credit(quotas, u, -net)
    else rows' == rows && quotas' == quotas
  }

  lemma TurnKeepsShape(rows0: seq<Allocation>, p: nat, active: bool, i: nat, fails: bool, rows: seq<Allocation>,
                       quotas: seq<int>, rows': seq<Allocation>, quotas': seq<int>)
    requires SameShape(rows0, rows) && i < |rows0| && Turned(rows0[i], p, active, fails, rows, quotas, rows', quotas')
    ensures SameShape(rows0, rows')
  {
  }

  predicate IsFirst(rows: seq<Allocation>, p: nat, j: nat)
    requires j < |rows|
  {
    FirstRow(rows, p, rows[j].userId) == Some(j)
  }

  /** Everything out from the pool sits in first rows. */
  ghost predicate OnlyFirstRowsOut(rows: seq<Allocation>, p: nat)
  {
    forall j :: 0 <= j < |rows| && rows[j].poolId == p && rows[j].Net() > 0 ==> IsFirst(rows, p, j)
  }

  predicate Coverable(row: Allocation, quotas: seq<int>, active: bool)
  {
    active && IsId(row.userId, |quotas|) && row.Net() <= quotas[row.userId-1]
  }

  ghost predicate Drainable(rows: seq<Allocation>, quotas: seq<int>, p: nat, active: bool)
  {
    forall j :: 0 <= j < |rows| && rows[j].poolId == p && rows[j].Net() > 0 ==>
      IsFirst(rows, p, j) && Coverable(rows[j], quotas, active)
  }

  /** After the rows before i have been dealt with: rows that are not first are as they were and, if only first rows
      have something out, each of those dealt with is settled when its user could cover it, and the others wait. */
  ghost predicate Progress(rows0: seq<Allocation>, quotas0: seq<int>, rows: seq<Allocation>, quotas: seq<int>,
                           p: nat, active: bool, i: nat)
  {
    && |rows| == |rows0| && |quotas| == |quotas0|
    && (forall j :: 0 <= j < |rows| && rows[j].poolId == p && !IsFirst(rows0, p, j) ==> rows[j] == rows0[j])
    && (OnlyFirstRowsOut(rows0, p) ==>
          forall j :: 0 <= j < |rows| && rows[j].poolId == p && IsFirst(rows0, p, j) ==>
            Waits(rows0, quotas0, rows, quotas, active, i, j))
  }

  ghost predicate Waits(rows0: seq<Allocation>, quotas0: seq<int>, rows: seq<Allocation>, quotas: seq<int>,
                        active: bool, i: nat, j: nat)
    requires |rows| == |rows0| && |quotas| == |quotas0| && j < |rows|
  {
    if j >= i then
      && rows[j] == rows0[j]
      && (rows0[j].Net() > 0 && IsId(rows0[j].userId, |quotas0|) ==>
           quotas[rows0[j].userId-1] == quotas0[rows0[j].userId-1])
    else if rows0[j].Net() > 0 && Coverable(rows0[j], quotas0, active) then rows[j].Net() == 0
    else rows[j] == rows0[j]
  }

  lemma ProgressStep(rows0: seq<Allocation>, quotas0: seq<int>, rows: seq<Allocation>, quotas: seq<int>,
                     p: nat, active: bool, i: nat, rows': seq<Allocation>, quotas': seq<int>)
    requires SameShape(rows0, rows) && i < |rows0| && Progress(rows0, quotas0, rows, quotas, p, active, i)
    requires Turned(rows0[i], p, active, false, rows, quotas, rows', quotas')
    ensures Progress(rows0, quotas0, rows', quotas', p, active, i + 1)
  {
    FirstRowByShape(rows0, rows, p, rows0[i].userId);
    if OnlyFirstRowsOut(rows0, p) {
      if rows0[i].poolId == p && rows0[i].Net() > 0 {
        assert IsFirst(rows0, p, i);
        assert Waits(rows0, quotas0, rows, quotas, active, i, i);
      }
      forall j | 0 <= j < |rows'| && rows'[j].poolId == p && IsFirst(rows0, p, j)
        ensures Waits(rows0, quotas0, rows', quotas', active, i + 1, j)
      {
        assert Waits(rows0, quotas0, rows, quotas, active, i, j);
        if j != i && rows0[i].poolId == p && IsFirst(rows0, p, i) {
          assert rows0[j].userId != rows0[i].userId;
        }
      }
    }
  }

  lemma DrainedIff(rows0: seq<Allocation>, quotas0: seq<int>, rows: seq<Allocation>, quotas: seq<int>,
                   p: nat, active: bool)
    requires SameShape(rows0, rows) && Progress(rows0, quotas0, rows, quotas, p, active, |rows0|)
    requires forall j :: 0 <= j < |rows| ==> RowInBounds(rows0[j]) && RowInBounds(rows[j])
    ensures NetOf(rows, p) == 0 <==> Drainable(rows0, quotas0, p, active)
  {
    NetOfZeroIff(rows, p);
    if NetOf(rows, p) == 0 {
      assert OnlyFirstRowsOut(rows0, p);
      forall j | 0 <= j < |rows0| && rows0[j].poolId == p && rows0[j].Net() > 0
        ensures IsFirst(rows0, p, j) && Coverable(rows0[j], quotas0, active)
      {
        assert Waits(rows0, quotas0, rows, quotas, active, |rows0|, j);
      }
    }
    if Drainable(rows0, quotas0, p, active) {
      assert OnlyFirstRowsOut(rows0, p);
      forall j | 0 <= j < |rows| && rows[j].poolId == p ensures rows[j].Net() == 0 {
        if IsFirst(rows0, p, j) {
          assert Waits(rows0, quotas0, rows, quotas, active, |rows0|, j);
        }
      }
    }
  }

  /** A user with 3 out in a first row and 2 in a second one: the pool cannot be drained, whatever the user has. */
  lemma SecondRowStaysOut(quota: int)
    ensures var rows := [Allocation(1, 1, 3, 0), Allocation(1, 1, 2, 0)];
            NetOf(rows, 1) == 5 && !Drainable(rows, [quota], 1, true)
  {
    var first, second := Allocation(1, 1, 3, 0), Allocation(1, 1, 2, 0);
    var rows := [first, second];
    assert rows[..1] == [first] && [first][..0] == [];
    assert NetOf([first], 1) == 3;
    assert FirstRow(rows[..1], 1, 1) == Some(0);
    assert rows[1].Net() > 0 && !IsFirst(rows, 1, 1);
  }
}
