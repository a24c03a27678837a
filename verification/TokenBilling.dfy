/** External billing transactions: reserve, finalize, cancel, time out, with compensation when a table write fails. */
module TokenBilling {
  import opened Int64
  import opened Text
  import opened Wrappers

  datatype Status = Pending | Confirmed | AutoConfirmed | Canceled

  datatype Transaction = Transaction(
    transactionId: string,
    tokenId: int,
    status: Status,
    preQuota: int,
    finalQuota: Option<int>,
    expiresAt: int,
    confirmedAt: Option<int>,
    canceledAt: Option<int>,
    autoConfirmed: bool,
    reason: string)

  // ----- arithmetic on 64-bit quotas and times -----

  function QuotaToInt64(value: nat): Result<int>
  {
    if value > MAX_INT64 then Err else Ok(value)
  }

  /** The configured limits on how long a hold may last. */
  datatype Timeouts = Timeouts(default': int, max: int)

  function NormalizeTimeoutSeconds(requested: Option<int>, cfg: Timeouts): int
  {
    var default' := if cfg.default' <= 0 then 600 else cfg.default';
    var timeout := if requested.Some? && requested.value > 0 then requested.value else default';
    if cfg.max > 0 && timeout > cfg.max then cfg.max else timeout
  }

  /** A hold lasts as long as it is asked to, or by default as configured or else ten minutes, but never longer than a
      positive maximum, to which it is cut. */
  lemma TimeoutIs(requested: Option<int>, cfg: Timeouts, asked: int)
    requires if requested.Some? && requested.value > 0 then asked == requested.value
             else asked == if cfg.default' > 0 then cfg.default' else 10 * 60
    ensures cfg.max <= 0 || asked <= cfg.max ==> NormalizeTimeoutSeconds(requested, cfg) == asked
    ensures 0 < cfg.max <= asked ==> NormalizeTimeoutSeconds(requested, cfg) == cfg.max
  {
  }

  function ExpiresAt(now: int, requested: Option<int>, cfg: Timeouts): int
  {
    Wrap64(now + NormalizeTimeoutSeconds(requested, cfg))
  }

  /** A hold gets a positive expiry exactly when adding its timeout to the clock does not overflow. */
  lemma ExpiryPositiveIff(now: int, requested: Option<int>, cfg: Timeouts)
    requires 0 <= now <= MAX_INT64 && cfg.default' <= MAX_INT64 && cfg.max <= MAX_INT64
    requires requested.Some? ==> requested.value <= MAX_INT64
    ensures ExpiresAt(now, requested, cfg) > 0 <==> now + NormalizeTimeoutSeconds(requested, cfg) <= MAX_INT64
    ensures 0 < cfg.max <= MAX_INT64 - now ==> ExpiresAt(now, requested, cfg) > now
  {
  }

  /** With a positive configured maximum, as the start-up check demands one, no caller can make the expiry wrap
      around if and only if the maximum leaves room on the clock. */
  lemma NoExpiryWrapsIff(now: int, cfg: Timeouts)
    requires 0 <= now <= MAX_INT64 && cfg.default' <= MAX_INT64 && 0 < cfg.max <= MAX_INT64
    ensures (forall seconds :: seconds <= MAX_INT64 ==> ExpiresAt(now, Some(seconds), cfg) > 0)
       <==> cfg.max <= MAX_INT64 - now
  {
    if cfg.max <= MAX_INT64 - now {
      forall seconds | seconds <= MAX_INT64 ensures ExpiresAt(now, Some(seconds), cfg) > 0 {
        ExpiryPositiveIff(now, Some(seconds), cfg);
      }
    } else {
      ExpiryPositiveIff(now, Some(cfg.max), cfg);
      assert NormalizeTimeoutSeconds(Some(cfg.max), cfg) == cfg.max;
    }
  }

  /** The largest maximum lets the largest request wrap around at any time after the epoch. */
  lemma LargestTimeoutWraps(now: int)
    requires 0 < now <= MAX_INT64
    ensures ExpiresAt(now, Some(MAX_INT64), Timeouts(600, MAX_INT64)) < 0
  {
  }

  // ----- what a transaction holds -----

  /** The quota a transaction stands for. */
  function Effective(t: Transaction): int
  {
    match t.status
    case Pending => t.preQuota
    case AutoConfirmed => t.preQuota
    case Confirmed => if t.finalQuota.Some? then t.finalQuota.value else 0
    case Canceled => 0
  }

  /** The quota all transactions of a token stand for. */
  ghost function Held(txns: seq<Transaction>, token: int): int
  {
    if txns == [] then 0
    else
      var last := txns[|txns|-1];
      Held(txns[..|txns|-1], token) + if last.tokenId == token then Effective(last) else 0
  }

  /** What a token's holds reserve: those still pending, and those that ran out and were confirmed as they were. */
  ghost function Reserved(txns: seq<Transaction>, token: int): int
  {
    if txns == [] then 0
    else
      var last := txns[|txns|-1];
      var counts := last.tokenId == token && (last.status == Pending || last.status == AutoConfirmed);
      Reserved(txns[..|txns|-1], token) + if counts then last.preQuota else 0
  }

  /** What a token's confirmed rows were finalized at. */
  ghost function Finalized(txns: seq<Transaction>, token: int): int
  {
    if txns == [] then 0
    else
      var last := txns[|txns|-1];
      var counts := last.tokenId == token && last.status == Confirmed && last.finalQuota.Some?;
      Finalized(txns[..|txns|-1], token) + if counts then last.finalQuota.value else 0
  }

  /** The rows of a token stand for what it has reserved and what it has finalized; canceled rows for nothing. */
  lemma {:induction false} HeldIsRows(txns: seq<Transaction>, token: int)
    ensures Held(txns, token) == Reserved(txns, token) + Finalized(txns, token)
  {
    if txns != [] {
      HeldIsRows(txns[..|txns|-1], token);
    }
  }

  lemma HeldAppend(txns: seq<Transaction>, t: Transaction, token: int)
    ensures Held(txns + [t], token) == Held(txns, token) + if t.tokenId == token then Effective(t) else 0
  {
    assert (txns + [t])[..|txns|] == txns;
  }

  /** Rewriting one row shifts the sum of its token by the change of that row alone. */
  lemma {:induction false} HeldUpdate(txns: seq<Transaction>, i: nat, t: Transaction, token: int)
    requires i < |txns| && t.tokenId == txns[i].tokenId
    ensures Held(txns[i := t], token)
         == Held(txns, token) + if t.tokenId == token then Effective(t) - Effective(txns[i]) else 0
  {
    var n := |txns| - 1;
    if i == n {
      assert txns[i := t][..n] == txns[..n];
    } else {
      assert txns[i := t][..n] == txns[..n][i := t];
      HeldUpdate(txns[..n], i, t, token);
    }
  }

  /** What every row looks like in each of its states. */
  predicate RowOk(t: Transaction)
  {
    && 0 < t.preQuota <= MAX_INT64
    && (t.status.Pending? ==> t.finalQuota.None? && !t.autoConfirmed && t.confirmedAt.None? && t.canceledAt.None?)
    && (t.status.Confirmed? ==> t.finalQuota.Some? && 0 <= t.finalQuota.value <= MAX_INT64)
    && (t.status.Confirmed? ==> !t.autoConfirmed && t.confirmedAt.Some?)
    && (t.status.AutoConfirmed? ==> t.finalQuota == Some(t.preQuota) && t.autoConfirmed && t.confirmedAt.Some?)
    && (t.status.Canceled? ==> t.finalQuota == Some(0) && !t.autoConfirmed && t.canceledAt.Some?)
    && (!t.status.Pending? ==> t.expiresAt == 0)
  }

  /** The unique index over token and transaction id. */
  predicate UniqueKeys(txns: seq<Transaction>)
  {
    forall i, j :: 0 <= i < j < |txns| ==>
      txns[i].tokenId != txns[j].tokenId || txns[i].transactionId != txns[j].transactionId
  }

  /** Pending exactly when there is an expiry to wait for. */
  predicate ExpiryMarksPending(txns: seq<Transaction>)
  {
    forall i :: 0 <= i < |txns| ==> (txns[i].status.Pending? <==> txns[i].expiresAt > 0)
  }

  /** What may become of rows in time: settled rows never change, a pending row changes only by being settled,
      and no row changes owner or reservation. */
  predicate Evolves(before: seq<Transaction>, after: seq<Transaction>)
  {
    && |before| <= |after|
    && forall i :: 0 <= i < |before| ==>
         && after[i].transactionId == before[i].transactionId && after[i].tokenId == before[i].tokenId
         && after[i].preQuota == before[i].preQuota
         && (!before[i].status.Pending? || after[i].status.Pending? ==> after[i] == before[i])
  }

  lemma EvolvesTransitive(a: seq<Transaction>, b: seq<Transaction>, c: seq<Transaction>)
    requires Evolves(a, b) && Evolves(b, c)
    ensures Evolves(a, c)
  {
  }

  lemma StaysUnexpired(before: seq<Transaction>, after: seq<Transaction>, token: int, now: int)
    requires Evolves(before, after)
    requires NoneExpired(before, token, now)
    ensures forall i :: 0 <= i < |before| ==> !Expired(after[i], token, now)
  {
  }

  /** The position of the row with this token and transaction id. */
  function Find(txns: seq<Transaction>, token: int, transactionId: string): (r: Option<nat>)
    ensures r.Some? ==> && r.value < |txns| && txns[r.value].tokenId == token
                        && txns[r.value].transactionId == transactionId
    ensures r.None? ==> forall i :: 0 <= i < |txns| ==>
              txns[i].tokenId != token || txns[i].transactionId != transactionId
  {
    if txns == [] then None
    else if txns[|txns|-1].tokenId == token && txns[|txns|-1].transactionId == transactionId then Some(|txns| - 1)
    else Find(txns[..|txns|-1], token, transactionId)
  }

  // ----- requests -----

  datatype Phase = Pre | Post | Cancel | Single | Unsupported

  datatype Request = Request(
    phase: Phase,
    addUsedQuota: nat,               // an unsigned 64-bit value
    reason: string,
    transactionId: Option<string>,
    finalUsedQuota: Option<nat>,
    timeoutSeconds: Option<int>)

  /** How a quota call goes: refused before anything is written, or with one of its two writes failing, the one of
      the token's own quota (an unlimited token has none) or the one of its user's quota. */
  datatype QuotaCall = QuotaCall(refused: bool, tokenFails: bool, userFails: bool)

  /** What may go wrong around one request; `undo` is the call that compensates for `quota`. */
  datatype Faults = Faults(ids: bool, quota: QuotaCall, undo: QuotaCall, create: bool, update: bool, reload: bool)

  /** The quota a post request settles on. */
  function FinalQuota(req: Request): Result<int>
  {
    if req.finalUsedQuota.Some? then QuotaToInt64(req.finalUsedQuota.value)
    else if req.addUsedQuota == 0 then Err
    else QuotaToInt64(req.addUsedQuota)
  }

  function TransactionIdOf(req: Request): string
  {
    if req.transactionId.Some? then TrimSpace(req.transactionId.value) else ""
  }

  // ----- the two quotas -----

  /** What has been deducted from a token's own quota, and from its user's quota on its behalf. */
  datatype Amounts = Amounts(token: int, user: int)

  const NOTHING := Amounts(0, 0)

  /** Reserving writes the token first and gives up at the first failure. */
  predicate PreGoesThrough(limited: bool, how: QuotaCall)
  {
    !how.refused && !(limited && how.tokenFails) && !how.userFails
  }

  function PreDeducts(limited: bool, quota: int, how: QuotaCall): Amounts
  {
    if how.refused || (limited && how.tokenFails) then NOTHING
    else Amounts(if limited then quota else 0, if how.userFails then 0 else quota)
  }

  /** Adjusting writes the user first and pays no attention to whether that succeeds. */
  predicate PostGoesThrough(limited: bool, how: QuotaCall)
  {
    !how.refused && !(limited && how.tokenFails)
  }

  function PostDeducts(limited: bool, quota: int, how: QuotaCall): Amounts
  {
    if how.refused then NOTHING
    else Amounts(if limited && !how.tokenFails then quota else 0, if how.userFails then 0 else quota)
  }

  /** A reservation succeeds exactly when its quota call goes through and its row can be created. */
  predicate Reserves(limited: bool, faults: Faults)
  {
    PreGoesThrough(limited, faults.quota) && !faults.create
  }

  /** What a reservation deducts in the end. */
  function ReserveDeducts(limited: bool, quota: int, faults: Faults): Amounts
  {
    var done, undone := PreDeducts(limited, quota, faults.quota), PostDeducts(limited, -quota, faults.undo);
    if PreGoesThrough(limited, faults.quota) && faults.create
    then Amounts(done.token + undone.token, done.user + undone.user)
    else done
  }

  /** Settling at a difference succeeds exactly when the adjustment goes through and the row can be written. */
  predicate Settles(limited: bool, delta: int, faults: Faults)
  {
    (delta == 0 || PostGoesThrough(limited, faults.quota)) && !faults.update
  }

  /** What settling at a difference deducts in the end. */
  function SettleDeducts(limited: bool, delta: int, faults: Faults): Amounts
  {
    var done, undone := PostDeducts(limited, delta, faults.quota), PostDeducts(limited, -delta, faults.undo);
    if delta == 0 then NOTHING
    else if PostGoesThrough(limited, faults.quota) && faults.update
    then Amounts(done.token + undone.token, done.user + undone.user)
    else done
  }

  /** By how much deductions are off when the rows call for others. */
  function Off(deducted: Amounts, limited: bool, change: int): Amounts
  {
    Amounts(deducted.token - if limited then change else 0, deducted.user - change)
  }

  /** By how much a reservation leaves the deductions off what its row stands for. */
  function PreDrift(limited: bool, quota: int, faults: Faults): Amounts
  {
    Off(ReserveDeducts(limited, quota, faults), limited, if Reserves(limited, faults) then quota else 0)
  }

  /** By how much settling a row at a difference leaves the deductions off. */
  function SettleDrift(limited: bool, delta: int, faults: Faults): Amounts
  {
    Off(SettleDeducts(limited, delta, faults), limited, if Settles(limited, delta, faults) then delta else 0)
  }

  /** A reservation keeps the balance if and only if it does not fail between the two writes on a limited token and,
      when the row cannot be created, both deductions are undone. */
  lemma PreBalancedIff(limited: bool, quota: int, faults: Faults)
    requires quota > 0
    ensures PreDrift(limited, quota, faults) == NOTHING <==>
              var how, undo := faults.quota, faults.undo;
              if !PreGoesThrough(limited, how) then !limited || how.refused || how.tokenFails
              else faults.create ==> PostGoesThrough(limited, undo) && !undo.userFails
  {
  }

  /** Settling at a difference keeps the balance if and only if: an adjustment that is reported as failed did not
      reach the user; one that is reported as made did, when the row is then written; and when the row cannot be
      written, the token's deduction is undone and the user's exactly if it was made. */
  lemma SettleBalancedIff(limited: bool, delta: int, faults: Faults)
    requires delta != 0
    ensures SettleDrift(limited, delta, faults) == NOTHING <==>
              var how, undo := faults.quota, faults.undo;
              if !PostGoesThrough(limited, how) then how.refused || how.userFails
              else if faults.update then
                (limited ==> PostGoesThrough(limited, undo)) && how.userFails == (undo.refused || undo.userFails)
              else !how.userFails
  {
  }

  /** Refused at once or carried out in full; the compensating call is carried out. */
  predicate Whole(faults: Faults)
  {
    && (faults.quota.refused || !(faults.quota.tokenFails || faults.quota.userFails))
    && !(faults.undo.refused || faults.undo.tokenFails || faults.undo.userFails)
  }

  lemma WholeKeepsBalance(limited: bool, quota: int, faults: Faults)
    requires Whole(faults)
    ensures PreDrift(limited, quota, faults) == NOTHING && SettleDrift(limited, quota, faults) == NOTHING
  {
  }

  /** A limited token is charged for a reservation that is reported as failed and has no row. */
  lemma TornReservation(quota: int)
    requires quota > 0
    ensures var how, undo := QuotaCall(false, false, true), QuotaCall(false, false, false);
            var faults := Faults(false, how, undo, false, false, false);
            !PreGoesThrough(true, faults.quota) && PreDrift(true, quota, faults) == Amounts(quota, 0)
  {
  }

  /** An unlimited token's settlement is reported as made though its user has paid nothing. */
  lemma UnpaidSettlement(delta: int)
    requires delta > 0
    ensures var how, undo := QuotaCall(false, false, true), QuotaCall(false, false, false);
            var faults := Faults(false, how, undo, false, false, false);
            PostGoesThrough(false, faults.quota) && SettleDrift(false, delta, faults) == Amounts(0, -delta)
  {
  }

  // ----- the guards of the two writes -----

  /** What a token and its user have left. */
  type Balances = Amounts

  /** How a reservation goes, given the balances and the failures of the database: it is refused unless both suffice. */
  function ReserveCall(limited: bool, left: Balances, quota: int, db: QuotaCall): QuotaCall
  {
    QuotaCall(db.refused || (limited && left.token < quota) || left.user < quota,
              db.tokenFails || left.token < quota, db.userFails || left.user < quota)
  }

  /** How an adjustment goes: nothing is checked beforehand, but a deduction is only made from a balance that covers
      it. */
  function AdjustCall(left: Balances, quota: int, db: QuotaCall): QuotaCall
  {
    QuotaCall(db.refused, db.tokenFails || (quota > 0 && left.token < quota),
              db.userFails || (quota > 0 && left.user < quota))
  }

  /** The balances only matter when one of them falls short: a reservation is refused when its user or its limited
      token does, and an adjustment fails to deduct what is not there. */
  lemma BalancesDecide(limited: bool, left: Balances, quota: int, db: QuotaCall)
    ensures left.token >= quota && left.user >= quota ==>
              ReserveCall(limited, left, quota, db) == AdjustCall(left, quota, db) == db
    ensures ReserveCall(limited, left, quota, db).refused <==>
              db.refused || left.user < quota || (limited && left.token < quota)
    ensures var how := AdjustCall(left, quota, db);
            && how.refused == db.refused
            && (how.tokenFails <==> db.tokenFails || (0 < quota && left.token < quota))
            && (how.userFails <==> db.userFails || (0 < quota && left.user < quota))
  {
  }

  const SOUND_DATABASE := QuotaCall(false, false, false)

  /** While the database works, a reservation never leaves the charges off, whatever the balances. */
  lemma ReservationNeverShort(limited: bool, left: Balances, quota: int, faults: Faults)
    requires quota > 0 && !faults.create
    requires faults.quota == ReserveCall(limited, left, quota, SOUND_DATABASE)
    ensures PreDrift(limited, quota, faults) == NOTHING
    ensures Reserves(limited, faults) <==> (limited ==> left.token >= quota) && left.user >= quota
  {
  }

  /** While the database works, settling keeps the balance if and only if there is nothing to pay, or the user can pay
      it, or neither the user nor the limited token can. */
  lemma SettlementShortIff(limited: bool, left: Balances, delta: int, faults: Faults)
    requires !faults.update && faults.quota == AdjustCall(left, delta, SOUND_DATABASE)
    ensures SettleDrift(limited, delta, faults) == NOTHING <==>
              delta <= 0 || if limited && left.token < delta then left.user < delta else left.user >= delta
  {
  }

  /** A user with less than the difference pays nothing for a settlement that is reported as made. */
  lemma ShortUserPaysNothing(left: Balances, delta: int, faults: Faults)
    requires 0 <= left.user < delta && !faults.update && faults.quota == AdjustCall(left, delta, SOUND_DATABASE)
    ensures Settles(false, delta, faults) && SettleDrift(false, delta, faults) == Amounts(0, -delta)
  {
  }

  // ----- what each token has been charged -----

  function ChargedTo(charged: map<int, Amounts>, token: int): Amounts
  {
    if token in charged then charged[token] else NOTHING
  }

  function Charge(charged: map<int, Amounts>, token: int, amounts: Amounts): map<int, Amounts>
  {
    var was := ChargedTo(charged, token);
    charged[token := Amounts(was.token + amounts.token, was.user + amounts.user)]
  }

  /** Two deductions in a row are one of both amounts. */
  lemma ChargedTwice(was: map<int, Amounts>, once: map<int, Amounts>, twice: map<int, Amounts>, token: int,
                     x: Amounts, y: Amounts)
    requires once == Charge(was, token, x) && twice == Charge(once, token, y)
    ensures twice == Charge(was, token, Amounts(x.token + y.token, x.user + y.user))
  {
  }

  lemma NothingMore(was: map<int, Amounts>, once: map<int, Amounts>, twice: map<int, Amounts>, token: int, x: Amounts)
    requires once == Charge(was, token, x) && twice == Charge(once, token, NOTHING)
    ensures twice == once
  {
  }

  ghost predicate BalancedFor(txns: seq<Transaction>, charged: map<int, Amounts>, drift: map<int, Amounts>,
                              limited: int -> bool, token: int)
  {
    var held, due, off := Held(txns, token), ChargedTo(charged, token), ChargedTo(drift, token);
    due.token == (if limited(token) then held else 0) + off.token && due.user == held + off.user
  }

  /** Every token has been charged what its transactions stand for, up to its drift. */
  ghost predicate Balanced(txns: seq<Transaction>, charged: map<int, Amounts>, drift: map<int, Amounts>,
                           limited: int -> bool)
  {
    forall token :: BalancedFor(txns, charged, drift, limited, token)
  }

  /** Without drift, the deductions from both quotas are exactly what the token has reserved and finalized, and the
      other way round. */
  lemma BalancedIffNoDrift(txns: seq<Transaction>, charged: map<int, Amounts>, drift: map<int, Amounts>,
                           limited: int -> bool, token: int)
    requires Balanced(txns, charged, drift, limited)
    ensures var held := Reserved(txns, token) + Finalized(txns, token);
            ChargedTo(charged, token) == Amounts(if limited(token) then held else 0, held)
            <==> ChargedTo(drift, token) == Amounts(0, 0)
  {
    HeldIsRows(txns, token);
    assert BalancedFor(txns, charged, drift, limited, token);
  }

  ghost predicate RowsOk(txns: seq<Transaction>)
  {
    UniqueKeys(txns) && forall i :: 0 <= i < |txns| ==> RowOk(txns[i])
  }

  /** Only one token's rows stand for something else than before. */
  ghost predicate HeldChanges(txns: seq<Transaction>, txns': seq<Transaction>, token: int, change: int)
  {
    forall other :: Held(txns', other) == Held(txns, other) + if other == token then change else 0
  }

  /** These deductions have been made, if any. */
  predicate Deducted(charged: map<int, Amounts>, charged': map<int, Amounts>, token: int, amounts: Amounts)
  {
    charged' == Charge(charged, token, amounts) || (charged' == charged && amounts.token == 0 == amounts.user)
  }

  /** On behalf of this token, this much more has been deducted from its own quota and from its user's; on behalf of
      any other, nothing. */
  ghost predicate ChargedMore(charged: map<int, Amounts>, charged': map<int, Amounts>, token: int, own: int, users: int)
  {
    forall other :: var was, left := ChargedTo(charged, other), ChargedTo(charged', other);
      && left.token == was.token + (if other == token then own else 0)
      && left.user == was.user + if other == token then users else 0
  }

  /** Whatever is deducted and however the rows change, the drift takes up the difference. */
  lemma BalancedAfter(txns: seq<Transaction>, txns': seq<Transaction>, charged: map<int, Amounts>,
                      charged': map<int, Amounts>, drift: map<int, Amounts>, limited: int -> bool, token: int,
                      deducted: Amounts, change: int)
    requires Balanced(txns, charged, drift, limited)
    requires HeldChanges(txns, txns', token, change) && Deducted(charged, charged', token, deducted)
    ensures Balanced(txns', charged', Charge(drift, token, Off(deducted, limited(token), change)), limited)
  {
    var drift' := Charge(drift, token, Off(deducted, limited(token), change));
    forall other ensures BalancedFor(txns', charged', drift', limited, other) {
      assert BalancedFor(txns, charged, drift, limited, other);
    }
  }

  /** Rows that stand for what they did before leave everything as it was. */
  lemma BalancedStill(txns: seq<Transaction>, txns': seq<Transaction>, charged: map<int, Amounts>,
                      drift: map<int, Amounts>, limited: int -> bool, token: int)
    requires Balanced(txns, charged, drift, limited) && HeldChanges(txns, txns', token, 0)
    ensures Balanced(txns', charged, drift, limited)
  {
    forall other ensures BalancedFor(txns', charged, drift, limited, other) {
      assert BalancedFor(txns, charged, drift, limited, other);
    }
  }

  /** While nothing puts a token off, its charges follow its rows. */
  lemma ChargesFollow(txns: seq<Transaction>, txns': seq<Transaction>, charged: map<int, Amounts>,
                      charged': map<int, Amounts>, drift: map<int, Amounts>, limited: int -> bool, token: int,
                      change: int)
    requires Balanced(txns, charged, drift, limited)
    requires Balanced(txns', charged', Charge(drift, token, NOTHING), limited)
    requires HeldChanges(txns, txns', token, change)
    ensures ChargedMore(charged, charged', token, if limited(token) then change else 0, change)
  {
    forall other: int
      ensures var was, left := ChargedTo(charged, other), ChargedTo(charged', other);
              && left.token == was.token + (if other == token && limited(token) then change else 0)
              && left.user == was.user + if other == token then change else 0
    {
      assert BalancedFor(txns, charged, drift, limited, other);
      assert BalancedFor(txns', charged', Charge(drift, token, NOTHING), limited, other);
    }
  }

  lemma AppendChanges(txns: seq<Transaction>, t: Transaction)
    ensures HeldChanges(txns, txns + [t], t.tokenId, Effective(t))
  {
    forall other {
      HeldAppend(txns, t, other);
    }
  }

  lemma UpdateChanges(txns: seq<Transaction>, i: nat, t: Transaction)
    requires i < |txns| && t.tokenId == txns[i].tokenId
    ensures HeldChanges(txns, txns[i := t], t.tokenId, Effective(t) - Effective(txns[i]))
  {
    forall other {
      HeldUpdate(txns, i, t, other);
    }
  }

  predicate SameOwner(t: Transaction, u: Transaction)
  {
    t.tokenId == u.tokenId && t.transactionId == u.transactionId && t.preQuota == u.preQuota
  }

  lemma SettleKeeps(txns: seq<Transaction>, i: nat, t: Transaction)
    requires RowsOk(txns) && i < |txns| && txns[i].status.Pending? && RowOk(t) && !t.status.Pending?
    requires SameOwner(txns[i], t)
    ensures RowsOk(txns[i := t]) && Evolves(txns, txns[i := t])
    ensures ExpiryMarksPending(txns) ==> ExpiryMarksPending(txns[i := t])
  {
  }

  lemma AppendKeeps(txns: seq<Transaction>, t: Transaction)
    requires RowsOk(txns) && RowOk(t) && Find(txns, t.tokenId, t.transactionId).None?
    ensures RowsOk(txns + [t]) && Evolves(txns, txns + [t])
    ensures ExpiryMarksPending(txns) ==> (ExpiryMarksPending(txns + [t]) <==> (t.status.Pending? <==> t.expiresAt > 0))
  {
    if ExpiryMarksPending(txns + [t]) {
      assert (txns + [t])[|txns|] == t;
    }
  }

  // ----- what each event does to the row it settles -----

  function NewHold(req: Request, token: int, transactionId: string, now: int, timeouts: Timeouts): Transaction
  {
    Transaction(transactionId, token, Pending, req.addUsedQuota, None, ExpiresAt(now, req.timeoutSeconds, timeouts),
                None, None, false, req.reason)
  }

  function Confirm(t: Transaction, final: int, now: int, reason: string): Transaction
  {
    t.(status := Confirmed, finalQuota := Some(final), confirmedAt := Some(now), autoConfirmed := false,
       expiresAt := 0, reason := reason)
  }

  function CancelHold(t: Transaction, now: int): Transaction
  {
    t.(status := Canceled, canceledAt := Some(now), finalQuota := Some(0), expiresAt := 0)
  }

  function AutoConfirm(t: Transaction, now: int): Transaction
  {
    t.(status := AutoConfirmed, finalQuota := Some(t.preQuota), confirmedAt := Some(now), autoConfirmed := true,
       expiresAt := 0)
  }

  /** One row is new: a hold for the requested amount, or the same hold settled in full. */
  ghost predicate AddsHold(before: seq<Transaction>, after: seq<Transaction>, token: int, req: Request, now: int,
                           timeouts: Timeouts, settled: bool)
  {
    && 0 < req.addUsedQuota <= MAX_INT64 && |after| == |before| + 1
    && var row := after[|before|];
       var hold := NewHold(req, token, row.transactionId, now, timeouts);
       && after == before + [row] && Find(before, token, row.transactionId).None?
       && row == if settled then Confirm(hold, req.addUsedQuota, now, req.reason) else hold
  }

  predicate Expired(t: Transaction, token: int, now: int)
  {
    t.tokenId == token && t.status.Pending? && 0 < t.expiresAt <= now
  }

  ghost predicate NoneExpired(txns: seq<Transaction>, token: int, now: int)
  {
    forall i :: 0 <= i < |txns| ==> !Expired(txns[i], token, now)
  }

  /** Some of the expired holds of a token have been auto-confirmed, and nothing else has happened. */
  ghost predicate SweptTo(before: seq<Transaction>, after: seq<Transaction>, token: int, now: int)
  {
    && |after| == |before|
    && forall i :: 0 <= i < |before| ==>
         || after[i] == before[i]
         || (Expired(before[i], token, now) && after[i] == AutoConfirm(before[i], now))
  }

  lemma SweepEvolves(before: seq<Transaction>, after: seq<Transaction>, token: int, now: int)
    requires SweptTo(before, after, token, now) && RowsOk(before)
    ensures Evolves(before, after)
    ensures ExpiryMarksPending(before) ==> ExpiryMarksPending(after)
  {
  }

  /** A sweep changes only holds of its token whose positive expiry has come, and it finalizes them at what they
      reserve. */
  lemma SweepConfirms(before: seq<Transaction>, after: seq<Transaction>, token: int, now: int, i: nat)
    requires SweptTo(before, after, token, now) && i < |before| && after[i] != before[i]
    ensures before[i].tokenId == token && before[i].status == Pending && 0 < before[i].expiresAt <= now
    ensures after[i].status == AutoConfirmed && after[i].finalQuota == Some(before[i].preQuota)
    ensures after[i].autoConfirmed && after[i].confirmedAt == Some(now) && after[i].expiresAt == 0
    ensures SameOwner(before[i], after[i]) && after[i].reason == before[i].reason
  {
  }

  // ----- what each phase does to the rows, and by how much it puts the deductions off -----

  /** Proposed transaction ids are never blank. */
  ghost predicate Proposes(proposals: nat -> string)
  {
    forall k :: TrimSpace(proposals(k)) != ""
  }

  /** One call of the billing endpoint, with everything that decides how it goes. */
  datatype Call = Call(
    token: int,
    tokenUsable: bool,
    request: Request,
    now: int,
    findFails: bool,
    sweepFails: nat -> bool,
    proposals: nat -> string,
    faults: Faults,
    postFaults: Faults)

  /** A reservation gets as far as its quota call. */
  predicate PreReaches(txns: seq<Transaction>, token: int, req: Request, proposals: nat -> string, faults: Faults)
  {
    && 0 < req.addUsedQuota <= MAX_INT64 && !faults.ids
    && exists k :: 0 <= k < 5 && Find(txns, token, proposals(k)).None?
  }

  /** A reservation adds a row exactly when its quota call goes through and the row can be created. */
  predicate PreAdds(txns: seq<Transaction>, limited: bool, token: int, req: Request, proposals: nat -> string,
                    faults: Faults)
  {
    PreReaches(txns, token, req, proposals, faults) && Reserves(limited, faults)
  }

  ghost predicate PreRows(txns: seq<Transaction>, txns': seq<Transaction>, limited: bool, token: int, req: Request,
                          now: int, proposals: nat -> string, faults: Faults, timeouts: Timeouts, settled: bool)
  {
    if PreAdds(txns, limited, token, req, proposals, faults)
    then && AddsHold(txns, txns', token, req, now, timeouts, settled)
         && exists k :: 0 <= k < 5 && txns'[|txns|].transactionId == proposals(k)
    else txns' == txns
  }

  function PreGain(txns: seq<Transaction>, limited: bool, token: int, req: Request, proposals: nat -> string,
                   faults: Faults): Amounts
  {
    if PreReaches(txns, token, req, proposals, faults) then PreDrift(limited, req.addUsedQuota, faults) else NOTHING
  }

  /** The row a request names, or the one its caller already has, if it is pending. */
  function PendingRow(txns: seq<Transaction>, existing: Option<nat>, token: int,
                      transactionId: string): (r: Option<nat>)
    requires existing.Some? ==> existing.value < |txns| && txns[existing.value].tokenId == token
    ensures r.Some? ==> r.value < |txns| && txns[r.value].tokenId == token && txns[r.value].status.Pending?
    ensures r.Some? && existing.None? ==> txns[r.value].transactionId == transactionId
  {
    var at := if transactionId == "" then None else if existing.Some? then existing
              else Find(txns, token, transactionId);
    if at.Some? && txns[at.value].status.Pending? then at else None
  }

  /** The row a request settles, with what it settles to. */
  datatype Settlement = Settlement(at: nat, row: Transaction)

  /** A pending row is confirmed at the requested final amount. */
  function PostSettlement(txns: seq<Transaction>, at: Option<nat>, req: Request, now: int): Option<Settlement>
    requires at.Some? ==> at.value < |txns|
  {
    var final := FinalQuota(req);
    if at.Some? && final.Ok?
    then Some(Settlement(at.value, Confirm(txns[at.value], final.value, now, req.reason)))
    else None
  }

  /** A pending row is canceled. */
  function CancelSettlement(txns: seq<Transaction>, at: Option<nat>, now: int): Option<Settlement>
    requires at.Some? ==> at.value < |txns|
  {
    if at.Some? then Some(Settlement(at.value, CancelHold(txns[at.value], now))) else None
  }

  function Delta(txns: seq<Transaction>, s: Settlement): int
    requires s.at < |txns|
  {
    Effective(s.row) - Effective(txns[s.at])
  }

  predicate SettlesAll(txns: seq<Transaction>, limited: bool, s: Option<Settlement>, faults: Faults)
    requires s.Some? ==> s.value.at < |txns|
  {
    s.Some? && Settles(limited, Delta(txns, s.value), faults)
  }

  function SettleRows(txns: seq<Transaction>, limited: bool, s: Option<Settlement>, faults: Faults): seq<Transaction>
    requires s.Some? ==> s.value.at < |txns|
  {
    if SettlesAll(txns, limited, s, faults) then txns[s.value.at := s.value.row] else txns
  }

  function SettleGain(txns: seq<Transaction>, limited: bool, s: Option<Settlement>, faults: Faults): Amounts
    requires s.Some? ==> s.value.at < |txns|
  {
    if s.Some? then SettleDrift(limited, Delta(txns, s.value), faults) else NOTHING
  }

  /** What a finalizing or a canceling call settles. */
  function CallSettlement(txns: seq<Transaction>, call: Call): (s: Option<Settlement>)
    ensures s.Some? ==> s.value.at < |txns| && Names(call, txns[s.value.at])
  {
    var at := PendingRow(txns, None, call.token, TransactionIdOf(call.request));
    match call.request.phase
    case Post => PostSettlement(txns, at, call.request, call.now)
    case Cancel => CancelSettlement(txns, at, call.now)
    case _ => None
  }

  /** The request asks for this transaction to be settled. */
  predicate Names(call: Call, t: Transaction)
  {
    && (call.request.phase.Post? || call.request.phase.Cancel?)
    && call.token == t.tokenId && TransactionIdOf(call.request) == t.transactionId
  }

  /** An immediate consumption is a reservation that is settled at once unless something fails in between. */
  predicate SettledAtOnce(call: Call)
  {
    call.request.phase.Single? && !call.faults.reload && !call.postFaults.update
  }

  ghost predicate PhaseRows(txns: seq<Transaction>, txns': seq<Transaction>, limited: bool, call: Call,
                            timeouts: Timeouts)
  {
    match call.request.phase
    case Post => txns' == SettleRows(txns, limited, CallSettlement(txns, call), call.faults)
    case Cancel => txns' == SettleRows(txns, limited, CallSettlement(txns, call), call.faults)
    case Unsupported => txns' == txns
    case _ => PreRows(txns, txns', limited, call.token, call.request, call.now, call.proposals, call.faults, timeouts,
                      SettledAtOnce(call))
  }

  /** By how much a phase puts the deductions of its token off what the rows stand for. */
  function PhaseGain(txns: seq<Transaction>, limited: bool, call: Call): Amounts
  {
    match call.request.phase
    case Post => SettleGain(txns, limited, CallSettlement(txns, call), call.faults)
    case Cancel => SettleGain(txns, limited, CallSettlement(txns, call), call.faults)
    case Unsupported => NOTHING
    case _ => PreGain(txns, limited, call.token, call.request, call.proposals, call.faults)
  }

  /** What a phase answers: success exactly when its rows were written and could be read back. */
  predicate PhaseSucceeds(txns: seq<Transaction>, limited: bool, call: Call)
  {
    match call.request.phase
    case Post => SettlesAll(txns, limited, CallSettlement(txns, call), call.faults) && !call.faults.reload
    case Cancel => SettlesAll(txns, limited, CallSettlement(txns, call), call.faults) && !call.faults.reload
    case Unsupported => false
    case Pre => PreAdds(txns, limited, call.token, call.request, call.proposals, call.faults) && !call.faults.reload
    case Single =>
      && PreAdds(txns, limited, call.token, call.request, call.proposals, call.faults)
      && SettledAtOnce(call) && !call.postFaults.reload
  }

  /** A reservation adds its row exactly when the amount is positive and fits, an id is found, and neither a quota
      write nor the row fails. The row is a hold of that amount, pending unless the reservation is part of an immediate
      consumption that gets as far as confirming it. */
  lemma ReservesIff(txns: seq<Transaction>, txns': seq<Transaction>, limited: bool, call: Call, timeouts: Timeouts)
    requires PhaseRows(txns, txns', limited, call, timeouts)
    requires call.request.phase.Pre? || call.request.phase.Single?
    ensures var req, faults := call.request, call.faults;
            txns' != txns <==>
              && 0 < req.addUsedQuota <= MAX_INT64 && !faults.ids
              && (exists k :: 0 <= k < 5 && Find(txns, call.token, call.proposals(k)).None?)
              && !faults.quota.refused && (limited ==> !faults.quota.tokenFails) && !faults.quota.userFails
              && !faults.create
    ensures txns' != txns ==>
              && |txns'| == |txns| + 1 && txns'[..|txns|] == txns
              && (exists k :: 0 <= k < 5 && txns'[|txns|].transactionId == call.proposals(k))
              && var row, settled := txns'[|txns|],
                     call.request.phase.Single? && !call.faults.reload && !call.postFaults.update;
                 && row.tokenId == call.token && row.preQuota == call.request.addUsedQuota
                 && row.reason == call.request.reason && !row.autoConfirmed && row.canceledAt == None
                 && row.status == (if settled then Confirmed else Pending)
                 && row.finalQuota == (if settled then Some(row.preQuota) else None)
                 && row.confirmedAt == (if settled then Some(call.now) else None)
                 && row.expiresAt == if settled then 0 else ExpiresAt(call.now, call.request.timeoutSeconds, timeouts)
  {
  }

  /** A reservation that adds its row charges exactly the requested amount. */
  lemma ReservationCharges(txns: seq<Transaction>, txns': seq<Transaction>, charged: map<int, Amounts>,
                           charged': map<int, Amounts>, drift: map<int, Amounts>, limited: int -> bool, token: int,
                           req: Request, now: int, proposals: nat -> string, faults: Faults, timeouts: Timeouts,
                           settled: bool)
    requires PreRows(txns, txns', limited(token), token, req, now, proposals, faults, timeouts, settled)
    requires Balanced(txns, charged, drift, limited)
    requires var gain := PreGain(txns, limited(token), token, req, proposals, faults);
             Balanced(txns', charged', Charge(drift, token, gain), limited)
    ensures txns' != txns ==> ChargedMore(charged, charged', token,
                                          if limited(token) then req.addUsedQuota else 0, req.addUsedQuota)
  {
    if txns' != txns {
      AppendChanges(txns, txns'[|txns|]);
      ChargesFollow(txns, txns', charged, charged', drift, limited, token, req.addUsedQuota);
    }
  }

  /** The request names this row by its trimmed id, which must not be blank, and the row is still pending. */
  ghost predicate NamesPending(req: Request, token: int, t: Transaction)
  {
    && t.tokenId == token && t.status == Pending
    && req.transactionId.Some? && TrimSpace(req.transactionId.value) == t.transactionId != ""
  }

  lemma PendingRowIff(txns: seq<Transaction>, token: int, req: Request, i: nat)
    requires UniqueKeys(txns) && i < |txns|
    ensures PendingRow(txns, None, token, TransactionIdOf(req)) == Some(i) <==> NamesPending(req, token, txns[i])
  {
  }

  /** What a successful finalization makes of a row: confirmed at the final amount given, or else at the amount to
      add. */
  ghost predicate ConfirmedBy(req: Request, now: int, before: Transaction, after: Transaction)
  {
    && after.status == Confirmed && !after.autoConfirmed && after.expiresAt == 0
    && after.finalQuota == Some(if req.finalUsedQuota.Some? then req.finalUsedQuota.value else req.addUsedQuota)
    && after.confirmedAt == Some(now) && after.reason == req.reason
    && after.canceledAt == before.canceledAt && SameOwner(before, after)
  }

  /** What a successful cancellation makes of a row. */
  ghost predicate CanceledBy(now: int, before: Transaction, after: Transaction)
  {
    && after.status == Canceled && after.finalQuota == Some(0) && after.canceledAt == Some(now) && after.expiresAt == 0
    && after.confirmedAt == before.confirmedAt && after.autoConfirmed == before.autoConfirmed
    && after.reason == before.reason && SameOwner(before, after)
  }

  /** A finalization changes a row exactly when it names it while it is pending, gives an amount that fits, and the
      difference, if there is one, and the row can be written; the row is then confirmed at that amount. */
  lemma PostsIff(txns: seq<Transaction>, txns': seq<Transaction>, limited: bool, call: Call, timeouts: Timeouts, i: nat)
    requires PhaseRows(txns, txns', limited, call, timeouts) && call.request.phase.Post?
    requires RowsOk(txns) && i < |txns|
    ensures |txns'| == |txns|
    ensures var req, how := call.request, call.faults.quota;
            txns'[i] != txns[i] <==>
              && NamesPending(req, call.token, txns[i]) && !call.faults.update
              && var final := if req.finalUsedQuota.Some? then req.finalUsedQuota.value else req.addUsedQuota;
                 && final <= MAX_INT64 && (final == 0 ==> req.finalUsedQuota.Some?)
                 && (final == txns[i].preQuota || (!how.refused && (limited ==> !how.tokenFails)))
    ensures txns'[i] != txns[i] ==> ConfirmedBy(call.request, call.now, txns[i], txns'[i])
  {
    PendingRowIff(txns, call.token, call.request, i);
  }

  /** A cancellation changes a row exactly when it names it while it is pending, and the refund and the row can be
      written; the row is then canceled. */
  lemma CancelsIff(txns: seq<Transaction>, txns': seq<Transaction>, limited: bool, call: Call, timeouts: Timeouts,
                   i: nat)
    requires PhaseRows(txns, txns', limited, call, timeouts) && call.request.phase.Cancel?
    requires RowsOk(txns) && i < |txns|
    ensures |txns'| == |txns|
    ensures var how := call.faults.quota;
            txns'[i] != txns[i] <==>
              && NamesPending(call.request, call.token, txns[i]) && !call.faults.update
              && !how.refused && (limited ==> !how.tokenFails)
    ensures txns'[i] != txns[i] ==> CanceledBy(call.now, txns[i], txns'[i])
  {
    PendingRowIff(txns, call.token, call.request, i);
    assert RowOk(txns[i]);
  }

  /** A call answers success exactly when its rows were written and could be read back; an immediate consumption must
      also have confirmed its row. */
  lemma SucceedsIff(txns: seq<Transaction>, txns': seq<Transaction>, limited: bool, call: Call, timeouts: Timeouts)
    requires PhaseRows(txns, txns', limited, call, timeouts) && RowsOk(txns)
    ensures PhaseSucceeds(txns, limited, call) <==>
              && txns' != txns && !call.faults.reload
              && (call.request.phase.Single? ==> |txns| < |txns'| && txns'[|txns|].status == Confirmed
                                                 && !call.postFaults.reload)
  {
    var s := CallSettlement(txns, call);
    if s.Some? {
      assert RowOk(txns[s.value.at]);
    }
  }

  /** When no quota write fails, a cancellation that is made gives back exactly what its row reserved, and a
      finalization charges exactly the difference to its final amount: to the user, and to a limited token. */
  lemma SettlingCharges(txns: seq<Transaction>, txns': seq<Transaction>, charged: map<int, Amounts>,
                        charged': map<int, Amounts>, drift: map<int, Amounts>, drift': map<int, Amounts>,
                        limited: int -> bool, call: Call, timeouts: Timeouts, i: nat)
    requires Balanced(txns, charged, drift, limited) && Balanced(txns', charged', drift', limited)
    requires PhaseRows(txns, txns', limited(call.token), call, timeouts)
    requires drift' == Charge(drift, call.token, PhaseGain(txns, limited(call.token), call))
    requires !call.faults.quota.refused && !call.faults.quota.tokenFails && !call.faults.quota.userFails
    requires RowsOk(txns) && i < |txns| && i < |txns'| && txns'[i] != txns[i]
    ensures call.request.phase.Post? || call.request.phase.Cancel?
    ensures call.request.phase.Post? ==> txns'[i].finalQuota.Some?
    ensures var change := (if call.request.phase.Post? then txns'[i].finalQuota.value else 0) - txns[i].preQuota;
            ChargedMore(charged, charged', call.token, if limited(call.token) then change else 0, change)
  {
    var s := CallSettlement(txns, call);
    if call.request.phase.Post? || call.request.phase.Cancel? {
      UpdateChanges(txns, i, s.value.row);
      ChargesFollow(txns, txns', charged, charged', drift, limited, call.token, Delta(txns, s.value));
    }
  }

  /** A hold can be settled at the amount it reserves without charging anything. */
  lemma HoldSettlesInFull(before: seq<Transaction>, held: seq<Transaction>, limited: bool, token: int, req: Request,
                          postReq: Request, now: int, timeouts: Timeouts, faults: Faults)
    requires AddsHold(before, held, token, req, now, timeouts, false)
    requires TransactionIdOf(postReq) != "" && postReq.reason == req.reason
    requires postReq.finalUsedQuota == Some(req.addUsedQuota)
    ensures var at := PendingRow(held, Some(|before|), token, TransactionIdOf(postReq));
            var s := PostSettlement(held, at, postReq, now);
            && s.Some? && s.value.at == |before|
            && SettlesAll(held, limited, s, faults) == !faults.update
            && SettleGain(held, limited, s, faults) == NOTHING
            && AddsHold(before, SettleRows(held, limited, s, faults), token, req, now, timeouts, !faults.update)
            && SettleRows(held, limited, s, faults)[|before|].transactionId == held[|before|].transactionId
  {
    var row := held[|before|];
    assert held[|before| := Confirm(row, req.addUsedQuota, now, req.reason)]
        == before + [Confirm(row, req.addUsedQuota, now, req.reason)];
  }

  // ----- whole runs -----

  /** The rows, and by how much the deductions are off what they stand for. */
  datatype State = State(txns: seq<Transaction>, drift: map<int, Amounts>)

  /** One billing event: the state it finds, the state after the sweep, the state it leaves, and whether it got as far
      as its phase. */
  datatype Step = Step(before: State, swept: State, after: State, taken: bool)

  ghost predicate Event(step: Step, limited: int -> bool, call: Call, timeouts: Timeouts)
  {
    var found, kept, left := step.before, step.swept, step.after;
    var admitted := call.tokenUsable && call.request.reason != "";
    && SweptTo(found.txns, kept.txns, call.token, call.now) && kept.drift == found.drift
    && (step.taken ==> admitted && NoneExpired(kept.txns, call.token, call.now))
    && (call.findFails ==> kept == found && !step.taken)
    && (admitted && !call.findFails && (forall k :: !call.sweepFails(k)) ==> step.taken)
    && if !step.taken then left == kept
       else && PhaseRows(kept.txns, left.txns, limited(call.token), call, timeouts)
            && left.drift == Charge(kept.drift, call.token, PhaseGain(kept.txns, limited(call.token), call))
  }

  ghost predicate Run(trace: seq<Step>, calls: seq<Call>, limited: int -> bool, timeouts: Timeouts)
  {
    && |trace| == |calls|
    && (forall k :: 0 <= k < |calls| ==> Event(trace[k], limited, calls[k], timeouts))
    && (forall k :: 0 < k < |trace| ==> trace[k].before == trace[k-1].after)
  }

  lemma RunGrows(trace: seq<Step>, calls: seq<Call>, step: Step, call: Call, limited: int -> bool, timeouts: Timeouts)
    requires Run(trace, calls, limited, timeouts) && Event(step, limited, call, timeouts)
    requires trace != [] ==> step.before == trace[|trace|-1].after
    ensures Run(trace + [step], calls + [call], limited, timeouts)
  {
  }

  /** By how much one event puts a token off. */
  function Gain(step: Step, limited: int -> bool, call: Call, token: int): Amounts
  {
    if step.taken && call.token == token then PhaseGain(step.swept.txns, limited(token), call) else NOTHING
  }

  ghost function Gains(trace: seq<Step>, calls: seq<Call>, limited: int -> bool, token: int): Amounts
    requires |trace| == |calls|
  {
    if trace == [] then NOTHING
    else
      var n := |trace| - 1;
      var before, last := Gains(trace[..n], calls[..n], limited, token), Gain(trace[n], limited, calls[n], token);
      Amounts(before.token + last.token, before.user + last.user)
  }

  lemma EventGains(step: Step, limited: int -> bool, call: Call, timeouts: Timeouts, token: int)
    requires Event(step, limited, call, timeouts)
    ensures var was, left := ChargedTo(step.before.drift, token), ChargedTo(step.after.drift, token);
            var gain := Gain(step, limited, call, token);
            left.token == was.token + gain.token && left.user == was.user + gain.user
  {
  }

  /** What puts a token off in a run is the sum of what its events put it off. */
  lemma {:induction false} DriftIsGains(trace: seq<Step>, calls: seq<Call>, limited: int -> bool, timeouts: Timeouts,
                                        token: int)
    requires Run(trace, calls, limited, timeouts) && trace != []
    ensures var was, left := ChargedTo(trace[0].before.drift, token), ChargedTo(trace[|trace|-1].after.drift, token);
            var gains := Gains(trace, calls, limited, token);
            left.token == was.token + gains.token && left.user == was.user + gains.user
  {
    var n := |trace| - 1;
    EventGains(trace[n], limited, calls[n], timeouts, token);
    if n > 0 {
      DriftIsGains(trace[..n], calls[..n], limited, timeouts, token);
    }
  }

  /** After a run that started in balance, the deductions from both quotas are exactly what the token has reserved and
      finalized if and only if what the events put the token off adds up to nothing. */
  lemma BalancedRunIff(trace: seq<Step>, calls: seq<Call>, limited: int -> bool, timeouts: Timeouts,
                       charged: map<int, Amounts>, token: int)
    requires Run(trace, calls, limited, timeouts) && trace != []
    requires ChargedTo(trace[0].before.drift, token) == NOTHING
    requires var last := trace[|trace|-1].after; Balanced(last.txns, charged, last.drift, limited)
    ensures var rows := trace[|trace|-1].after.txns;
            var held := Reserved(rows, token) + Finalized(rows, token);
            ChargedTo(charged, token) == Amounts(if limited(token) then held else 0, held)
            <==> Gains(trace, calls, limited, token) == NOTHING
  {
    var last := trace[|trace|-1].after;
    DriftIsGains(trace, calls, limited, timeouts, token);
    BalancedIffNoDrift(last.txns, charged, last.drift, limited, token);
  }

  lemma WholePhaseGainsNothing(txns: seq<Transaction>, limited: bool, call: Call)
    requires Whole(call.faults)
    ensures PhaseGain(txns, limited, call) == NOTHING
  {
    var s := CallSettlement(txns, call);
    WholeKeepsBalance(limited, if s.Some? then Delta(txns, s.value) else call.request.addUsedQuota, call.faults);
  }

  /** When every quota call is refused at once or carried out in full, no run puts any token off: rows may fail to be
      created or written at any point. */
  lemma {:induction false} WholeRunsStayBalanced(trace: seq<Step>, calls: seq<Call>, limited: int -> bool, token: int)
    requires |trace| == |calls| && forall k :: 0 <= k < |calls| ==> Whole(calls[k].faults)
    ensures Gains(trace, calls, limited, token) == NOTHING
  {
    if trace != [] {
      var n := |trace| - 1;
      WholeRunsStayBalanced(trace[..n], calls[..n], limited, token);
      WholePhaseGainsNothing(trace[n].swept.txns, limited(token), calls[n]);
    }
  }

  // ----- which kinds of failure put a token off -----

  predicate CallWithin(how: QuotaCall, allowed: QuotaCall)
  {
    && (how.refused ==> allowed.refused) && (how.tokenFails ==> allowed.tokenFails)
    && (how.userFails ==> allowed.userFails)
  }

  /** Only allowed kinds of failure occur. */
  predicate Within(faults: Faults, allowed: Faults)
  {
    && CallWithin(faults.quota, allowed.quota) && CallWithin(faults.undo, allowed.undo)
    && (faults.create ==> allowed.create) && (faults.update ==> allowed.update)
  }

  /** These kinds of failure leave a token of this sort in balance: the user's write is never allowed to fail, nor the
      token's if it is limited; and the same of the compensating call, which must not be refused either, unless rows
      can always be written. */
  predicate Harmless(allowed: Faults, limited: bool)
  {
    && !allowed.quota.userFails && !(limited && allowed.quota.tokenFails)
    && (allowed.create || allowed.update ==>
          !allowed.undo.refused && !allowed.undo.userFails && !(limited && allowed.undo.tokenFails))
  }

  lemma HarmlessKeepsBalance(allowed: Faults, limited: bool, quota: int, faults: Faults)
    requires Harmless(allowed, limited) && Within(faults, allowed)
    ensures PreDrift(limited, quota, faults) == NOTHING && SettleDrift(limited, quota, faults) == NOTHING
  {
  }

  lemma HarmlessPhaseGainsNothing(txns: seq<Transaction>, limited: bool, call: Call, allowed: Faults)
    requires Harmless(allowed, limited) && Within(call.faults, allowed)
    ensures PhaseGain(txns, limited, call) == NOTHING
  {
    var s := CallSettlement(txns, call);
    HarmlessKeepsBalance(allowed, limited, if s.Some? then Delta(txns, s.value) else call.request.addUsedQuota,
                         call.faults);
  }

  lemma {:induction false} HarmlessRunsGainNothing(trace: seq<Step>, calls: seq<Call>, limited: int -> bool,
                                                   allowed: Faults, token: int)
    requires |trace| == |calls| && Harmless(allowed, limited(token))
    requires forall k :: 0 <= k < |calls| ==> Within(calls[k].faults, allowed)
    ensures Gains(trace, calls, limited, token) == NOTHING
  {
    if trace != [] {
      var n := |trace| - 1;
      HarmlessRunsGainNothing(trace[..n], calls[..n], limited, allowed, token);
      HarmlessPhaseGainsNothing(trace[n].swept.txns, limited(token), calls[n], allowed);
    }
  }

  /** Every run from the empty table, with any failures of the allowed kinds, charges this token what its rows stand
      for. */
  ghost predicate StaysBalanced(allowed: Faults, limited: int -> bool, timeouts: Timeouts, token: int)
  {
    forall trace: seq<Step>, calls: seq<Call> ::
      Run(trace, calls, limited, timeouts) && trace != [] && trace[0].before == State([], map[])
      && (forall k :: 0 <= k < |calls| ==> Within(calls[k].faults, allowed))
      ==> Gains(trace, calls, limited, token) == NOTHING
  }

  lemma PutsOff(trace: seq<Step>, calls: seq<Call>, limited: int -> bool, timeouts: Timeouts, allowed: Faults,
                token: int)
    requires Run(trace, calls, limited, timeouts) && trace != [] && trace[0].before == State([], map[])
    requires forall k :: 0 <= k < |calls| ==> Within(calls[k].faults, allowed)
    requires Gains(trace, calls, limited, token) != NOTHING
    ensures !StaysBalanced(allowed, limited, timeouts, token)
  {
  }

  /** A call that reserves or finalizes, at the epoch, under a given id. */
  function CallOf(token: int, phase: Phase, id: string, quota: nat, faults: Faults): Call
  {
    Call(token, true, Request(phase, quota, id, Some(id), Some(quota), None), 0, false, k => false, k => id,
         faults, faults)
  }

  /** A run of one reservation that does not get its row. */
  lemma FailedReservationPutsOff(limited: int -> bool, timeouts: Timeouts, allowed: Faults, token: int, id: string,
                                 faults: Faults)
    requires TrimSpace(id) == id != "" && Within(faults, allowed) && !faults.ids
    requires !Reserves(limited(token), faults) && PreDrift(limited(token), 1, faults) != NOTHING
    ensures !StaysBalanced(allowed, limited, timeouts, token)
  {
    var call := CallOf(token, Pre, id, 1, faults);
    var empty := State([], map[]);
    assert Find([], token, call.proposals(0)).None?;
    var gain := PhaseGain([], limited(token), call);
    var step := Step(empty, empty, State([], Charge(map[], token, gain)), true);
    assert Event(step, limited, call, timeouts);
    GainOfOne(step, call, limited, token);
    PutsOff([step], [call], limited, timeouts, allowed, token);
  }

  lemma GainOfOne(step: Step, call: Call, limited: int -> bool, token: int)
    ensures var gain := Gain(step, limited, call, token);
            Gains([step], [call], limited, token) == Amounts(gain.token, gain.user)
  {
    assert [step][..0] == [] && [call][..0] == [];
    assert Gains([step][..0], [call][..0], limited, token) == NOTHING;
  }

  lemma GainOfTwo(first: Step, second: Step, call: Call, call': Call, limited: int -> bool, token: int)
    requires Gain(first, limited, call, token) == NOTHING
    ensures var gain := Gain(second, limited, call', token);
            Gains([first, second], [call, call'], limited, token) == Amounts(gain.token, gain.user)
  {
    assert [first, second][..1] == [first] && [call, call'][..1] == [call];
    GainOfOne(first, call, limited, token);
  }

  const NO_FAULTS := Faults(false, QuotaCall(false, false, false), QuotaCall(false, false, false), false, false, false)

  /** A reservation without failures. */
  function HoldStep(token: int, id: string, timeouts: Timeouts): Step
  {
    var call := CallOf(token, Pre, id, 1, NO_FAULTS);
    var empty := State([], map[]);
    var hold := NewHold(call.request, token, id, 0, timeouts);
    Step(empty, empty, State([hold], Charge(map[], token, NOTHING)), true)
  }

  lemma HoldIsEvent(limited: int -> bool, timeouts: Timeouts, token: int, id: string)
    requires TrimSpace(id) == id != ""
    ensures var call, step := CallOf(token, Pre, id, 1, NO_FAULTS), HoldStep(token, id, timeouts);
            Event(step, limited, call, timeouts) && Gain(step, limited, call, token) == NOTHING
  {
    var call, step := CallOf(token, Pre, id, 1, NO_FAULTS), HoldStep(token, id, timeouts);
    assert Find([], token, call.proposals(0)).None?;
    assert [] + [step.after.txns[0]] == step.after.txns;
    assert PreAdds([], limited(token), token, call.request, call.proposals, call.faults);
  }

  /** The finalization at one more than the hold reserves. */
  function PostStep(token: int, id: string, timeouts: Timeouts, limited: bool, faults: Faults): Step
  {
    var call := CallOf(token, Post, id, 2, faults);
    var held := HoldStep(token, id, timeouts).after;
    var s := CallSettlement(held.txns, call);
    Step(held, held, State(SettleRows(held.txns, limited, s, faults),
                           Charge(held.drift, token, SettleGain(held.txns, limited, s, faults))), true)
  }

  lemma PostIsEvent(limited: int -> bool, timeouts: Timeouts, token: int, id: string, faults: Faults)
    requires TrimSpace(id) == id != ""
    ensures var call, step := CallOf(token, Post, id, 2, faults), PostStep(token, id, timeouts, limited(token), faults);
            Event(step, limited, call, timeouts)
            && Gain(step, limited, call, token) == SettleDrift(limited(token), 1, faults)
  {
    var call, step := CallOf(token, Post, id, 2, faults), PostStep(token, id, timeouts, limited(token), faults);
    var held := step.before.txns;
    assert PendingRow(held, None, token, id) == Some(0);
    assert NoneExpired(held, token, 0);
    assert Delta(held, CallSettlement(held, call).value) == 1;
  }

  /** A run of a reservation and its finalization. */
  lemma SettlementPutsOff(limited: int -> bool, timeouts: Timeouts, allowed: Faults, token: int, id: string,
                          faults: Faults)
    requires TrimSpace(id) == id != "" && Within(faults, allowed)
    requires SettleDrift(limited(token), 1, faults) != NOTHING
    ensures !StaysBalanced(allowed, limited, timeouts, token)
  {
    HoldIsEvent(limited, timeouts, token, id);
    PostIsEvent(limited, timeouts, token, id, faults);
    var first, second := HoldStep(token, id, timeouts), PostStep(token, id, timeouts, limited(token), faults);
    var call, call' := CallOf(token, Pre, id, 1, NO_FAULTS), CallOf(token, Post, id, 2, faults);
    GainOfTwo(first, second, call, call', limited, token);
    PutsOff([first, second], [call, call'], limited, timeouts, allowed, token);
  }

  /** Every run limited to the allowed kinds of failure keeps a token in balance if and only if they are harmless to
      it. */
  lemma StaysBalancedIff(allowed: Faults, limited: int -> bool, timeouts: Timeouts, token: int)
    ensures StaysBalanced(allowed, limited, timeouts, token) <==> Harmless(allowed, limited(token))
  {
    if Harmless(allowed, limited(token)) {
      forall trace: seq<Step>, calls: seq<Call>
        | |trace| == |calls| && forall k :: 0 <= k < |calls| ==> Within(calls[k].faults, allowed)
        ensures Gains(trace, calls, limited, token) == NOTHING
      {
        HarmlessRunsGainNothing(trace, calls, limited, allowed, token);
      }
    } else {
      HarmPutsOff(allowed, limited, timeouts, token, "x");
    }
  }

  lemma HarmPutsOff(allowed: Faults, limited: int -> bool, timeouts: Timeouts, token: int, id: string)
    requires TrimSpace(id) == id != "" && !Harmless(allowed, limited(token))
    ensures !StaysBalanced(allowed, limited, timeouts, token)
  {
    var sound := QuotaCall(false, false, false);
    if allowed.quota.userFails {
      var faults := Faults(false, QuotaCall(false, false, true), sound, false, false, false);
      if limited(token) {
        FailedReservationPutsOff(limited, timeouts, allowed, token, id, faults);
      } else {
        SettlementPutsOff(limited, timeouts, allowed, token, id, faults);
      }
    } else if limited(token) && allowed.quota.tokenFails {
      SettlementPutsOff(limited, timeouts, allowed, token, id,
                        Faults(false, QuotaCall(false, true, false), sound, false, false, false));
    } else if allowed.create {
      FailedReservationPutsOff(limited, timeouts, allowed, token, id,
                               Faults(false, sound, allowed.undo, true, false, false));
    } else {
      SettlementPutsOff(limited, timeouts, allowed, token, id,
                        Faults(false, sound, allowed.undo, false, true, false));
    }
  }

  /** A phase changes the row it names and no other row that was there. */
  lemma PhaseTouchesNamed(txns: seq<Transaction>, txns': seq<Transaction>, limited: bool, call: Call,
                          timeouts: Timeouts, i: nat)
    requires PhaseRows(txns, txns', limited, call, timeouts) && i < |txns| && !Names(call, txns[i])
    ensures i < |txns'| && txns'[i] == txns[i]
  {
  }

  /** A pending row without a positive expiry is pending for ever: in no run does a sweep settle it, nor any call that
      does not name it. */
  lemma {:induction false} PendingForEver(trace: seq<Step>, calls: seq<Call>, limited: int -> bool, timeouts: Timeouts,
                                          i: nat)
    requires Run(trace, calls, limited, timeouts) && trace != [] && i < |trace[0].before.txns|
    requires var row := trace[0].before.txns[i];
             row.expiresAt <= 0 && forall k :: 0 <= k < |calls| ==> !Names(calls[k], row)
    ensures var last := trace[|trace|-1].after.txns; i < |last| && last[i] == trace[0].before.txns[i]
  {
    var n := |trace| - 1;
    if n > 0 {
      PendingForEver(trace[..n], calls[..n], limited, timeouts, i);
    }
    var step := trace[n];
    if step.taken {
      PhaseTouchesNamed(step.swept.txns, step.after.txns, limited(calls[n].token), calls[n], timeouts, i);
    }
  }

  class Billing {
    var txns: seq<Transaction>
    /** What has been deducted on behalf of each token so far, from its own quota and from its user's. */
    var charged: map<int, Amounts>
    const timeouts: Timeouts
    /** Whether a token has a quota of its own. */
    const limited: int -> bool
    /** By how much the deductions are off what the rows stand for. */
    ghost var drift: map<int, Amounts>

    ghost predicate Valid()
      reads this
    {
      Balanced(txns, charged, drift, limited) && RowsOk(txns)
    }

    ghost function Now(): State
      reads this
    {
      State(txns, drift)
    }

    constructor (timeouts: Timeouts, limited: int -> bool)
      ensures Valid() && txns == [] && charged == map[] && drift == map[]
      ensures this.timeouts == timeouts && this.limited == limited
    {
      txns, charged, drift := [], map[], map[];
      this.timeouts, this.limited := timeouts, limited;
    }

    /** Two writes, the token's first; a failure of the second leaves the first in place. */
    method PreConsumeTokenQuota(token: int, quota: int, how: QuotaCall) returns (ok: bool)
      modifies `charged
      ensures ok == PreGoesThrough(limited(token), how)
      ensures charged == Charge(old(charged), token, PreDeducts(limited(token), quota, how))
    {
      ok := !how.refused;
      var row := ChargedTo(charged, token);
      if ok && limited(token) {
        ok := !how.tokenFails;
        if ok {
          row := row.(token := row.token + quota);
        }
      }
      if ok {
        ok := !how.userFails;
        if ok {
          row := row.(user := row.user + quota);
        }
      }
      charged := charged[token := row];
    }

    /** Two writes, the user's first; nobody looks at whether that one succeeded. */
    method PostConsumeTokenQuota(token: int, quota: int, how: QuotaCall) returns (ok: bool)
      modifies `charged
      ensures ok == PostGoesThrough(limited(token), how)
      ensures charged == Charge(old(charged), token, PostDeducts(limited(token), quota, how))
    {
      ok := !how.refused;
      var row := ChargedTo(charged, token);
      if ok {
        if !how.userFails {
          row := row.(user := row.user + quota);
        }
        if limited(token) {
          ok := !how.tokenFails;
          if ok {
            row := row.(token := row.token + quota);
          }
        }
      }
      charged := charged[token := row];
    }

    /** The first of five proposed ids that the token has not used. */
    method GenerateTransactionId(token: int, proposals: nat -> string, fails: bool) returns (r: Option<string>)
      ensures r.Some? ==> Find(txns, token, r.value).None? && exists k :: 0 <= k < 5 && r.value == proposals(k)
      ensures r.None? <==> fails || forall k :: 0 <= k < 5 ==> Find(txns, token, proposals(k)).Some?
    {
      if fails {
        return None;
      }
      for k := 0 to 5
        invariant forall n :: 0 <= n < k ==> Find(txns, token, proposals(n)).Some?
      {
        if Find(txns, token, proposals(k)).None? {
          return Some(proposals(k));
        }
      }
      return None;
    }

    /** The id under which a valid amount can be reserved. */
    method PrepareHold(token: int, req: Request, proposals: nat -> string, faults: Faults) returns (r: Option<string>)
      ensures r.Some? <==> PreReaches(txns, token, req, proposals, faults)
      ensures r.Some? ==> Find(txns, token, r.value).None? && exists k :: 0 <= k < 5 && r.value == proposals(k)
    {
      if req.addUsedQuota == 0 {
        return None;
      }
      var preQuota := QuotaToInt64(req.addUsedQuota);
      if preQuota.Err? {
        return None;
      }
      r := GenerateTransactionId(token, proposals, faults.ids);
    }

    /** Deducts a reservation; the deduction is undone when its row cannot be created. */
    method Deduct(token: int, quota: int, faults: Faults) returns (ok: bool)
      modifies `charged
      ensures ok == Reserves(limited(token), faults)
      ensures Deducted(old(charged), charged, token, ReserveDeducts(limited(token), quota, faults))
    {
      ok := PreConsumeTokenQuota(token, quota, faults.quota);
      if ok && faults.create {
        ghost var once := charged;
        ok := PostConsumeTokenQuota(token, -quota, faults.undo);
        ChargedTwice(old(charged), once, charged, token, PreDeducts(limited(token), quota, faults.quota),
                     PostDeducts(limited(token), -quota, faults.undo));
        ok := false;
      }
    }

    /** Creates the row of a reservation once it is deducted. */
    method Reserve(hold: Transaction, faults: Faults) returns (ok: bool)
      requires Valid() && RowOk(hold) && hold.status.Pending? && Find(txns, hold.tokenId, hold.transactionId).None?
      modifies this
      ensures Valid() && Evolves(old(txns), txns)
      ensures ok == Reserves(limited(hold.tokenId), faults)
      ensures txns == if ok then old(txns) + [hold] else old(txns)
      ensures drift == Charge(old(drift), hold.tokenId, PreDrift(limited(hold.tokenId), hold.preQuota, faults))
      ensures ExpiryMarksPending(old(txns)) ==> (ExpiryMarksPending(txns) <==> txns == old(txns) || hold.expiresAt > 0)
    {
      var token, quota := hold.tokenId, hold.preQuota;
      ok := Deduct(token, quota, faults);
      if ok {
        AppendKeeps(txns, hold);
        AppendChanges(txns, hold);
        txns := txns + [hold];
      }
      BalancedAfter(old(txns), txns, old(charged), charged, drift, limited, token,
                    ReserveDeducts(limited(token), quota, faults), if ok then quota else 0);
      drift := Charge(drift, token, PreDrift(limited(token), quota, faults));
    }

    /** Reserves quota: a pending row is added exactly when the quota call goes through and the row can be created.
        The reload at the end may still report an error for a hold that stands. */
    method ProcessPreConsume(token: int, req: Request, now: int, proposals: nat -> string, faults: Faults)
        returns (r: Result<nat>)
      requires Valid()
      modifies this
      ensures Valid() && Evolves(old(txns), txns)
      ensures PreRows(old(txns), txns, limited(token), token, req, now, proposals, faults, timeouts, false)
      ensures drift == Charge(old(drift), token, PreGain(old(txns), limited(token), token, req, proposals, faults))
      ensures r == if PreAdds(old(txns), limited(token), token, req, proposals, faults) && !faults.reload
                   then Ok(|old(txns)|) else Err
      ensures txns != old(txns) ==> ChargedMore(old(charged), charged, token,
                                                if limited(token) then req.addUsedQuota else 0, req.addUsedQuota)
      ensures ExpiryMarksPending(old(txns)) ==>
                (ExpiryMarksPending(txns) <==> txns == old(txns) || ExpiresAt(now, req.timeoutSeconds, timeouts) > 0)
    {
      var id := PrepareHold(token, req, proposals, faults);
      if id.None? {
        BalancedAfter(txns, txns, charged, charged, drift, limited, token, NOTHING, 0);
        drift := Charge(drift, token, NOTHING);
        return Err;
      }
      var ok := Reserve(NewHold(req, token, id.value, now, timeouts), faults);
      ReservationCharges(old(txns), txns, old(charged), charged, old(drift), limited, token, req, now, proposals,
                         faults, timeouts, false);
      if !ok || faults.reload {
        return Err;
      }
      return Ok(|txns| - 1);
    }

    /** The row a request asks to settle, if it is still pending. */
    method FindPending(token: int, req: Request, existing: Option<nat>) returns (at: Option<nat>)
      requires existing.Some? ==> existing.value < |txns| && txns[existing.value].tokenId == token
      ensures at == PendingRow(txns, existing, token, TransactionIdOf(req))
    {
      var transactionId := TransactionIdOf(req);
      if transactionId == "" {
        return None;
      }
      at := existing;
      if at.None? {
        at := Find(txns, token, transactionId);
        if at.None? {
          return None;
        }
      }
      if !txns[at.value].status.Pending? {
        return None;
      }
    }

    /** Charges the difference that settling a row makes; when the row cannot be written, the charge is taken back. */
    method Adjust(token: int, delta: int, faults: Faults) returns (ok: bool)
      modifies `charged
      ensures ok == Settles(limited(token), delta, faults)
      ensures Deducted(old(charged), charged, token, SettleDeducts(limited(token), delta, faults))
      ensures ok ==> ChargedMore(old(charged), charged, token, if limited(token) then delta else 0,
                                 if faults.quota.userFails then 0 else delta)
    {
      var quotaAdjusted := false;
      if delta != 0 {
        ok := PostConsumeTokenQuota(token, delta, faults.quota);
        if !ok {
          return;
        }
        quotaAdjusted := true;
      }
      if faults.update && quotaAdjusted {
        ghost var once := charged;
        ok := PostConsumeTokenQuota(token, -delta, faults.undo);
        ChargedTwice(old(charged), once, charged, token, PostDeducts(limited(token), delta, faults.quota),
                     PostDeducts(limited(token), -delta, faults.undo));
      }
      ok := !faults.update;
    }

    /** Writes the settled form of a pending row once the difference it makes is charged. */
    method Settle(s: Settlement, faults: Faults) returns (ok: bool)
      requires Valid() && s.at < |txns| && txns[s.at].status.Pending? && RowOk(s.row) && !s.row.status.Pending?
      requires SameOwner(txns[s.at], s.row)
      modifies this
      ensures Valid() && Evolves(old(txns), txns)
      ensures ok == SettlesAll(old(txns), limited(s.row.tokenId), Some(s), faults)
      ensures txns == SettleRows(old(txns), limited(s.row.tokenId), Some(s), faults)
      ensures drift == Charge(old(drift), s.row.tokenId, SettleGain(old(txns), limited(s.row.tokenId), Some(s), faults))
      ensures ok ==> var delta := Delta(old(txns), s);
                     ChargedMore(old(charged), charged, s.row.tokenId, if limited(s.row.tokenId) then delta else 0,
                                 if faults.quota.userFails then 0 else delta)
      ensures ExpiryMarksPending(old(txns)) ==> ExpiryMarksPending(txns)
    {
      var token, delta := s.row.tokenId, Delta(txns, s);
      ok := Adjust(token, delta, faults);
      if ok {
        SettleKeeps(txns, s.at, s.row);
        UpdateChanges(txns, s.at, s.row);
        txns := txns[s.at := s.row];
      }
      BalancedAfter(old(txns), txns, old(charged), charged, drift, limited, token,
                    SettleDeducts(limited(token), delta, faults), if ok then delta else 0);
      drift := Charge(drift, token, SettleDrift(limited(token), delta, faults));
    }

    /** Nothing is settled and nothing deducted. */
    ghost method BookNothing(token: int)
      requires Valid()
      modifies `drift
      ensures Valid() && drift == Charge(old(drift), token, NOTHING)
    {
      BalancedAfter(txns, txns, charged, charged, drift, limited, token, NOTHING, 0);
      drift := Charge(drift, token, NOTHING);
    }

    /** Settles a pending reservation at its final amount: the difference is charged or refunded, and taken
        back again if the row cannot be written. `existing` is the row when the caller already has it. */
    method ProcessPostConsume(token: int, req: Request, now: int, existing: Option<nat>, faults: Faults)
        returns (r: Result<nat>)
      requires Valid()
      requires existing.Some? ==> existing.value < |txns| && txns[existing.value].tokenId == token
      modifies this
      ensures Valid() && Evolves(old(txns), txns)
      ensures var at := PendingRow(old(txns), existing, token, TransactionIdOf(req));
              var s := PostSettlement(old(txns), at, req, now);
              && txns == SettleRows(old(txns), limited(token), s, faults)
              && drift == Charge(old(drift), token, SettleGain(old(txns), limited(token), s, faults))
              && r == if SettlesAll(old(txns), limited(token), s, faults) && !faults.reload then Ok(s.value.at) else Err
      ensures txns != old(txns) ==>
                var at := PendingRow(old(txns), existing, token, TransactionIdOf(req));
                && at.Some? && ConfirmedBy(req, now, old(txns)[at.value], txns[at.value])
                && var delta := txns[at.value].finalQuota.value - txns[at.value].preQuota;
                   ChargedMore(old(charged), charged, token, if limited(token) then delta else 0,
                               if faults.quota.userFails then 0 else delta)
      ensures ExpiryMarksPending(old(txns)) ==> ExpiryMarksPending(txns)
    {
      var at := FindPending(token, req, existing);
      var finalQuota := FinalQuota(req);
      if at.None? || finalQuota.Err? {
        BookNothing(token);
        return Err;
      }
      var row := txns[at.value];
      var ok := Settle(Settlement(at.value, Confirm(row, finalQuota.value, now, req.reason)), faults);
      if !ok || faults.reload {
        return Err;
      }
      return Ok(at.value);
    }

    /** Releases a pending reservation: its quota is refunded, and charged again if the row cannot be written. */
    method ProcessCancelConsume(token: int, req: Request, now: int, faults: Faults) returns (r: Result<nat>)
      requires Valid()
      modifies this
      ensures Valid() && Evolves(old(txns), txns)
      ensures var at := PendingRow(old(txns), None, token, TransactionIdOf(req));
              var s := CancelSettlement(old(txns), at, now);
              && txns == SettleRows(old(txns), limited(token), s, faults)
              && drift == Charge(old(drift), token, SettleGain(old(txns), limited(token), s, faults))
              && r == if SettlesAll(old(txns), limited(token), s, faults) && !faults.reload then Ok(s.value.at) else Err
      ensures txns != old(txns) ==>
                var at := PendingRow(old(txns), None, token, TransactionIdOf(req));
                && at.Some? && NamesPending(req, token, old(txns)[at.value])
                && CanceledBy(now, old(txns)[at.value], txns[at.value])
                && var refund := txns[at.value].preQuota;
                   ChargedMore(old(charged), charged, token, if limited(token) then -refund else 0,
                               if faults.quota.userFails then 0 else -refund)
      ensures ExpiryMarksPending(old(txns)) ==> ExpiryMarksPending(txns)
    {
      var at := FindPending(token, req, None);
      if at.None? {
        BookNothing(token);
        return Err;
      }
      var row := txns[at.value];
      var ok := Settle(Settlement(at.value, CancelHold(row, now)), faults);
      if !ok || faults.reload {
        return Err;
      }
      return Ok(at.value);
    }

    /** Reserving and settling in one request. A settlement that fails leaves the reservation pending. */
    method ProcessImmediateConsume(token: int, req: Request, now: int, proposals: nat -> string,
                                   preFaults: Faults, postFaults: Faults) returns (r: Result<nat>)
      requires Valid() && Proposes(proposals)
      modifies this
      ensures Valid() && Evolves(old(txns), txns)
      ensures PreRows(old(txns), txns, limited(token), token, req, now, proposals, preFaults, timeouts,
                      !preFaults.reload && !postFaults.update)
      ensures drift == Charge(old(drift), token, PreGain(old(txns), limited(token), token, req, proposals, preFaults))
      ensures r == if PreAdds(old(txns), limited(token), token, req, proposals, preFaults)
                      && !preFaults.reload && !postFaults.update && !postFaults.reload
                   then Ok(|old(txns)|) else Err
      ensures txns != old(txns) ==> ChargedMore(old(charged), charged, token,
                                                if limited(token) then req.addUsedQuota else 0, req.addUsedQuota)
      ensures ExpiryMarksPending(old(txns)) && ExpiresAt(now, req.timeoutSeconds, timeouts) > 0 ==>
                ExpiryMarksPending(txns)
    {
      r := ProcessPreConsume(token, req, now, proposals, preFaults);
      if r.Err? {
        return Err;
      }
      ghost var held, booked := txns, drift;
      var id := txns[r.value].transactionId;
      var postReq := req.(transactionId := Some(id), finalUsedQuota := Some(req.addUsedQuota));
      assert TransactionIdOf(postReq) != "";
      HoldSettlesInFull(old(txns), txns, limited(token), token, req, postReq, now, timeouts, postFaults);
      r := ProcessPostConsume(token, postReq, now, Some(r.value), postFaults);
      NothingMore(old(drift), booked, drift, token,
                  PreGain(old(txns), limited(token), token, req, proposals, preFaults));
      ReservationCharges(old(txns), txns, old(charged), charged, old(drift), limited, token, req, now, proposals,
                         preFaults, timeouts, !preFaults.reload && !postFaults.update);
      EvolvesTransitive(old(txns), held, txns);
    }

    method FindExpired(token: int, now: int) returns (pending: seq<nat>)
      ensures forall k :: 0 <= k < |pending| ==> pending[k] < |txns| && Expired(txns[pending[k]], token, now)
      ensures forall j, k :: 0 <= j < k < |pending| ==> pending[j] < pending[k]
      ensures forall j :: 0 <= j < |txns| && Expired(txns[j], token, now) ==> j in pending
    {
      pending := [];
      for i := 0 to |txns|
        invariant forall k :: 0 <= k < |pending| ==> pending[k] < i && Expired(txns[pending[k]], token, now)
        invariant forall j, k :: 0 <= j < k < |pending| ==> pending[j] < pending[k]
        invariant forall j :: 0 <= j < i && Expired(txns[j], token, now) ==> j in pending
      {
        if Expired(txns[i], token, now) {
          pending := pending + [i];
        }
      }
    }

    /** Auto-confirms the expired holds of a token, one by one, until a write fails. Nobody is charged. */
    method AutoConfirmExpired(token: int, now: int, findFails: bool, fails: nat -> bool) returns (ok: bool)
      requires Valid()
      modifies `txns
      ensures Valid() && Evolves(old(txns), txns) && SweptTo(old(txns), txns, token, now)
      ensures ok ==> forall i :: 0 <= i < |txns| && txns[i].tokenId == token && txns[i].status == Pending ==>
                                   txns[i].expiresAt <= 0 || now < txns[i].expiresAt
      ensures findFails ==> !ok && txns == old(txns)
      ensures ok || findFails || exists k :: fails(k)
      ensures ExpiryMarksPending(old(txns)) ==> ExpiryMarksPending(txns)
    {
      if findFails {
        return false;
      }
      ghost var before := txns;
      var pending := FindExpired(token, now);
      ok := true;
      for n := 0 to |pending|
        invariant ok && Balanced(txns, charged, drift, limited) && RowsOk(txns) && SweptTo(before, txns, token, now)
        invariant forall k :: n <= k < |pending| ==> txns[pending[k]] == before[pending[k]]
        invariant forall k :: 0 <= k < n ==> !txns[pending[k]].status.Pending?
      {
        var at := pending[n];
        if fails(n) {
          ok := false;
          break;
        }
        var settled := AutoConfirm(txns[at], now);
        SettleKeeps(txns, at, settled);
        UpdateChanges(txns, at, settled);
        BalancedStill(txns, txns[at := settled], charged, drift, limited, token);
        txns := txns[at := settled];
      }
      SweepEvolves(before, txns, token, now);
    }

    /** The phase that a billing event asks for. */
    method TakePhase(call: Call) returns (ok: bool)
      requires Valid() && Proposes(call.proposals)
      modifies this
      ensures Valid() && Evolves(old(txns), txns)
      ensures PhaseRows(old(txns), txns, limited(call.token), call, timeouts)
      ensures drift == Charge(old(drift), call.token, PhaseGain(old(txns), limited(call.token), call))
      ensures ok == PhaseSucceeds(old(txns), limited(call.token), call)
      ensures ExpiryMarksPending(old(txns)) && ExpiresAt(call.now, call.request.timeoutSeconds, timeouts) > 0
              ==> ExpiryMarksPending(txns)
    {
      var req := call.request;
      var r := Err;
      match req.phase {
        case Pre =>
          r := ProcessPreConsume(call.token, req, call.now, call.proposals, call.faults);
        case Post =>
          r := ProcessPostConsume(call.token, req, call.now, None, call.faults);
        case Cancel =>
          r := ProcessCancelConsume(call.token, req, call.now, call.faults);
        case Single =>
          r := ProcessImmediateConsume(call.token, req, call.now, call.proposals, call.faults, call.postFaults);
        case Unsupported =>
          BookNothing(call.token);
      }
      ok := r.Ok?;
    }

    /** One billing event: expired holds are settled first, then the event takes its phase. */
    method ConsumeToken(call: Call) returns (ok: bool, ghost step: Step)
      requires Valid() && Proposes(call.proposals)
      modifies this
      ensures Valid() && Evolves(old(txns), txns)
      ensures step.before == old(Now()) && step.after == Now() && Event(step, limited, call, timeouts)
      ensures ok <==> step.taken && PhaseSucceeds(step.swept.txns, limited(call.token), call)
      ensures ok ==> forall i :: 0 <= i < |old(txns)| && txns[i].tokenId == call.token && txns[i].status == Pending ==>
                                   txns[i].expiresAt <= 0 || call.now < txns[i].expiresAt
      ensures ExpiryMarksPending(old(txns)) && ExpiresAt(call.now, call.request.timeoutSeconds, timeouts) > 0
              ==> ExpiryMarksPending(txns)
    {
      ok := AutoConfirmExpired(call.token, call.now, call.findFails, call.sweepFails);
      ghost var swept := Now();
      step := Step(old(Now()), swept, swept, false);
      if !ok {
        return;
      }
      if call.request.reason == "" || !call.tokenUsable {
        ok := false;
        return;
      }
      ok := TakePhase(call);
      step := Step(old(Now()), swept, Now(), true);
      EvolvesTransitive(old(txns), swept.txns, txns);
      StaysUnexpired(swept.txns, txns, call.token, call.now);
    }

    /** Any run of billing events, whatever fails along the way. */
    method ServeAll(calls: seq<Call>) returns (ghost trace: seq<Step>)
      requires Valid() && forall k :: 0 <= k < |calls| ==> Proposes(calls[k].proposals)
      modifies this
      ensures Valid() && Evolves(old(txns), txns) && Run(trace, calls, limited, timeouts)
      ensures trace != [] ==> trace[0].before == old(Now()) && trace[|trace|-1].after == Now()
      ensures trace == [] ==> Now() == old(Now())
      ensures ExpiryMarksPending(old(txns))
              && (forall k :: 0 <= k < |calls| ==>
                   ExpiresAt(calls[k].now, calls[k].request.timeoutSeconds, timeouts) > 0)
              ==> ExpiryMarksPending(txns)
    {
      trace := [];
      for n := 0 to |calls|
        invariant Valid() && Evolves(old(txns), txns) && Run(trace, calls[..n], limited, timeouts)
        invariant trace != [] ==> trace[0].before == old(Now()) && trace[|trace|-1].after == Now()
        invariant trace == [] ==> Now() == old(Now())
        invariant ExpiryMarksPending(old(txns))
                  && (forall k :: 0 <= k < n ==> ExpiresAt(calls[k].now, calls[k].request.timeoutSeconds, timeouts) > 0)
                  ==> ExpiryMarksPending(txns)
      {
        ghost var before := txns;
        ghost var step;
        var ok;
        ok, step := ConsumeToken(calls[n]);
        RunGrows(trace, calls[..n], step, calls[n], limited, timeouts);
        assert calls[..n+1] == calls[..n] + [calls[n]];
        trace := trace + [step];
        EvolvesTransitive(old(txns), before, txns);
      }
      assert calls[..|calls|] == calls;
    }
  }
}
