/** The in-process limiter: one bounded queue of accepted stamps per key and a sweep that
    drops idle keys. It is proved against a log that is never pruned. */
module MemoryRateLimiter {
  import opened Wrappers
  import opened SlidingLog

  /** The state of one key: absent, or a queue that is never empty. */
  type Slot = slot: Option<seq<int>> | slot.Some? ==> slot.value != [] witness None

  function Queue(slot: Slot): seq<int>
  {
    if slot.Some? then slot.value else []
  }

  /** What one request does to the state of its key, and the answer it gets. */
  function AfterRequest(slot: Slot, p: Policy, now: int): (r: (Slot, bool))
  {
    match slot
    case None => (Some([now]), true)
    case Some(queue) =>
      if |queue| < p.max then (Some(queue + [now]), true)
      else if now - queue[0] >= p.duration then (Some(queue[1..] + [now]), true)
      else (slot, false)
  }

  /** The newest stamp of the queue is older than the expiration. */
  predicate Idle(queue: seq<int>, expiration: int, now: int)
  {
    |queue| == 0 || now - queue[|queue|-1] > expiration
  }

  /** What the periodic sweep leaves of one key. */
  function AfterSweep(slot: Slot, expiration: int, now: int): Slot
  {
    if slot.Some? && Idle(slot.value, expiration, now) then None else slot
  }

  /** One request step refines the ideal log: same answer, and the queue stays faithful. */
  lemma RequestRefines(log: seq<int>, slot: Slot, p: Policy, clock: int, now: int)
    requires Represents(log, Queue(slot), p, clock) && clock <= now && p.max >= 1
    ensures AfterRequest(slot, p, now).1 <==> Admits(log, p, now)
    ensures var r := AfterRequest(slot, p, now);
            Represents(if r.1 then log + [now] else log, Queue(r.0), p, now)
  {
    QueueDecides(log, Queue(slot), p, clock, now);
    if AfterRequest(slot, p, now).1 {
      AcceptKeeps(log, Queue(slot), p, clock, now);
    }
  }

  /** The sweep forgets a key only when the ideal log has nothing to say about it any more. */
  lemma SweepRefines(log: seq<int>, slot: Slot, p: Policy, expiration: int, clock: int, now: int)
    requires Represents(log, Queue(slot), p, clock) && clock <= now && p.max >= 1
    requires p.duration <= expiration
    ensures Represents(log, Queue(AfterSweep(slot, expiration, now)), p, now)
  {
    if AfterSweep(slot, expiration, now) != slot {
      ForgetKeeps(log, Queue(slot), p, clock, now);
    }
  }

  // ----- limits that change -----

  function Max(a: int, b: int): int
  {
    if a >= b then a else b
  }

  /** The limit that a request really meets: a queue never gets shorter, so a lowered limit is not in force. */
  function LimitInForce(slot: Slot, max: int): (limit: int)
    ensures limit >= max && limit >= 1 && limit >= |Queue(slot)|
  {
    Max(max, Max(|Queue(slot)|, 1))
  }

  /** A queue as long as the limit or longer keeps its length, whatever the answer; only a sweep undoes that. */
  lemma LengthStays(slot: Slot, p: Policy, now: int)
    ensures var queue, queue' := Queue(slot), Queue(AfterRequest(slot, p, now).0);
            |queue'| == if slot.None? || |queue| < p.max then |queue| + 1 else |queue|
  {
  }

  /** Whatever limits a key has been asked with before, a request is answered as the never-pruned log answers it
      under the limit in force. */
  lemma AnswersUnderAnyLimit(log: seq<int>, slot: Slot, max: int, duration: int, clock: int, now: int)
    requires Remembers(log, Queue(slot), duration, clock) && clock <= now
    ensures var r := AfterRequest(slot, Policy(max, duration), now);
            && (r.1 <==> Admits(log, Policy(LimitInForce(slot, max), duration), now))
            && Remembers(if r.1 then log + [now] else log, Queue(r.0), duration, now)
            && |Queue(r.0)| <= LimitInForce(slot, max)
  {
    var queue, limit := Queue(slot), LimitInForce(slot, max);
    QueueDecides(log, queue, Policy(limit, duration), clock, now);
    if AfterRequest(slot, Policy(max, duration), now).1 {
      AcceptRemembers(log, queue, duration, clock, now, slot.Some? && |queue| >= max);
    }
  }

  /** The limit that is given decides a request if and only if the queue is not longer than it allows, or the head and
      the stamp that the given limit asks about are on the same side of the window. */
  lemma HonoursLimitIff(log: seq<int>, slot: Slot, max: int, duration: int, clock: int, now: int)
    requires Remembers(log, Queue(slot), duration, clock) && clock <= now && max >= 1
    ensures var queue, p := Queue(slot), Policy(max, duration);
            AfterRequest(slot, p, now).1 == Admits(log, p, now) <==>
              !(|queue| > max && queue[0] <= now - duration < queue[|queue|-max])
  {
    var queue := Queue(slot);
    if |queue| <= max {
      AnswersUnderAnyLimit(log, slot, max, duration, clock, now);
    } else {
      assert log[|log|-|queue|..][|queue|-max] == log[|log|-max];
      assert queue[0] == log[|log|-|queue|] <= log[|log|-max];
      AdmitsByOldest(log, Policy(max, duration), now);
    }
  }

  /** The key's next request, whenever it comes, is decided by the given limit if and only if the queue is not longer,
      or holds no two stamps to tell apart, or the stamp that the given limit asks about has left the window. */
  lemma HonoursLimitFromNowOnIff(log: seq<int>, slot: Slot, max: int, duration: int, clock: int)
    requires Remembers(log, Queue(slot), duration, clock) && max >= 1
    ensures (forall now :: clock <= now ==> Honours(log, slot, max, duration, now)) <==>
              var queue := Queue(slot);
              |queue| <= max || queue[0] == queue[|queue|-max] || queue[|queue|-max] <= clock - duration
  {
    var queue := Queue(slot);
    forall now | clock <= now
      ensures Honours(log, slot, max, duration, now) <==>
                !(|queue| > max && queue[0] <= now - duration < queue[|queue|-max])
    {
      HonoursLimitIff(log, slot, max, duration, clock, now);
    }
    if |queue| > max {
      assert queue[0] == log[|log|-|queue|] <= log[|log|-max] == queue[|queue|-max];
      assert Honours(log, slot, max, duration, Max(clock, queue[0] + duration)) ==>
               queue[0] == queue[|queue|-max] || queue[|queue|-max] <= clock - duration;
    }
  }

  /** A request at this time is answered as the never-pruned log answers it under the limit that is given. */
  ghost predicate Honours(log: seq<int>, slot: Slot, max: int, duration: int, now: int)
  {
    AfterRequest(slot, Policy(max, duration), now).1 == Admits(log, Policy(max, duration), now)
  }

  /** Two requests at 0 and 9 under a limit of 2 in ten seconds, then one at 10 under a limit of 1: it is accepted,
      though the window still holds the request at 9. */
  lemma LoweredLimitIsPassed()
    ensures var first := AfterRequest(None, Policy(2, 10), 0);
            var second := AfterRequest(first.0, Policy(2, 10), 9);
            && first.1 && second.1 && second.0 == Some([0, 9])
            && AfterRequest(second.0, Policy(1, 10), 10).1 && !Admits([0, 9], Policy(1, 10), 10)
  {
    assert [0] + [9] == [0, 9];
    AdmitsByOldest([0, 9], Policy(1, 10), 10);
  }

  /** One key is faithful: its queue stands for its log, and no window of the log holds more than the highest
      limit the key has been asked with. */
  ghost predicate KeyFaithful(log: seq<int>, slot: Slot, peak: int, duration: int, expiration: int, clock: int)
  {
    && peak >= 1 && |Queue(slot)| <= peak
    && (expiration > 0 ==> duration <= expiration)
    && Remembers(log, Queue(slot), duration, clock)
    && WindowBounded(log, Policy(peak, duration))
  }

  function SlotOf<Key(==)>(store: map<Key, seq<int>>, key: Key): (slot: Slot)
    requires key in store ==> store[key] != []
  {
    if key in store then Some(store[key]) else None
  }

  /** What has happened to a key: every accepted stamp, and the highest limit it has been asked with. */
  datatype Past = Past(accepted: seq<int>, peak: int)

  function PastOf<Key(==)>(past: map<Key, Past>, key: Key): Past
  {
    if key in past then past[key] else Past([], 1)
  }

  ghost predicate Faithful<Key>(store: map<Key, seq<int>>, past: map<Key, Past>,
                                duration: Key -> int, expiration: int, clock: int)
  {
    && store.Keys <= past.Keys
    && (forall key :: key in store ==> store[key] != [])
    && forall key {:trigger PastOf(past, key)} :: key in past ==>
         KeyFaithful(PastOf(past, key).accepted, SlotOf(store, key), PastOf(past, key).peak, duration(key),
                     expiration, clock)
  }

  lemma KeyFaithfulAfterRequest(past: Past, slot: Slot, max: int, duration: int, expiration: int, clock: int, now: int)
    requires KeyFaithful(past.accepted, slot, past.peak, duration, expiration, clock) && clock <= now
    ensures var r, log := AfterRequest(slot, Policy(max, duration), now), past.accepted;
            && (r.1 <==> Admits(log, Policy(LimitInForce(slot, max), duration), now))
            && KeyFaithful(if r.1 then log + [now] else log, r.0, Max(past.peak, max), duration, expiration, now)
  {
    AnswersUnderAnyLimit(past.accepted, slot, max, duration, clock, now);
    BoundAfterRequest(past.accepted, LimitInForce(slot, max), past.peak, Max(past.peak, max), duration, now,
                      AfterRequest(slot, Policy(max, duration), now).1);
  }

  lemma BoundAfterRequest(log: seq<int>, limit: int, peak: int, peak': int, duration: int, now: int, ok: bool)
    requires WindowBounded(log, Policy(peak, duration)) && UpTo(log, now) && peak <= peak' && limit <= peak'
    requires ok ==> Admits(log, Policy(limit, duration), now)
    ensures WindowBounded(if ok then log + [now] else log, Policy(peak', duration))
  {
    BoundGrows(log, peak, peak', duration);
    if ok {
      AcceptKeepsBound(log, Policy(peak', duration), now);
    }
  }

  lemma KeyFaithfulAfterSweep(log: seq<int>, slot: Slot, peak: int, duration: int, expiration: int, clock: int,
                              now: int)
    requires KeyFaithful(log, slot, peak, duration, expiration, clock) && clock <= now && expiration > 0
    ensures KeyFaithful(log, AfterSweep(slot, expiration, now), peak, duration, expiration, now)
  {
    if AfterSweep(slot, expiration, now) != slot {
      ForgetRemembers(log, Queue(slot), duration, clock, now);
    }
  }

  lemma FaithfulBeforeRequest<Key>(store: map<Key, seq<int>>, past: map<Key, Past>, duration: Key -> int,
                                   expiration: int, clock: int, key: Key)
    requires Faithful(store, past, duration, expiration, clock)
    requires expiration > 0 ==> duration(key) <= expiration
    ensures KeyFaithful(PastOf(past, key).accepted, SlotOf(store, key), PastOf(past, key).peak, duration(key),
                        expiration, clock)
  {
  }

  /** A request touches one key; the others only grow older. */
  lemma FaithfulAfterRequest<Key>(store: map<Key, seq<int>>, past: map<Key, Past>, duration: Key -> int,
                                  expiration: int, clock: int, key: Key, now: int, queue: seq<int>, after: Past)
    requires Faithful(store, past, duration, expiration, clock) && clock <= now
    requires queue != [] && KeyFaithful(after.accepted, Some(queue), after.peak, duration(key), expiration, now)
    ensures Faithful(store[key := queue], past[key := after], duration, expiration, now)
  {
    var past' := past[key := after];
    forall other | other in past'
      ensures KeyFaithful(PastOf(past', other).accepted, SlotOf(store[key := queue], other), PastOf(past', other).peak,
                          duration(other), expiration, now)
    {
      if other != key {
        assert PastOf(past', other) == PastOf(past, other);
      }
    }
  }

  /** The past of a key after one more request. */
  function Extended(past: Past, max: int, ok: bool, now: int): Past
  {
    Past(if ok then past.accepted + [now] else past.accepted, Max(past.peak, max))
  }

  /** One step of the limiter on the whole store: the answer is the log's under the limit in force, and every key
      stays faithful. */
  lemma StoreAfterRequest<Key>(store: map<Key, seq<int>>, past: map<Key, Past>, duration: Key -> int,
                               expiration: int, clock: int, key: Key, max: int, now: int, queue: seq<int>, ok: bool)
    requires Faithful(store, past, duration, expiration, clock) && clock <= now
    requires expiration > 0 ==> duration(key) <= expiration
    requires queue != [] && (Some(queue), ok) == AfterRequest(SlotOf(store, key), Policy(max, duration(key)), now)
    ensures var limit := LimitInForce(SlotOf(store, key), max);
            && (ok <==> Admits(PastOf(past, key).accepted, Policy(limit, duration(key)), now))
            && (PastOf(past, key).peak <= max ==> limit == max)
            && Faithful(store[key := queue], past[key := Extended(PastOf(past, key), max, ok, now)],
                        duration, expiration, now)
  {
    FaithfulBeforeRequest(store, past, duration, expiration, clock, key);
    KeyFaithfulAfterRequest(PastOf(past, key), SlotOf(store, key), max, duration(key), expiration, clock, now);
    FaithfulAfterRequest(store, past, duration, expiration, clock, key, now, queue,
                         Extended(PastOf(past, key), max, ok, now));
  }

  /** What the sweep leaves of the whole store. */
  function Swept<Key(==)>(store: map<Key, seq<int>>, expiration: int, now: int): map<Key, seq<int>>
  {
    map key | key in store && !Idle(store[key], expiration, now) :: store[key]
  }

  /** The sweep drops exactly the keys whose newest stamp is older than the expiration, and so does to every key what it
      does to one. */
  lemma SweptIs<Key>(store: map<Key, seq<int>>, expiration: int, now: int, key: Key)
    requires key in store ==> store[key] != []
    ensures SlotOf(Swept(store, expiration, now), key) == AfterSweep(SlotOf(store, key), expiration, now)
    ensures key in Swept(store, expiration, now) <==>
              key in store && var queue := store[key]; now <= queue[|queue|-1] + expiration
  {
  }

  lemma FaithfulAfterSweep<Key>(store: map<Key, seq<int>>, past: map<Key, Past>, duration: Key -> int,
                                expiration: int, clock: int, now: int)
    requires Faithful(store, past, duration, expiration, clock) && clock <= now && expiration > 0
    ensures Faithful(Swept(store, expiration, now), past, duration, expiration, now)
  {
    var swept := Swept(store, expiration, now);
    forall key | key in past
      ensures KeyFaithful(PastOf(past, key).accepted, SlotOf(swept, key), PastOf(past, key).peak, duration(key),
                          expiration, now)
    {
      var before := PastOf(past, key);
      KeyFaithfulAfterSweep(before.accepted, SlotOf(store, key), before.peak, duration(key), expiration, clock, now);
    }
  }

  class InMemoryRateLimiter<Key(==)> {
    var store: map<Key, seq<int>>
    const expiration: int
    /** The window each key is used with; a key keeps one window for its whole life, but not one limit. */
    ghost const window: Key -> int
    /** The past of every key, never pruned. */
    ghost var past: map<Key, Past>
    ghost var clock: int

    ghost predicate Valid()
      reads this
    {
      Faithful(store, past, window, expiration, clock)
    }

    constructor (expirationSeconds: int, ghost windows: Key -> int, ghost start: int)
      ensures Valid() && expiration == expirationSeconds && window == windows
      ensures store == map[] && past == map[] && clock == start
    {
      expiration := expirationSeconds;
      window := windows;
      store, past, clock := map[], map[], start;
    }

    /** The limit that a request for the key meets now. */
    ghost function Limit(key: Key, max: int): int
      reads this
      requires Valid()
    {
      LimitInForce(SlotOf(store, key), max)
    }

    /** Accepts exactly when fewer accepted requests of the key than the limit in force lie in (now - duration, now],
        and records the stamp of an accepted request. The limit in force is `maxRequestNum` unless it was lowered. */
    method Request(key: Key, maxRequestNum: int, duration: int, now: int) returns (ok: bool)
      requires Valid() && clock <= now && duration == window(key)
      requires expiration > 0 ==> duration <= expiration
      modifies this
      ensures Valid() && clock == now
      ensures ok <==> Admits(PastOf(old(past), key).accepted, Policy(old(Limit(key, maxRequestNum)), duration), now)
      ensures PastOf(old(past), key).peak <= maxRequestNum ==> old(Limit(key, maxRequestNum)) == maxRequestNum
      ensures past == old(past)[key := Extended(PastOf(old(past), key), maxRequestNum, ok, now)]
      ensures key in store && store == old(store)[key := store[key]]
    {
      var queue := [];
      if key in store {
        queue, ok := Offer(store[key], maxRequestNum, duration, now);
      } else {
        queue := [now];
        ok := true;
      }
      StoreAfterRequest(store, past, window, expiration, clock, key, maxRequestNum, now, queue, ok);
      store := store[key := queue];
      past, clock := past[key := Extended(PastOf(past, key), maxRequestNum, ok, now)], now;
    }

    /** What `Request` does to the queue of a known key. */
    static method Offer(stamps: seq<int>, maxRequestNum: int, duration: int, now: int)
        returns (queue: seq<int>, ok: bool)
      requires stamps != []
      ensures (Some(queue), ok) == AfterRequest(Some(stamps), Policy(maxRequestNum, duration), now)
    {
      queue := stamps;
      if |queue| < maxRequestNum {
        queue := queue + [now];
        ok := true;
      } else {
        if now - queue[0] >= duration {
          queue := queue[1..];
          queue := queue + [now];
          ok := true;
        } else {
          ok := false;
        }
      }
    }

    /** Predicts the answer of `Request` at the same instant, changing nothing. */
    method CanRequest(key: Key, maxRequestNum: int, duration: int, now: int) returns (ok: bool)
      requires Valid() && clock <= now && duration == window(key)
      requires expiration > 0 ==> duration <= expiration
      ensures ok <==> Admits(PastOf(past, key).accepted, Policy(Limit(key, maxRequestNum), duration), now)
    {
      FaithfulBeforeRequest(store, past, window, expiration, clock, key);
      AnswersUnderAnyLimit(PastOf(past, key).accepted, SlotOf(store, key), maxRequestNum, duration, clock, now);
      if key !in store {
        return true;
      }
      var queue := store[key];
      if |queue| < maxRequestNum {
        return true;
      }
      return now - queue[0] >= duration;
    }

    /** One round of the background sweep. No later answer depends on what it removes, but for the limit in force:
        a key that is dropped takes on a lowered limit. */
    method ClearExpiredItems(now: int)
      requires Valid() && clock <= now && expiration > 0
      modifies this
      ensures Valid() && clock == now && past == old(past)
      ensures store == Swept(old(store), expiration, now)
      ensures forall key :: key in store <==>
                && key in old(store) && old(store)[key] != []
                && var queue := old(store)[key]; now - queue[|queue|-1] <= expiration
    {
      DeleteIdleKeys(now);
      FaithfulAfterSweep(old(store), past, window, expiration, clock, now);
      clock := now;
    }

    /** The loop of the sweep over the keys of the store. */
    method DeleteIdleKeys(now: int)
      modifies `store
      ensures store == Swept(old(store), expiration, now)
    {
      ghost var before := store;
      var keys := store.Keys;
      while keys != {}
        invariant keys <= store.Keys <= before.Keys
        invariant forall key :: key in before ==>
                    (key in store <==> key in keys || !Idle(before[key], expiration, now))
        invariant forall key :: key in store ==> store[key] == before[key]
        decreases |keys|
      {
        var key :| key in keys;
        var queue := store[key];
        var size := |queue|;
        if size == 0 || now - queue[size-1] > expiration {
          store := store - {key};
        }
        keys := keys - {key};
      }
    }
  }
}
