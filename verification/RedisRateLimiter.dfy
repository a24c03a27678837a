/** The Redis form of the limiter: a list of time stamps per key, newest first.

    Times are in milliseconds. A stamp is written as local wall-clock time with a literal `Z`
    and read back as if it were UTC, so it differs from the instant by the server's zone offset. */
module RedisRateLimiter {
  import opened Wrappers
  import opened SlidingLog

  // ----- the list commands -----

  function LPush(list: seq<int>, stamp: int): seq<int>
  {
    [stamp] + list
  }

  /** A Redis index: negative ones count from the end. */
  function At(list: seq<int>, index: int): int
  {
    if index < 0 then |list| + index else index
  }

  function LIndex(list: seq<int>, index: int): Option<int>
  {
    var i := At(list, index);
    if 0 <= i < |list| then Some(list[i]) else None
  }

  function LTrim(list: seq<int>, start: int, stop: int): seq<int>
  {
    var from := if At(list, start) < 0 then 0 else At(list, start);
    var to := if At(list, stop) >= |list| then |list| - 1 else At(list, stop);
    if from > to then [] else list[from..to+1]
  }

  // ----- one key -----

  /** The list of one key and the instant at which Redis drops it. */
  datatype Entry = Entry(list: seq<int>, deadline: int)

  function LiveList(entry: Option<Entry>, now: int): seq<int>
  {
    if entry.Some? && now < entry.value.deadline then entry.value.list else []
  }

  /** The wall-clock reading of an instant. */
  function Wall(now: int, zone: int): int
  {
    now + zone
  }

  /** A duration in milliseconds cut to whole seconds, toward zero. */
  function WholeSeconds(ms: int): int
  {
    if ms >= 0 then ms / 1000 else -((-ms) / 1000)
  }

  /** No further from zero than the milliseconds, and less than a second away from them. */
  lemma WholeSecondsIs(ms: int)
    ensures ms >= 0 ==> 0 <= ms - 1000 * WholeSeconds(ms) < 1000
    ensures ms < 0 ==> -1000 < ms - 1000 * WholeSeconds(ms) <= 0
  {
  }

  /** What one request does to its key, and the answer it gets. `reading` is the clock value
      from which the parsed oldest stamp is subtracted. */
  function Step(entry: Option<Entry>, max: int, duration: int, ttl: int, zone: int, now: int, reading: int)
      : (r: (Option<Entry>, bool))
    requires max >= 1
  {
    var list := LiveList(entry, now);
    if |list| < max then (Some(Entry(LPush(list, Wall(now, zone)), now + ttl)), true)
    else if WholeSeconds(reading - LIndex(list, -1).value) < duration then
      (Some(Entry(list, now + ttl)), false)
    else
      (Some(Entry(LTrim(LPush(list, Wall(now, zone)), 0, max - 1), now + ttl)), true)
  }

  /** The request limiter formats and parses the present time as well, so the zone cancels out. */
  function AfterRequest(entry: Option<Entry>, max: int, duration: int, ttl: int, zone: int, now: int)
      : (r: (Option<Entry>, bool))
    requires max >= 1
  {
    Step(entry, max, duration, ttl, zone, now, Wall(now, zone))
  }

  /** The TOTP limiter subtracts from the real instant. */
  function AfterTotpCheck(entry: Option<Entry>, max: int, duration: int, ttl: int, zone: int, now: int)
      : (r: (Option<Entry>, bool))
    requires max >= 1
  {
    Step(entry, max, duration, ttl, zone, now, now)
  }

  /** The read-only precheck of a channel's list. It subtracts the parsed stamp from the
      real instant, not from the wall clock. */
  predicate WouldBlock(entry: Option<Entry>, max: int, duration: int, now: int)
    requires max >= 1
  {
    var list := LiveList(entry, now);
    |list| >= max && WholeSeconds(now - LIndex(list, -1).value) < duration
  }

  // ----- refinement of the ideal log -----

  /** The list that mirrors a queue: reversed, each stamp read off the wall clock. */
  ghost function Mirror(queue: seq<int>, zone: int): seq<int>
  {
    seq(|queue|, i requires 0 <= i < |queue| => Wall(queue[|queue|-1-i], zone))
  }

  lemma MirrorAppend(queue: seq<int>, now: int, zone: int)
    ensures Mirror(queue + [now], zone) == LPush(Mirror(queue, zone), Wall(now, zone))
  {
  }

  lemma MirrorShift(queue: seq<int>, now: int, zone: int)
    requires queue != []
    ensures LTrim(LPush(Mirror(queue, zone), Wall(now, zone)), 0, |queue| - 1) == Mirror(queue[1..] + [now], zone)
  {
    var pushed := LPush(Mirror(queue, zone), Wall(now, zone));
    assert LTrim(pushed, 0, |queue| - 1) == pushed[..|queue|];
  }

  lemma WholeSecondsBelow(ms: int, seconds: int)
    requires ms >= 0 || seconds >= 1
    ensures WholeSeconds(ms) < seconds <==> ms < 1000 * seconds
  {
  }

  /** The entry stands for a queue; Redis drops it no sooner than `ttl` after the newest stamp. */
  ghost predicate Holds(entry: Option<Entry>, queue: seq<int>, ttl: int, zone: int)
  {
    match entry
    case None => queue == []
    case Some(e) => e.list == Mirror(queue, zone) && (queue != [] ==> queue[|queue|-1] + ttl <= e.deadline)
  }

  /** The bounded queue after one request: the step the list mirrors. */
  ghost function NextQueue(queue: seq<int>, max: int, duration: int, now: int): (r: (seq<int>, bool))
    requires max >= 1
  {
    if |queue| < max then (queue + [now], true)
    else if now - queue[0] >= 1000 * duration then (queue[1..] + [now], true)
    else (queue, false)
  }

  /** As long as its entry is live, the list is the reversed queue and decides as the queue does. */
  lemma RequestMirrors(entry: Option<Entry>, queue: seq<int>, max: int, duration: int, ttl: int, zone: int, now: int)
    requires max >= 1 && |queue| <= max && LiveList(entry, now) == Mirror(queue, zone)
    requires forall i :: 0 <= i < |queue| ==> queue[i] <= now
    ensures var r, q := AfterRequest(entry, max, duration, ttl, zone, now), NextQueue(queue, max, duration, now);
            r.1 == q.1 && Holds(r.0, q.0, ttl, zone)
  {
    if |queue| < max {
      MirrorAppend(queue, now, zone);
    } else {
      assert LIndex(Mirror(queue, zone), -1) == Some(Wall(queue[0], zone));
      WholeSecondsBelow(now - queue[0], duration);
      MirrorShift(queue, now, zone);
    }
  }

  /** What remains of the queue once Redis has dropped an expired key. */
  ghost function LiveQueue(entry: Option<Entry>, queue: seq<int>, now: int): seq<int>
  {
    if entry.Some? && now < entry.value.deadline then queue else []
  }

  /** One request step refines the ideal log kept at millisecond resolution, whatever the zone. */
  lemma RequestRefines(log: seq<int>, entry: Option<Entry>, queue: seq<int>,
                       max: int, duration: int, ttl: int, zone: int, clock: int, now: int)
    requires max >= 1 && 1000 * duration <= ttl && clock <= now
    requires Holds(entry, queue, ttl, zone) && Represents(log, queue, Policy(max, 1000 * duration), clock)
    ensures var p := Policy(max, 1000 * duration);
            var r := AfterRequest(entry, max, duration, ttl, zone, now);
            var q := NextQueue(LiveQueue(entry, queue, now), max, duration, now);
            && (r.1 <==> Admits(log, p, now))
            && q.1 == r.1
            && Holds(r.0, q.0, ttl, zone)
            && Represents(if r.1 then log + [now] else log, q.0, p, now)
  {
    var p := Policy(max, 1000 * duration);
    var live := LiveQueue(entry, queue, now);
    if live != queue {
      ForgetKeeps(log, queue, p, clock, now);
    }
    assert Represents(log, live, p, now);
    assert LiveList(entry, now) == Mirror(live, zone);
    LiveQueueUpTo(log, live, p, now);
    RequestMirrors(entry, live, max, duration, ttl, zone, now);
    QueueDecides(log, live, p, now, now);
    if Admits(log, p, now) {
      AcceptKeeps(log, live, p, now, now);
    }
  }

  lemma LiveQueueUpTo(log: seq<int>, queue: seq<int>, p: Policy, clock: int)
    requires Represents(log, queue, p, clock)
    ensures forall i :: 0 <= i < |queue| ==> queue[i] <= clock
  {
    forall i | 0 <= i < |queue| ensures queue[i] <= clock {
      assert queue[i] == log[|log|-|queue|+i];
    }
  }

  /** Redis takes on a lowered limit with the next accepted request, which cuts the list down to it. */
  lemma LoweredLimitTakesHold(entry: Option<Entry>, max: int, duration: int, ttl: int, zone: int, now: int)
    requires max >= 1 && |LiveList(entry, now)| >= max
    ensures var r := AfterRequest(entry, max, duration, ttl, zone, now);
            |r.0.value.list| == if r.1 then max else |LiveList(entry, now)|
  {
  }

  /** A request the limiter would reject: its key is live, full, and its oldest stamp too recent. */
  predicate Rejects(entry: Option<Entry>, max: int, duration: int, zone: int, now: int)
    requires max >= 1
  {
    !AfterRequest(entry, max, duration, 0, zone, now).1
  }

  /** Subtracting from the real instant gives the limiter's answer for every key and instant
      exactly when the server's clock runs at UTC: the precheck and the TOTP limiter alike. */
  lemma PrecheckAgreesIffUtc(max: int, duration: int, ttl: int, zone: int)
    requires max >= 1 && duration >= 1
    ensures (forall entry, now :: WouldBlock(entry, max, duration, now) == Rejects(entry, max, duration, zone, now))
       <==> zone == 0
    ensures (forall entry, now ::
               AfterTotpCheck(entry, max, duration, ttl, zone, now)
                 == AfterRequest(entry, max, duration, ttl, zone, now))
       <==> zone == 0
  {
    if zone != 0 {
      // A full list whose oldest stamp leaves the window now (zone > 0) or one millisecond from now; its key is as
      // a rejected request one millisecond ago has left it.
      var now := if zone > 0 then 1000 * duration else 1000 * duration - 1;
      var list := seq(max, i => Wall(0, zone));
      var entry := Some(Entry(list, if ttl >= 2 then now - 1 + ttl else now + 1));
      assert LIndex(list, -1) == Some(zone);
      WholeSecondsBelow(now - zone, duration);
      WholeSecondsBelow(now, duration);
      assert WouldBlock(entry, max, duration, now) != Rejects(entry, max, duration, zone, now);
      assert AfterTotpCheck(entry, max, duration, ttl, zone, now).1
          != AfterRequest(entry, max, duration, ttl, zone, now).1;
    }
  }

  /** The keys of the limiter as Redis keeps them. */
  class RedisLimiter<Key(==)> {
    var entries: map<Key, Entry>
    const ttl: int
    const zone: int

    constructor (ttl: int, zone: int)
      ensures this.ttl == ttl && this.zone == zone && entries == map[]
    {
      this.ttl, this.zone, entries := ttl, zone, map[];
    }

    function EntryOf(key: Key): Option<Entry>
      reads this
    {
      if key in entries then Some(entries[key]) else None
    }

    method Request(key: Key, maxRequestNum: int, duration: int, now: int) returns (ok: bool)
      requires maxRequestNum >= 1
      modifies this
      ensures (EntryOf(key), ok) == AfterRequest(old(EntryOf(key)), maxRequestNum, duration, ttl, zone, now)
      ensures key in entries && entries == old(entries)[key := entries[key]]
    {
      var list := LiveList(EntryOf(key), now);
      var listLength := |list|;
      if listLength < maxRequestNum {
        list := LPush(list, Wall(now, zone));
        ok := true;
      } else {
        var oldTime := LIndex(list, -1).value;
        var nowTime := Wall(now, zone);
        if WholeSeconds(nowTime - oldTime) < duration {
          ok := false;
        } else {
          list := LPush(list, Wall(now, zone));
          list := LTrim(list, 0, maxRequestNum - 1);
          ok := true;
        }
      }
      entries := entries[key := Entry(list, now + ttl)];
    }

    method WouldChannelRateLimitBlock(key: Key, channelRateLimit: int, duration: int, now: int) returns (blocked: bool)
      ensures blocked <==> channelRateLimit > 0 && WouldBlock(EntryOf(key), channelRateLimit, duration, now)
    {
      if channelRateLimit <= 0 {
        return false;
      }
      var list := LiveList(EntryOf(key), now);
      if |list| < channelRateLimit {
        return false;
      }
      var oldTime := LIndex(list, -1).value;
      return WholeSeconds(now - oldTime) < duration;
    }
  }
}
