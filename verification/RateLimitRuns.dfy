/** Whole runs of one key against the ideal log, the in-memory queue and the Redis list. */
module RateLimitRuns {
  import opened Wrappers
  import opened SlidingLog
  import Memory = MemoryRateLimiter
  import Redis = RedisRateLimiter

  /** A request or a round of the background sweep, at some time. */
  datatype Event = Attempt(at: int) | Sweep(at: int)

  /** The clock never runs backwards. */
  predicate Ordered(events: seq<Event>, clock: int)
  {
    events == [] || (clock <= events[0].at && Ordered(events[1..], events[0].at))
  }

  /** The answers of the never-pruned log. */
  ghost function IdealRun(events: seq<Event>, p: Policy, log: seq<int>): seq<bool>
  {
    if events == [] then []
    else if events[0].Sweep? then IdealRun(events[1..], p, log)
    else
      var ok := Admits(log, p, events[0].at);
      [ok] + IdealRun(events[1..], p, if ok then log + [events[0].at] else log)
  }

  /** The answers of the in-memory limiter. */
  function MemoryRun(events: seq<Event>, p: Policy, expiration: int, slot: Memory.Slot): seq<bool>
  {
    if events == [] then []
    else if events[0].Sweep? then
      MemoryRun(events[1..], p, expiration, Memory.AfterSweep(slot, expiration, events[0].at))
    else
      var r := Memory.AfterRequest(slot, p, events[0].at);
      [r.1] + MemoryRun(events[1..], p, expiration, r.0)
  }

  /** The answers of the Redis limiter, on times in milliseconds; it knows no sweep. */
  function RedisRun(events: seq<Event>, max: int, duration: int, ttl: int, zone: int, entry: Option<Redis.Entry>)
      : seq<bool>
    requires max >= 1
  {
    if events == [] then []
    else if events[0].Sweep? then RedisRun(events[1..], max, duration, ttl, zone, entry)
    else
      var r := Redis.AfterRequest(entry, max, duration, ttl, zone, events[0].at);
      [r.1] + RedisRun(events[1..], max, duration, ttl, zone, r.0)
  }

  /** The stamps of the accepted attempts. */
  ghost function Accepted(events: seq<Event>, answers: seq<bool>): seq<int>
  {
    if events == [] then []
    else if events[0].Sweep? then Accepted(events[1..], answers)
    else if answers == [] then []
    else (if answers[0] then [events[0].at] else []) + Accepted(events[1..], answers[1..])
  }

  /** Every run of requests and sweeps is answered as the never-pruned log answers it. */
  lemma {:induction false} MemoryRefinesIdeal(events: seq<Event>, p: Policy, expiration: int,
                                              slot: Memory.Slot, log: seq<int>, clock: int)
    requires p.max >= 1 && p.duration <= expiration && Ordered(events, clock)
    requires Represents(log, Memory.Queue(slot), p, clock)
    ensures MemoryRun(events, p, expiration, slot) == IdealRun(events, p, log)
  {
    if events == [] {
    } else if events[0].Sweep? {
      Memory.SweepRefines(log, slot, p, expiration, clock, events[0].at);
      MemoryRefinesIdeal(events[1..], p, expiration,
                         Memory.AfterSweep(slot, expiration, events[0].at), log, events[0].at);
    } else {
      var now := events[0].at;
      Memory.RequestRefines(log, slot, p, clock, now);
      var r := Memory.AfterRequest(slot, p, now);
      MemoryRefinesIdeal(events[1..], p, expiration, r.0, if r.1 then log + [now] else log, now);
    }
  }

  /** The Redis list answers every run, at any millisecond, as the ideal log of milliseconds does. */
  lemma {:induction false} RedisRefinesIdeal(events: seq<Event>, max: int, duration: int, ttl: int, zone: int,
                                             entry: Option<Redis.Entry>, queue: seq<int>, log: seq<int>, clock: int)
    requires max >= 1 && 1000 * duration <= ttl && Ordered(events, clock)
    requires Redis.Holds(entry, queue, ttl, zone)
    requires Represents(log, queue, Policy(max, 1000 * duration), clock)
    ensures RedisRun(events, max, duration, ttl, zone, entry) == IdealRun(events, Policy(max, 1000 * duration), log)
  {
    var p := Policy(max, 1000 * duration);
    if events == [] {
    } else if events[0].Sweep? {
      WaitKeeps(log, queue, p, clock, events[0].at);
      RedisRefinesIdeal(events[1..], max, duration, ttl, zone, entry, queue, log, events[0].at);
    } else {
      var now := events[0].at;
      Redis.RequestRefines(log, entry, queue, max, duration, ttl, zone, clock, now);
      var r := Redis.AfterRequest(entry, max, duration, ttl, zone, now);
      var q := Redis.NextQueue(Redis.LiveQueue(entry, queue, now), max, duration, now);
      RedisRefinesIdeal(events[1..], max, duration, ttl, zone, r.0, q.0, if r.1 then log + [now] else log, now);
    }
  }

  /** The same run with its whole-second times written in milliseconds. */
  function InMillis(events: seq<Event>): (r: seq<Event>)
    ensures |r| == |events|
  {
    seq(|events|, i requires 0 <= i < |events| =>
      if events[i].Attempt? then Attempt(1000 * events[i].at) else Sweep(1000 * events[i].at))
  }

  ghost function MillisLog(log: seq<int>): seq<int>
  {
    seq(|log|, i requires 0 <= i < |log| => 1000 * log[i])
  }

  lemma {:induction false} CountInMillis(log: seq<int>, lo: int, hi: int)
    ensures CountIn(MillisLog(log), 1000 * lo, 1000 * hi) == CountIn(log, lo, hi)
  {
    if log != [] {
      assert MillisLog(log)[..|log|-1] == MillisLog(log[..|log|-1]);
      CountInMillis(log[..|log|-1], lo, hi);
    }
  }

  lemma {:induction false} IdealInMillis(events: seq<Event>, p: Policy, log: seq<int>)
    ensures IdealRun(InMillis(events), Policy(p.max, 1000 * p.duration), MillisLog(log)) == IdealRun(events, p, log)
  {
    if events != [] {
      var now := events[0].at;
      assert InMillis(events)[1..] == InMillis(events[1..]);
      CountInMillis(log, now - p.duration, now);
      assert MillisLog(log + [now]) == MillisLog(log) + [1000 * now];
      IdealInMillis(events[1..], p,
                    if events[0].Attempt? && Admits(log, p, now) then log + [now] else log);
    }
  }

  lemma {:induction false} OrderedInMillis(events: seq<Event>, clock: int)
    requires Ordered(events, clock)
    ensures Ordered(InMillis(events), 1000 * clock)
  {
    if events != [] {
      assert InMillis(events)[1..] == InMillis(events[1..]);
      OrderedInMillis(events[1..], events[0].at);
    }
  }

  /** On a clock of whole seconds, the two forms of the limiter give the same answers in every run,
      whatever sweeps one of them makes, whatever keys the other expires, in any time zone. */
  lemma SameAnswers(events: seq<Event>, p: Policy, expiration: int, ttl: int, zone: int, clock: int)
    requires p.max >= 1 && p.duration <= expiration && 1000 * p.duration <= ttl && Ordered(events, clock)
    ensures MemoryRun(events, p, expiration, None)
         == RedisRun(InMillis(events), p.max, p.duration, ttl, zone, None)
  {
    MemoryRefinesIdeal(events, p, expiration, None, [], clock);
    OrderedInMillis(events, clock);
    RedisRefinesIdeal(InMillis(events), p.max, p.duration, ttl, zone, None, [], [], 1000 * clock);
    assert MillisLog([]) == [];
    IdealInMillis(events, p, []);
  }

  // ----- between whole seconds -----

  /** The same run as the in-memory limiter sees it: times cut to whole seconds. */
  function Cut(events: seq<Event>): (r: seq<Event>)
    ensures |r| == |events|
  {
    seq(|events|, i requires 0 <= i < |events| =>
      if events[i].Attempt? then Attempt(events[i].at / 1000) else Sweep(events[i].at / 1000))
  }

  ghost function CutLog(log: seq<int>): (r: seq<int>)
    ensures |r| == |log| && forall i :: 0 <= i < |log| ==> r[i] == log[i] / 1000
  {
    seq(|log|, i requires 0 <= i < |log| => log[i] / 1000)
  }

  /** The stamp that decides is exactly `duration` cut seconds old, but not yet so many seconds. */
  predicate Splits(log: seq<int>, max: int, duration: int, now: int)
    requires max >= 1
  {
    |log| >= max &&
      var oldest := log[|log|-max];
      now / 1000 - oldest / 1000 == duration && now % 1000 < oldest % 1000
  }

  lemma CutSeconds(now: int, oldest: int, duration: int)
    ensures (now / 1000 - oldest / 1000 >= duration) == (now - oldest >= 1000 * duration)
       <==> !(now / 1000 - oldest / 1000 == duration && now % 1000 < oldest % 1000)
  {
  }

  /** One attempt is answered alike in cut seconds and in milliseconds unless it splits. */
  lemma StepAgreesIff(log: seq<int>, max: int, duration: int, now: int)
    requires Nondecreasing(log) && UpTo(log, now) && max >= 1
    ensures Admits(CutLog(log), Policy(max, duration), now / 1000) == Admits(log, Policy(max, 1000 * duration), now)
       <==> !Splits(log, max, duration, now)
  {
    AdmitsByOldest(log, Policy(max, 1000 * duration), now);
    assert UpTo(CutLog(log), now / 1000) && Nondecreasing(CutLog(log));
    AdmitsByOldest(CutLog(log), Policy(max, duration), now / 1000);
    if |log| >= max {
      CutSeconds(now, log[|log|-max], duration);
    }
  }

  /** No attempt of the run splits, given what was accepted before it. */
  ghost predicate NeverSplits(events: seq<Event>, max: int, duration: int, log: seq<int>)
    requires max >= 1
  {
    events == [] ||
      var now := events[0].at;
      if events[0].Sweep? then NeverSplits(events[1..], max, duration, log)
      else && !Splits(log, max, duration, now)
           && NeverSplits(events[1..], max, duration,
                          if Admits(log, Policy(max, 1000 * duration), now) then log + [now] else log)
  }

  lemma CutTail(events: seq<Event>)
    requires events != []
    ensures Cut(events)[1..] == Cut(events[1..])
  {
  }

  lemma CutLogAppend(log: seq<int>, now: int)
    ensures CutLog(log + [now]) == CutLog(log) + [now / 1000]
  {
  }

  lemma {:induction false} IdealCutIff(events: seq<Event>, max: int, duration: int, log: seq<int>, clock: int)
    requires max >= 1 && Ordered(events, clock) && Nondecreasing(log) && UpTo(log, clock)
    ensures IdealRun(Cut(events), Policy(max, duration), CutLog(log))
              == IdealRun(events, Policy(max, 1000 * duration), log)
       <==> NeverSplits(events, max, duration, log)
  {
    if events != [] {
      var now := events[0].at;
      CutTail(events);
      if events[0].Sweep? {
        IdealCutIff(events[1..], max, duration, log, now);
      } else {
        StepAgreesIff(log, max, duration, now);
        var ok := Admits(log, Policy(max, 1000 * duration), now);
        var log' := if ok then log + [now] else log;
        CutLogAppend(log, now);
        IdealCutIff(events[1..], max, duration, log', now);
        IdealCutStep(events, max, duration, log, log', ok);
      }
    }
  }

  lemma IdealCutStep(events: seq<Event>, max: int, duration: int, log: seq<int>, log': seq<int>, ok: bool)
    requires max >= 1 && events != [] && events[0].Attempt?
               && ok == Admits(log, Policy(max, 1000 * duration), events[0].at)
    requires log' == (if ok then log + [events[0].at] else log)
    requires Cut(events)[1..] == Cut(events[1..])
    ensures IdealRun(Cut(events), Policy(max, duration), CutLog(log))
              == IdealRun(events, Policy(max, 1000 * duration), log)
       <==> && Admits(CutLog(log), Policy(max, duration), events[0].at / 1000) == ok
            && IdealRun(Cut(events[1..]), Policy(max, duration), CutLog(log'))
               == IdealRun(events[1..], Policy(max, 1000 * duration), log')
  {
    CutLogAppend(log, events[0].at);
    var cut := IdealRun(Cut(events), Policy(max, duration), CutLog(log));
    var fine := IdealRun(events, Policy(max, 1000 * duration), log);
    var cutOk := Admits(CutLog(log), Policy(max, duration), events[0].at / 1000);
    assert fine[0] == ok && fine[1..] == IdealRun(events[1..], Policy(max, 1000 * duration), log');
    assert cut[0] == cutOk;
    if cutOk == ok {
      assert cut[1..] == IdealRun(Cut(events[1..]), Policy(max, duration), CutLog(log'));
      assert cut == [cut[0]] + cut[1..] && fine == [fine[0]] + fine[1..];
    }
  }

  lemma {:induction false} OrderedCut(events: seq<Event>, clock: int)
    requires Ordered(events, clock)
    ensures Ordered(Cut(events), clock / 1000)
  {
    if events != [] {
      CutTail(events);
      OrderedCut(events[1..], events[0].at);
    }
  }

  /** On any clock the two forms give the same answers in a run exactly when no attempt of it splits. */
  lemma SameAnswersIff(events: seq<Event>, max: int, duration: int, expiration: int, ttl: int, zone: int, clock: int)
    requires max >= 1 && duration <= expiration && 1000 * duration <= ttl && Ordered(events, clock)
    ensures MemoryRun(Cut(events), Policy(max, duration), expiration, None)
            == RedisRun(events, max, duration, ttl, zone, None)
       <==> NeverSplits(events, max, duration, [])
  {
    OrderedCut(events, clock);
    MemoryRefinesIdeal(Cut(events), Policy(max, duration), expiration, None, [], clock / 1000);
    RedisRefinesIdeal(events, max, duration, ttl, zone, None, [], [], clock);
    assert CutLog([]) == [];
    IdealCutIff(events, max, duration, [], clock);
  }

  /** A run that splits: the in-memory limiter compares cut seconds, Redis cuts the difference. */
  lemma AnswersDifferBelowASecond()
    ensures var first, second := 900, 1100;
            var redis := Redis.AfterRequest(Redis.AfterRequest(None, 1, 1, 1000, 0, first).0, 1, 1, 1000, 0, second);
            var memory := Memory.AfterRequest(Memory.AfterRequest(None, Policy(1, 1), first / 1000).0,
                                              Policy(1, 1), second / 1000);
            memory.1 && !redis.1
  {
    var r := Redis.AfterRequest(None, 1, 1, 1000, 0, 900);
    assert r.0.value.list == [900];
    assert Redis.LIndex([900], -1) == Some(900);
  }

  /** The answers of the ideal log never overfill a window. */
  lemma {:induction false} IdealIsBounded(events: seq<Event>, p: Policy, log: seq<int>, clock: int)
    requires Ordered(events, clock) && UpTo(log, clock) && WindowBounded(log, p)
    ensures WindowBounded(log + Accepted(events, IdealRun(events, p, log)), p)
  {
    if events == [] {
      assert log + [] == log;
    } else if events[0].Sweep? {
      IdealIsBounded(events[1..], p, log, events[0].at);
    } else {
      var now := events[0].at;
      var ok := Admits(log, p, now);
      var log' := if ok then log + [now] else log;
      if ok {
        AcceptKeepsBound(log, p, now);
      }
      IdealIsBounded(events[1..], p, log', now);
      AcceptedFrom(events, p, log, ok, log');
    }
  }

  lemma AcceptedFrom(events: seq<Event>, p: Policy, log: seq<int>, ok: bool, log': seq<int>)
    requires events != [] && !events[0].Sweep? && ok == Admits(log, p, events[0].at)
    requires log' == if ok then log + [events[0].at] else log
    ensures log + Accepted(events, IdealRun(events, p, log))
              == log' + Accepted(events[1..], IdealRun(events[1..], p, log'))
  {
    var rest := IdealRun(events[1..], p, log');
    assert IdealRun(events, p, log) == [ok] + rest;
    assert ([ok] + rest)[1..] == rest;
  }

  ghost predicate BoundedOn(events: seq<Event>, clock: int, p: Policy, expiration: int)
  {
    Ordered(events, clock) ==> WindowBounded(Accepted(events, MemoryRun(events, p, expiration, None)), p)
  }

  ghost predicate AlwaysBounded(p: Policy, expiration: int)
  {
    forall events, clock :: BoundedOn(events, clock, p, expiration)
  }

  /** No window is ever overfull, on any run with any sweeps, exactly when the limit is positive:
      a first request is always let through. */
  lemma BoundedIffLimitPositive(p: Policy, expiration: int)
    requires p.max >= 0 && 1 <= p.duration <= expiration
    ensures AlwaysBounded(p, expiration) <==> p.max >= 1
  {
    if p.max >= 1 {
      forall events, clock | Ordered(events, clock)
        ensures BoundedOn(events, clock, p, expiration)
      {
        MemoryRefinesIdeal(events, p, expiration, None, [], clock);
        IdealIsBounded(events, p, [], clock);
        assert [] + Accepted(events, IdealRun(events, p, [])) == Accepted(events, IdealRun(events, p, []));
      }
    } else {
      var events := [Attempt(0)];
      assert Ordered(events, 0);
      assert MemoryRun(events, p, expiration, None) == [true];
      assert Accepted(events, [true]) == [0];
      assert CountIn([0], -1, 0) == 1 > p.max;
      assert !WindowBounded([0], p);
      assert !BoundedOn(events, 0, p, expiration);
    }
  }
}
