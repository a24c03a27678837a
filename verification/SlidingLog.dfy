/** The ideal rate limiter: a log of every accepted time stamp that is never pruned.
    The bounded queues of the gateway are judged against it. */
module SlidingLog {

  /** At most `max` accepted requests in any window of length `duration`. */
  datatype Policy = Policy(max: int, duration: int)

  /** How many stamps of the log fall in the half-open window (lo, hi]. */
  ghost function CountIn(log: seq<int>, lo: int, hi: int): nat
  {
    if log == [] then 0
    else CountIn(log[..|log|-1], lo, hi) + if lo < log[|log|-1] <= hi then 1 else 0
  }

  /** The exact sliding-window rule. */
  ghost predicate Admits(log: seq<int>, p: Policy, now: int)
  {
    CountIn(log, now - p.duration, now) < p.max
  }

  ghost predicate Nondecreasing(log: seq<int>)
  {
    forall i, j :: 0 <= i < j < |log| ==> log[i] <= log[j]
  }

  /** No stamp of the log lies in the future of the clock. */
  ghost predicate UpTo(log: seq<int>, clock: int)
  {
    forall i :: 0 <= i < |log| ==> log[i] <= clock
  }

  /** No window of length `duration`, wherever it starts, holds more than `max` stamps. */
  ghost predicate WindowBounded(log: seq<int>, p: Policy)
  {
    forall lo, hi :: hi <= lo + p.duration ==> CountIn(log, lo, hi) <= p.max
  }

  /** A bounded queue (oldest first) stands for the log: it is its suffix, and whatever it
      has forgotten before reaching its capacity lies outside every present and later window. */
  ghost predicate Represents(log: seq<int>, queue: seq<int>, p: Policy, clock: int)
  {
    && Nondecreasing(log) && UpTo(log, clock)
    && |queue| <= p.max && |queue| <= |log|
    && log[|log|-|queue|..] == queue
    && (|queue| < p.max ==> forall i :: 0 <= i < |log|-|queue| ==> log[i] <= clock - p.duration)
  }

  lemma {:induction false} CountInConcat(a: seq<int>, b: seq<int>, lo: int, hi: int)
    ensures CountIn(a + b, lo, hi) == CountIn(a, lo, hi) + CountIn(b, lo, hi)
  {
    if b == [] {
      assert a + b == a;
    } else {
      assert (a + b)[..|a + b|-1] == a + b[..|b|-1];
      CountInConcat(a, b[..|b|-1], lo, hi);
    }
  }

  lemma {:induction false} CountInNone(log: seq<int>, lo: int, hi: int)
    requires UpTo(log, lo)
    ensures CountIn(log, lo, hi) == 0
  {
    if log != [] {
      CountInNone(log[..|log|-1], lo, hi);
    }
  }

  lemma {:induction false} CountInAll(log: seq<int>, lo: int, hi: int)
    requires forall i :: 0 <= i < |log| ==> lo < log[i] <= hi
    ensures CountIn(log, lo, hi) == |log|
  {
    if log != [] {
      CountInAll(log[..|log|-1], lo, hi);
    }
  }

  lemma {:induction false} CountInAtMost(log: seq<int>, lo: int, hi: int)
    ensures CountIn(log, lo, hi) <= |log|
  {
    if log != [] {
      CountInAtMost(log[..|log|-1], lo, hi);
    }
  }

  /** Only the part of a window that the log has reached counts. */
  lemma {:induction false} CountInShrinks(log: seq<int>, lo: int, hi: int, lo': int, hi': int)
    requires UpTo(log, hi') && lo' <= lo
    ensures CountIn(log, lo, hi) <= CountIn(log, lo', hi')
  {
    if log != [] {
      CountInShrinks(log[..|log|-1], lo, hi, lo', hi');
    }
  }

  /** What the queue has forgotten, and everything up to the window's start, counts for nothing. */
  lemma CountAfterPrefix(past: seq<int>, rest: seq<int>, lo: int, hi: int)
    requires UpTo(past, lo)
    ensures CountIn(past + rest, lo, hi) <= |rest|
  {
    CountInConcat(past, rest, lo, hi);
    CountInNone(past, lo, hi);
    CountInAtMost(rest, lo, hi);
  }

  /** The single comparison of the bounded queue answers the question asked of the whole log. */
  lemma QueueDecides(log: seq<int>, queue: seq<int>, p: Policy, clock: int, now: int)
    requires Represents(log, queue, p, clock) && clock <= now && p.max >= 1
    ensures Admits(log, p, now) <==> |queue| < p.max || now - queue[0] >= p.duration
  {
    var n := |log| - |queue|;
    var lo := now - p.duration;
    if |queue| < p.max {
      assert log == log[..n] + queue;
      CountAfterPrefix(log[..n], queue, lo, now);
    } else if queue[0] <= lo {
      assert queue[0] == log[n];
      assert log == log[..n+1] + log[n+1..];
      CountAfterPrefix(log[..n+1], log[n+1..], lo, now);
    } else {
      FullWindow(log, n, lo, now);
    }
  }

  /** When the stamps from position n on all lie in the window, they all count. */
  lemma FullWindow(log: seq<int>, n: nat, lo: int, hi: int)
    requires Nondecreasing(log) && UpTo(log, hi) && n < |log| && lo < log[n]
    ensures CountIn(log, lo, hi) >= |log| - n
  {
    assert log == log[..n] + log[n..];
    CountInConcat(log[..n], log[n..], lo, hi);
    CountInAll(log[n..], lo, hi);
  }

  /** Accepting keeps the queue faithful: append, dropping the head when it was full. */
  lemma AcceptKeeps(log: seq<int>, queue: seq<int>, p: Policy, clock: int, now: int)
    requires Represents(log, queue, p, clock) && clock <= now && p.max >= 1
    requires |queue| < p.max || now - queue[0] >= p.duration
    ensures Represents(log + [now], (if |queue| < p.max then queue else queue[1..]) + [now], p, now)
  {
    var queue' := (if |queue| < p.max then queue else queue[1..]) + [now];
    var log' := log + [now];
    assert log'[|log'|-|queue'|..] == queue';
  }

  /** Time alone changes nothing. */
  lemma WaitKeeps(log: seq<int>, queue: seq<int>, p: Policy, clock: int, now: int)
    requires Represents(log, queue, p, clock) && clock <= now
    ensures Represents(log, queue, p, now)
  {
  }

  /** A queue whose newest stamp has left the window may be forgotten altogether. */
  lemma ForgetKeeps(log: seq<int>, queue: seq<int>, p: Policy, clock: int, now: int)
    requires Represents(log, queue, p, clock) && clock <= now && p.max >= 1
    requires queue == [] || now - queue[|queue|-1] >= p.duration
    ensures Represents(log, [], p, now)
  {
    if queue != [] {
      assert queue[|queue|-1] == log[|log|-1];
    }
  }

  /** Accepting under the ideal rule never overfills any window. */
  lemma AcceptKeepsBound(log: seq<int>, p: Policy, now: int)
    requires WindowBounded(log, p) && UpTo(log, now) && Admits(log, p, now)
    ensures WindowBounded(log + [now], p)
  {
    forall lo, hi | hi <= lo + p.duration
      ensures CountIn(log + [now], lo, hi) <= p.max
    {
      assert (log + [now])[..|log|] == log;
      if lo < now <= hi {
        CountInShrinks(log, lo, hi, now - p.duration, now);
      }
    }
  }

  // ----- limits that change -----

  /** Only the stamp that is `max` places back decides. */
  lemma AdmitsByOldest(log: seq<int>, p: Policy, now: int)
    requires Nondecreasing(log) && UpTo(log, now) && p.max >= 1
    ensures Admits(log, p, now) <==> |log| < p.max || now - log[|log|-p.max] >= p.duration
  {
    var queue := if |log| < p.max then log else log[|log|-p.max..];
    assert log[|log|-|queue|..] == queue;
    QueueDecides(log, queue, p, now, now);
  }

  /** The queue stands for the log under any limit: what it has forgotten lies outside every present and later
      window. */
  ghost predicate Remembers(log: seq<int>, queue: seq<int>, duration: int, clock: int)
  {
    && Nondecreasing(log) && UpTo(log, clock)
    && |queue| <= |log| && log[|log|-|queue|..] == queue
    && forall i :: 0 <= i < |log|-|queue| ==> log[i] <= clock - duration
  }

  /** Accepting keeps all that is remembered, whether the head is dropped, once it has left the window, or not. */
  lemma AcceptRemembers(log: seq<int>, queue: seq<int>, duration: int, clock: int, now: int, dropHead: bool)
    requires Remembers(log, queue, duration, clock) && clock <= now
    requires dropHead ==> queue != [] && now - queue[0] >= duration
    ensures Remembers(log + [now], (if dropHead then queue[1..] else queue) + [now], duration, now)
  {
    var queue' := (if dropHead then queue[1..] else queue) + [now];
    var log' := log + [now];
    assert log'[|log'|-|queue'|..] == queue';
    if dropHead {
      assert queue[0] == log[|log|-|queue|];
    }
  }

  lemma ForgetRemembers(log: seq<int>, queue: seq<int>, duration: int, clock: int, now: int)
    requires Remembers(log, queue, duration, clock) && clock <= now
    requires queue == [] || now - queue[|queue|-1] >= duration
    ensures Remembers(log, [], duration, now)
  {
    if queue != [] {
      assert queue[|queue|-1] == log[|log|-1];
    }
  }

  lemma BoundGrows(log: seq<int>, max: int, max': int, duration: int)
    requires WindowBounded(log, Policy(max, duration)) && max <= max'
    ensures WindowBounded(log, Policy(max', duration))
  {
    forall lo, hi | hi <= lo + duration ensures CountIn(log, lo, hi) <= max' {
      assert CountIn(log, lo, hi) <= max;
    }
  }
}
