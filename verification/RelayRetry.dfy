/** The retry loop of the relay: which other channels a failed request is sent to, and when it gives up. */
module RelayRetry {
  import opened Wrappers
  import opened Text
  import opened Channels
  import opened ChannelCache
  import opened ChannelSelection

  const TOO_MANY_REQUESTS := 429
  const TOO_LARGE := 413
  const UNAUTHORIZED := 401
  const FORBIDDEN := 403

  /** A failed attempt: its status, whether the caller's context had ended, and what upstream said. */
  datatype Failure = Failure(status: int, contextEnded: bool, code: string, message: string)

  datatype Outcome = Success | Failed(failure: Failure)

  // ----- the retry budget -----

  predicate Contains(s: string, part: string)
  {
    |part| <= |s| && (s[..|part|] == part || (s != "" && Contains(s[1..], part)))
  }

  /** Retrying makes sense for this failure; `pinned` says that the caller asked for a specific channel. */
  predicate ShouldRetry(pinned: bool, f: Failure)
  {
    && !pinned
    && !f.contextEnded
    && !(400 <= f.status < 500 && f.status != TOO_MANY_REQUESTS && f.status != TOO_LARGE
         && f.status != UNAUTHORIZED && f.status != FORBIDDEN)
  }

  /** A client error that is known to be transient. */
  predicate RetryableClientError(f: Failure)
  {
    var code, message := ToLower(TrimSpace(f.code)), ToLower(TrimSpace(f.message));
    && 400 <= f.status < 500
    && (|| code == "websocket_connection_limit_reached" || code == "output_parse_failed"
        || Contains(message, "websocket connection limit reached")
        || Contains(message, "create a new websocket connection")
        || Contains(message, "generated output that could not be parsed"))
  }

  /** How many retries are allowed: none for a failure not worth retrying, twice as many for 429 and,
      for 413, one per other cached channel whatever was decided before. */
  function RetryBudget(configured: int, pinned: bool, f: Failure, cached: Result<seq<Channel>>): int
  {
    var base := if !ShouldRetry(pinned, f) && !RetryableClientError(f) then 0 else configured;
    var doubled := if f.status == TOO_MANY_REQUESTS && base > 0 then base * 2 else base;
    if f.status == TOO_LARGE then (if cached.Err? then 1 else |cached.value| - 1) else doubled
  }

  /** The part stands somewhere in the text. */
  ghost predicate HasPart(s: string, part: string)
  {
    exists i, j :: 0 <= i <= j <= |s| && s[i..j] == part
  }

  lemma {:induction false} ContainsIff(s: string, part: string)
    ensures Contains(s, part) <==> HasPart(s, part)
  {
    if |part| <= |s| && s[..|part|] == part {
      assert s[0..|part|] == part;
    } else if s != "" {
      var rest := s[1..];
      ContainsIff(rest, part);
      if i, j :| 0 <= i <= j <= |rest| && rest[i..j] == part {
        assert s[i+1..j+1] == part;
      }
      if i, j :| 0 < i <= j <= |s| && s[i..j] == part {
        assert rest[i-1..j-1] == part;
      }
    }
  }

  /** A client error counts as transient exactly when its code is one of two, or its message has one of three phrases
      somewhere, whatever the case of the letters. */
  lemma TransientIff(f: Failure)
    ensures var code, message := ToLower(TrimSpace(f.code)), ToLower(TrimSpace(f.message));
            RetryableClientError(f) <==>
              && 400 <= f.status <= 499
              && (|| code in {"websocket_connection_limit_reached", "output_parse_failed"}
                  || HasPart(message, "websocket connection limit reached")
                  || HasPart(message, "create a new websocket connection")
                  || HasPart(message, "generated output that could not be parsed"))
  {
    var message := ToLower(TrimSpace(f.message));
    ContainsIff(message, "websocket connection limit reached");
    ContainsIff(message, "create a new websocket connection");
    ContainsIff(message, "generated output that could not be parsed");
  }

  /** A request that is not pinned, and whose caller still waits, gets exactly the configured retries after a server
      error or a refused key, twice as many after a 429, and none after any other client error unless it is known to
      be transient. */
  lemma UnpinnedBudget(configured: int, f: Failure, cached: Result<seq<Channel>>)
    requires !f.contextEnded && f.status != 413
    ensures var budget := RetryBudget(configured, false, f, cached);
            if f.status < 400 || f.status >= 500 || f.status == 401 || f.status == 403 then budget == configured
            else if f.status == 429 then budget == configured + if configured > 0 then configured else 0
            else budget == if RetryableClientError(f) then configured else 0
  {
  }

  /** Once the caller has gone, or when the request is pinned, only a transient client error is retried: as often as
      configured, or twice as often after a 429. */
  lemma UnwantedBudget(configured: int, pinned: bool, f: Failure, cached: Result<seq<Channel>>)
    requires (f.contextEnded || pinned) && f.status != 413
    ensures var budget := RetryBudget(configured, pinned, f, cached);
            if !RetryableClientError(f) then budget == 0
            else budget == configured + if f.status == 429 && configured > 0 then configured else 0
  {
  }

  /** After a 413 there is one retry for every other cached channel, or a single one when there is no index to count
      them in, whatever is configured, whoever has gone. */
  lemma TooLargeBudget(configured: int, pinned: bool, f: Failure, cached: Result<seq<Channel>>)
    requires f.status == 413
    ensures cached.Ok? ==> RetryBudget(configured, pinned, f, cached) + 1 == |cached.value|
    ensures cached.Err? ==> RetryBudget(configured, pinned, f, cached) == 1
  {
  }

  /** A request pinned to a channel is retried elsewhere exactly after a 413 with another channel to try
      (or no index to look into), or after a transient client error: pinning alone does not prevent it. */
  lemma PinnedIsRetriedIff(configured: int, f: Failure, cached: Result<seq<Channel>>)
    ensures RetryBudget(configured, true, f, cached) > 0 <==>
              if f.status == TOO_LARGE then cached.Err? || |cached.value| >= 2
              else configured > 0 && RetryableClientError(f)
  {
  }

  /** A pinned request that was too large is sent to the other channel of two, even with no retries configured. */
  lemma PinnedIsRetried(f: Failure, pin: Channel, other: Channel)
    requires f.status == TOO_LARGE
    ensures !ShouldRetry(true, f) && RetryBudget(0, true, f, Ok([pin, other])) == 1
  {
  }

  // ----- the order of retries -----

  datatype Mode = Default | LowerFirst | Larger

  function ModeOf(status: int): Mode
  {
    if status == TOO_LARGE then Larger else if status == TOO_MANY_REQUESTS then LowerFirst else Default
  }

  ghost predicate Offers(list: seq<Channel>, model: string, exclude: set<int>, larger: bool, ignoreFirst: bool,
                         c: Channel)
  {
    May(Candidates(list, model, exclude, larger), ignoreFirst, c)
  }

  /** The two selections tried in turn. */
  ghost predicate OffersInTurn(list: seq<Channel>, model: string, exclude: set<int>, lowerFirst: bool, c: Channel)
  {
    || Offers(list, model, exclude, false, lowerFirst, c)
    || ((forall d :: !Offers(list, model, exclude, false, lowerFirst, d))
         && Offers(list, model, exclude, false, !lowerFirst, c))
  }

  /** The channels one retry may go to. */
  ghost predicate RetryMay(list: seq<Channel>, model: string, mode: Mode, exclude: set<int>, c: Channel)
  {
    match mode
    case Larger => Offers(list, model, exclude, true, false, c)
    case LowerFirst => OffersInTurn(list, model, exclude, true, c)
    case Default => OffersInTurn(list, model, exclude, false, c)
  }

  ghost function IdsOf(channels: seq<Channel>): set<int>
  {
    set c | c in channels :: c.id
  }

  /** The channels that have failed before the i-th retry. */
  ghost function FailedBefore(first: int, tried: seq<Channel>, i: nat): set<int>
    requires i <= |tried|
  {
    {first} + IdsOf(tried[..i])
  }

  /** Every retry went where it may go, given the failures before it. */
  ghost predicate Follows(list: seq<Channel>, model: string, mode: Mode, first: int, tried: seq<Channel>)
  {
    forall i :: 0 <= i < |tried| ==> RetryMay(list, model, mode, FailedBefore(first, tried, i), tried[i])
  }

  ghost predicate Exhausted(list: seq<Channel>, model: string, mode: Mode, exclude: set<int>)
  {
    forall c :: !RetryMay(list, model, mode, exclude, c)
  }

  method SelectForRetry(list: seq<Channel>, model: string, mode: Mode, exclude: set<int>) returns (r: Result<Channel>)
    requires Descending(list)
    ensures r.Ok? ==> RetryMay(list, model, mode, exclude, r.value)
    ensures r.Err? ==> Exhausted(list, model, mode, exclude)
  {
    var draw: nat := *;
    ghost var tier;
    if mode.Larger? {
      r, tier := CacheGetRandomSatisfiedChannelExcluding(list, model, false, exclude, true, draw);
      if r.Ok? {
        assert r.value in tier;
      }
    } else {
      var lowerFirst := mode.LowerFirst?;
      r, tier := CacheGetRandomSatisfiedChannelExcluding(list, model, lowerFirst, exclude, false, draw);
      if r.Ok? {
        assert r.value in tier;
        assert Offers(list, model, exclude, false, lowerFirst, r.value);
      } else {
        assert forall d :: !Offers(list, model, exclude, false, lowerFirst, d);
        r, tier := CacheGetRandomSatisfiedChannelExcluding(list, model, !lowerFirst, exclude, false, draw);
        if r.Ok? {
          assert r.value in tier;
          assert Offers(list, model, exclude, false, !lowerFirst, r.value);
        }
      }
    }
  }

  /** Relaying one request. `relay` is what an attempt on a channel comes to; no channel is attempted twice.
      The request ends in success, with the budget spent, or with no channel left to retry. */
  method Relay(list: seq<Channel>, model: string, first: int, pinned: bool, configured: int, relay: int -> Outcome)
      returns (ok: bool, tried: seq<Channel>)
    requires Descending(list)
    ensures relay(first).Success? ==> ok && tried == []
    ensures relay(first).Failed? ==>
              var f := relay(first).failure;
              var budget := RetryBudget(configured, pinned, f, if list == [] then Err else Ok(list));
              var mode := if f.status == 413 then Larger else if f.status == 429 then LowerFirst else Default;
              && Follows(list, model, mode, first, tried)
              && |tried| <= (if budget > 0 then budget else 0)
              && (forall i :: 0 <= i < |tried| - 1 ==> relay(tried[i].id).Failed?)
              && (ok ==> tried != [] && relay(tried[|tried|-1].id).Success?)
              && (!ok ==> forall c :: c in tried ==> relay(c.id).Failed?)
              && (!ok ==> |tried| >= budget
                          || Exhausted(list, model, mode, FailedBefore(first, tried, |tried|)))
  {
    tried := [];
    if relay(first).Success? {
      return true, [];
    }
    var f := relay(first).failure;
    var retryTimes := RetryBudget(configured, pinned, f, if list == [] then Err else Ok(list));
    var mode := ModeOf(f.status);
    var failedChannels := {first};
    var i := retryTimes;
    while i > 0
      invariant i <= retryTimes && |tried| == (if retryTimes > 0 then retryTimes - i else 0)
      invariant i >= 0 || retryTimes < 0
      invariant failedChannels == FailedBefore(first, tried, |tried|)
      invariant Follows(list, model, mode, first, tried)
      invariant forall c :: c in tried ==> relay(c.id).Failed?
    {
      var channel := SelectForRetry(list, model, mode, failedChannels);
      if channel.Err? {
        return false, tried;
      }
      FollowsExtends(list, model, mode, first, tried, channel.value);
      tried := tried + [channel.value];
      if relay(channel.value.id).Success? {
        return true, tried;
      }
      failedChannels := failedChannels + {channel.value.id};
      assert tried[..|tried|] == tried;
      i := i - 1;
    }
    return false, tried;
  }

  lemma FollowsExtends(list: seq<Channel>, model: string, mode: Mode, first: int, tried: seq<Channel>, c: Channel)
    requires Follows(list, model, mode, first, tried)
    requires RetryMay(list, model, mode, FailedBefore(first, tried, |tried|), c)
    ensures Follows(list, model, mode, first, tried + [c])
  {
    forall i | 0 <= i < |tried + [c]|
      ensures RetryMay(list, model, mode, FailedBefore(first, tried + [c], i), (tried + [c])[i])
    {
      assert (tried + [c])[..i] == tried[..i];
    }
  }

  // ----- what a run of retries amounts to -----

  /** A retry goes to a cached channel that has not failed yet. */
  lemma RetryIsNew(list: seq<Channel>, model: string, mode: Mode, exclude: set<int>, c: Channel)
    requires RetryMay(list, model, mode, exclude, c)
    ensures c in list && c.id !in exclude
  {
  }

  /** No channel is attempted twice. */
  lemma RetriedOnce(list: seq<Channel>, model: string, mode: Mode, first: int, tried: seq<Channel>)
    requires Follows(list, model, mode, first, tried)
    ensures forall i :: 0 <= i < |tried| ==> tried[i] in list && tried[i].id != first
    ensures forall i, j :: 0 <= i < j < |tried| ==> tried[i].id != tried[j].id
  {
    forall i | 0 <= i < |tried| ensures tried[i] in list && tried[i].id !in FailedBefore(first, tried, i) {
      RetryIsNew(list, model, mode, FailedBefore(first, tried, i), tried[i]);
    }
    forall i, j | 0 <= i < j < |tried| ensures tried[i].id != tried[j].id {
      assert tried[..j][i] == tried[i];
      assert tried[i].id in IdsOf(tried[..j]);
    }
  }

  /** On the default path, retries come in nonincreasing priority. */
  lemma DefaultDescends(list: seq<Channel>, model: string, first: int, tried: seq<Channel>)
    requires Follows(list, model, Default, first, tried)
    ensures Descending(tried)
  {
    forall i, j | 0 <= i < j < |tried| ensures tried[i].Priority() >= tried[j].Priority() {
      LaterRanksLower(list, model, first, tried, i, j);
    }
  }

  lemma LaterRanksLower(list: seq<Channel>, model: string, first: int, tried: seq<Channel>, i: nat, j: nat)
    requires Follows(list, model, Default, first, tried) && i < j < |tried|
    ensures tried[i].Priority() >= tried[j].Priority()
  {
    var early, late := FailedBefore(first, tried, i), FailedBefore(first, tried, j);
    FailuresGrow(first, tried, i, j);
    RetryIsNew(list, model, Default, late, tried[j]);
    assert tried[j] in Candidates(list, model, early, false);
    assert RetryMay(list, model, Default, early, tried[i]);
    DefaultIsTop(list, model, early, tried[i]);
  }

  lemma FailuresGrow(first: int, tried: seq<Channel>, i: nat, j: nat)
    requires i <= j <= |tried|
    ensures FailedBefore(first, tried, i) <= FailedBefore(first, tried, j)
  {
    assert tried[..i] == tried[..j][..i];
  }

  /** A retry on the default path goes to a channel of the highest tier left. */
  lemma DefaultIsTop(list: seq<Channel>, model: string, exclude: set<int>, c: Channel)
    requires RetryMay(list, model, Default, exclude, c)
    ensures IsTop(Candidates(list, model, exclude, false), c)
  {
    var top := SomeTop(Candidates(list, model, exclude, false));
    assert Offers(list, model, exclude, false, false, top);
  }

  /** After a 429, a channel of a positive highest tier is retried only once nothing is left below that tier. */
  lemma LowerTiersFirst(list: seq<Channel>, model: string, first: int, tried: seq<Channel>, i: nat)
    requires Follows(list, model, LowerFirst, first, tried) && i < |tried| && tried[i].Priority() > 0
    requires IsTop(Candidates(list, model, FailedBefore(first, tried, i), false), tried[i])
    ensures AllOfPriority(Candidates(list, model, FailedBefore(first, tried, i), false), tried[i].Priority())
  {
    var exclude := FailedBefore(first, tried, i);
    var cands := Candidates(list, model, exclude, false);
    assert RetryMay(list, model, LowerFirst, exclude, tried[i]);
    forall c | c in cands ensures c.Priority() == tried[i].Priority() {
      assert c.Priority() < tried[i].Priority() ==> Offers(list, model, exclude, false, true, c);
    }
  }

  ghost predicate AllOfPriority(cands: set<Channel>, p: int)
  {
    forall c :: c in cands ==> c.Priority() == p
  }

  /** After a 413, no two retried channels with a config for the model have the same MaxTokens. */
  lemma LargerSizesDiffer(list: seq<Channel>, model: string, first: int, tried: seq<Channel>, i: nat, j: nat)
    requires Follows(list, model, Larger, first, tried) && i < j < |tried|
    requires tried[i].ModelConfig(model).Some? && tried[j].ModelConfig(model).Some?
    ensures tried[i].ModelConfig(model) != tried[j].ModelConfig(model)
  {
    var late := FailedBefore(first, tried, j);
    RetryIsNew(list, model, Larger, FailedBefore(first, tried, i), tried[i]);
    assert RetryMay(list, model, Larger, late, tried[j]);
    assert tried[..j][i] == tried[i];
    assert tried[i].id in late;
    assert tried[i].ModelConfig(model).value in TriedSizes(list, model, late);
  }

  /** Nothing is left to retry exactly when every cached channel has failed or, after a 413, when each one left
      has a MaxTokens that has failed. */
  lemma ExhaustedIff(list: seq<Channel>, model: string, mode: Mode, exclude: set<int>)
    ensures Exhausted(list, model, mode, exclude) <==>
              forall c :: c in list && c.id !in exclude ==>
                mode.Larger? && c.ModelConfig(model).Some?
                  && c.ModelConfig(model).value in TriedSizes(list, model, exclude)
  {
    var cands := Candidates(list, model, exclude, mode.Larger?);
    if cands != {} {
      var c := SomeRetry(list, model, mode, exclude);
      var top :| top in cands;
      assert top in list && Candidate(list, model, exclude, mode.Larger?, top);
    } else {
      forall c | c in list && c.id !in exclude
        ensures mode.Larger? && c.ModelConfig(model).Some?
                  && c.ModelConfig(model).value in TriedSizes(list, model, exclude)
      {
        assert c !in cands;
      }
    }
  }

  lemma SomeRetry(list: seq<Channel>, model: string, mode: Mode, exclude: set<int>) returns (c: Channel)
    requires Candidates(list, model, exclude, mode.Larger?) != {}
    ensures RetryMay(list, model, mode, exclude, c)
  {
    c := SomeTop(Candidates(list, model, exclude, mode.Larger?));
    assert Offers(list, model, exclude, mode.Larger?, false, c);
    if mode.LowerFirst? {
      if d :| Offers(list, model, exclude, false, true, d) {
        c := d;
      }
    }
  }

  lemma {:induction false} IdsOfSize(channels: seq<Channel>)
    ensures |IdsOf(channels)| <= |channels|
    ensures (forall i, j :: 0 <= i < j < |channels| ==> channels[i].id != channels[j].id) ==>
              |IdsOf(channels)| == |channels|
  {
    if channels != [] {
      var init, last := channels[..|channels|-1], channels[|channels|-1];
      IdsOfSize(init);
      assert channels == init + [last];
      IdsOfLast(init, last);
      if last.id in IdsOf(init) {
        var c :| c in init && c.id == last.id;
      }
    }
  }

  lemma IdsOfLast(init: seq<Channel>, last: Channel)
    ensures IdsOf(init + [last]) == IdsOf(init) + {last.id}
  {
  }

  lemma SubsetOfSameSize(a: set<int>, b: set<int>)
    requires a <= b && |a| >= |b|
    ensures a == b
  {
    assert |b - a| == |b| - |a|;
  }

  /** With at least as many attempts as there are other cached channels, a request that is never answered leaves
      nothing untried: every cached channel has failed or, after a 413, every MaxTokens has. */
  lemma EnoughAttemptsExhaust(list: seq<Channel>, model: string, mode: Mode, first: int, tried: seq<Channel>,
                              budget: int)
    requires Follows(list, model, mode, first, tried)
    requires |tried| >= budget || Exhausted(list, model, mode, FailedBefore(first, tried, |tried|))
    requires budget >= |IdsOf(list) - {first}|
    ensures Exhausted(list, model, mode, FailedBefore(first, tried, |tried|))
    ensures !mode.Larger? ==> IdsOf(list) <= {first} + IdsOf(tried)
  {
    RetriedOnce(list, model, mode, first, tried);
    IdsOfSize(tried);
    assert tried[..|tried|] == tried;
    ExhaustedIff(list, model, mode, FailedBefore(first, tried, |tried|));
    if |tried| >= budget {
      SubsetOfSameSize(IdsOf(tried), IdsOf(list) - {first});
    }
  }

  /** The attempts granted after a 413 are enough whenever the failed channel is a cached one. */
  lemma TooLargeBudgetIsEnough(list: seq<Channel>, configured: int, pinned: bool, f: Failure, first: int)
    requires f.status == TOO_LARGE && first in IdsOf(list)
    ensures RetryBudget(configured, pinned, f, Ok(list)) >= |IdsOf(list) - {first}|
  {
    IdsOfSize(list);
    assert |IdsOf(list) - {first}| == |IdsOf(list)| - 1;
  }
}
