/** How a request gets its channel: repeated selection under a growing exclude set. */
module Distributor {
  import opened Wrappers
  import opened Text
  import opened Sorting
  import opened Channels
  import opened ChannelCache
  import opened ChannelSelection

  const TYPE_OPENAI := 1

  /** What the rate-limit precheck says about a channel; an error counts as not blocked. */
  datatype LimitAnswer = Free | Blocked | LimitError

  /** The facts about one request on which channels are judged, fixed while it is placed. */
  datatype Request = Request(
    endpointName: string,                  // empty for an unknown relay mode
    isResponseApi: bool,
    isResponseHandshake: bool,             // a websocket handshake of the Response API
    defaultEndpoints: int -> seq<string>,  // by channel type
    limit: Channel -> LimitAnswer)

  predicate NamesEndpoint(endpointName: string, supported: seq<string>)
  {
    exists i :: 0 <= i < |supported| && ToLower(TrimSpace(supported[i])) == ToLower(TrimSpace(endpointName))
  }

  predicate SupportsEndpoint(c: Channel, req: Request)
  {
    || req.endpointName == ""
    || NamesEndpoint(req.endpointName,
                     if c.supportedEndpoints != [] then c.supportedEndpoints else req.defaultEndpoints(c.kind))
  }

  predicate SupportsResponseWebSocket(c: Channel, req: Request)
  {
    !req.isResponseHandshake || !req.isResponseApi || c.kind == TYPE_OPENAI
  }

  /** The channel can take the request. */
  predicate Passes(c: Channel, req: Request)
  {
    !req.limit(c).Blocked? && SupportsEndpoint(c, req) && SupportsResponseWebSocket(c, req)
  }

  /** The list has the endpoint's name, whatever the case of the letters and the white space around them. */
  ghost predicate ListsEndpoint(supported: seq<string>, endpointName: string)
  {
    exists name :: name in supported && EqualFold(TrimSpace(name), TrimSpace(endpointName))
  }

  lemma NamesEndpointIff(endpointName: string, supported: seq<string>)
    ensures NamesEndpoint(endpointName, supported) <==> ListsEndpoint(supported, endpointName)
  {
    if name :| name in supported && EqualFold(TrimSpace(name), TrimSpace(endpointName)) {
      var i :| 0 <= i < |supported| && supported[i] == name;
    }
  }

  /** A channel passes exactly when it is not known to be blocked, when its own endpoints or, only if it has none, the
      defaults of its type have the request's endpoint, if that is known, and when a Response API handshake finds an
      OpenAI channel. */
  lemma PassesIff(c: Channel, req: Request)
    ensures Passes(c, req) <==>
              && req.limit(c) != Blocked
              && (req.endpointName != "" && c.supportedEndpoints != [] ==>
                   ListsEndpoint(c.supportedEndpoints, req.endpointName))
              && (req.endpointName != "" && c.supportedEndpoints == [] ==>
                   ListsEndpoint(req.defaultEndpoints(c.kind), req.endpointName))
              && (req.isResponseHandshake && req.isResponseApi ==> c.kind == 1)
  {
    NamesEndpointIff(req.endpointName, c.supportedEndpoints);
    NamesEndpointIff(req.endpointName, req.defaultEndpoints(c.kind));
  }

  ghost function Ids(list: seq<Channel>): set<int>
  {
    set c | c in list :: c.id
  }

  /** The selection may offer this channel once the given ones are excluded. */
  ghost predicate Offered(list: seq<Channel>, model: string, ignoreFirst: bool, exclude: set<int>, c: Channel)
  {
    May(Candidates(list, model, exclude, false), ignoreFirst, c)
  }

  /** The best that can be offered: it passes and nothing else that passes ranks higher. */
  ghost predicate BestPassing(list: seq<Channel>, exclude: set<int>, req: Request, c: Channel)
  {
    && c in list && c.id !in exclude && Passes(c, req)
    && forall d :: d in list && d.id !in exclude && Passes(d, req) ==> d.Priority() <= c.Priority()
  }

  ghost predicate NonePasses(list: seq<Channel>, exclude: set<int>, req: Request)
  {
    forall c :: c in list && c.id !in exclude ==> !Passes(c, req)
  }

  /** A channel that passes below a positive first tier. */
  ghost predicate PassesBelowTop(list: seq<Channel>, model: string, exclude: set<int>, req: Request, c: Channel)
  {
    Offered(list, model, true, exclude, c) && Passes(c, req)
  }

  /** Skipping a channel that fails leaves the first tier, and what passes below it, in place. */
  lemma SkipKeepsLowerTiers(list: seq<Channel>, model: string, exclude: set<int>, req: Request, skipped: Channel)
    requires UniqueIds(list) && Offered(list, model, true, exclude, skipped) && !Passes(skipped, req)
    ensures forall c :: PassesBelowTop(list, model, exclude + {skipped.id}, req, c)
                   <==> PassesBelowTop(list, model, exclude, req, c)
  {
    var before := Candidates(list, model, exclude, false);
    var after := Candidates(list, model, exclude + {skipped.id}, false);
    assert after == before - {skipped};
    var top :| IsTop(before, top) && top.Priority() > 0 && skipped.Priority() < top.Priority();
    assert IsTop(after, top);
    forall c ensures PassesBelowTop(list, model, exclude + {skipped.id}, req, c)
                <==> PassesBelowTop(list, model, exclude, req, c)
    {
      if PassesBelowTop(list, model, exclude + {skipped.id}, req, c) {
        assert May(before, true, c);
      }
    }
  }

  /** The selection loop. From the first tier on, it returns a channel that passes and has maximal priority
      among all that pass, and fails exactly when none passes. Told to ignore the first tier, it returns a
      channel that passes below it, and fails exactly when there is none. It excludes only channels that fail. */
  method SelectChannel(list: seq<Channel>, model: string, req: Request, ignoreFirstPriority: bool, exclude: set<int>)
      returns (r: Result<Channel>, exclude': set<int>)
    requires Descending(list) && UniqueIds(list)
    ensures exclude <= exclude'
    ensures forall c :: c in list && c.id in exclude' - exclude ==> !Passes(c, req)
    ensures !ignoreFirstPriority && r.Ok? ==> BestPassing(list, exclude, req, r.value)
    ensures !ignoreFirstPriority && r.Err? ==> NonePasses(list, exclude, req) && Ids(list) <= exclude'
    ensures ignoreFirstPriority && r.Ok? ==> PassesBelowTop(list, model, exclude, req, r.value)
    ensures ignoreFirstPriority && r.Err? ==> forall c :: !PassesBelowTop(list, model, exclude, req, c)
  {
    exclude' := exclude;
    while true
      invariant exclude <= exclude'
      invariant forall c :: c in list && c.id in exclude' - exclude ==> !Passes(c, req)
      invariant ignoreFirstPriority ==> forall c :: PassesBelowTop(list, model, exclude', req, c)
                                               <==> PassesBelowTop(list, model, exclude, req, c)
      decreases Ids(list) - exclude'
    {
      var draw: nat := *;
      var candidate;
      ghost var tier;
      candidate, tier :=
        CacheGetRandomSatisfiedChannelExcluding(list, model, ignoreFirstPriority, exclude', false, draw);
      if candidate.Err? {
        NothingOffered(list, model, ignoreFirstPriority, exclude', req);
        return Err, exclude';
      }
      var c := candidate.value;
      assert Offered(list, model, ignoreFirstPriority, exclude', c);
      if req.limit(c).Blocked? || !SupportsEndpoint(c, req) || !SupportsResponseWebSocket(c, req) {
        assert c.id in Ids(list) - exclude';
        if ignoreFirstPriority {
          SkipKeepsLowerTiers(list, model, exclude', req, c);
        }
        exclude' := exclude' + {c.id};
      } else {
        return Ok(c), exclude';
      }
    }
  }

  lemma NothingOffered(list: seq<Channel>, model: string, ignoreFirst: bool, exclude: set<int>, req: Request)
    requires forall c :: !Offered(list, model, ignoreFirst, exclude, c)
    ensures !ignoreFirst ==> Ids(list) <= exclude
    ensures ignoreFirst ==> forall c :: !PassesBelowTop(list, model, exclude, req, c)
  {
    var cands := Candidates(list, model, exclude, false);
    forall c ensures !May(cands, ignoreFirst, c) {
      assert !Offered(list, model, ignoreFirst, exclude, c);
    }
    MayFailIff(cands, ignoreFirst);
    if !ignoreFirst {
      forall id | id in Ids(list) ensures id in exclude {
        var c :| c in list && c.id == id;
        assert c !in cands;
      }
    }
  }

  datatype Placement = Placed(channel: Channel) | Unavailable | RateLimited

  /** What the selection finds after the wait: the index rebuilt, and the limiter's answers of that time. */
  datatype Later = Later(list: seq<Channel>, limit: Channel -> LimitAnswer)

  /** Placing a request that has no sticky or bound channel: a pass from the first tier, a pass below it under the
      same exclusions and, when every ability is only suspended for a short while, both again on the index and the
      limits after the wait. The second pass can never succeed where the first failed, and the rate-limit check that
      follows never turns the chosen channel down. */
  method PlaceRequest(list: seq<Channel>, afterWait: Option<Later>, model: string, req: Request) returns (p: Placement)
    requires Descending(list) && UniqueIds(list)
    requires afterWait.Some? ==> Descending(afterWait.value.list) && UniqueIds(afterWait.value.list)
    ensures !p.RateLimited?
    ensures !NonePasses(list, {}, req) ==> p.Placed? && BestPassing(list, {}, req, p.channel)
    ensures NonePasses(list, {}, req) ==>
              if afterWait.None? then p.Unavailable?
              else
                var later, req' := afterWait.value.list, req.(limit := afterWait.value.limit);
                if NonePasses(later, {}, req') then p.Unavailable?
                else p.Placed? && BestPassing(later, {}, req', p.channel)
  {
    var limit := req.limit;
    var channel, exclude := SelectChannel(list, model, req, false, {});
    if channel.Err? {
      channel, exclude := SelectChannel(list, model, req, true, exclude);
      if channel.Err? {
        if afterWait.Some? {
          limit := afterWait.value.limit;
          var exclude2;
          channel, exclude2 := SelectChannel(afterWait.value.list, model, req.(limit := limit), false, {});
          if channel.Err? {
            channel, exclude2 := SelectChannel(afterWait.value.list, model, req.(limit := limit), true, exclude2);
          }
        }
        if channel.Err? {
          return Unavailable;
        }
      }
    }
    if limit(channel.value).Blocked? {
      return RateLimited;
    }
    return Placed(channel.value);
  }

  // ----- a Response API websocket handshake without a model -----

  predicate SupportsGroup(c: Channel, userGroup: string)
  {
    var target := TrimSpace(userGroup);
    target != "" && exists i :: 0 <= i < |c.Groups()| && EqualFold(TrimSpace(c.Groups()[i]), target)
  }

  predicate SocketCandidate(c: Channel, userGroup: string, req: Request)
  {
    && c.status == STATUS_ENABLED && SupportsGroup(c, userGroup)
    && SupportsEndpoint(c, req) && (!req.isResponseApi || c.kind == TYPE_OPENAI)
  }

  /** A channel is a candidate for a handshake exactly when it is enabled, one of its groups reads like the user's,
      which must not be blank, and it takes the endpoint, as an OpenAI channel for the Response API. */
  lemma SocketCandidateIff(c: Channel, userGroup: string, req: Request)
    ensures SocketCandidate(c, userGroup, req) <==>
              && c.status == 1 && TrimSpace(userGroup) != ""
              && (exists g :: g in Split(c.groups, ',') && EqualFold(TrimSpace(g), TrimSpace(userGroup)))
              && (req.endpointName != "" ==>
                   ListsEndpoint(if c.supportedEndpoints == [] then req.defaultEndpoints(c.kind)
                                 else c.supportedEndpoints, req.endpointName))
              && (req.isResponseApi ==> c.kind == 1)
  {
    NamesEndpointIff(req.endpointName, c.supportedEndpoints);
    NamesEndpointIff(req.endpointName, req.defaultEndpoints(c.kind));
    if g :| g in Split(c.groups, ',') && EqualFold(TrimSpace(g), TrimSpace(userGroup)) {
      var i :| 0 <= i < |c.Groups()| && c.Groups()[i] == g;
    }
  }

  /** Higher priority first, then the smaller id. */
  predicate SocketOrder(a: Channel, b: Channel)
  {
    a.Priority() > b.Priority() || (a.Priority() == b.Priority() && a.id <= b.id)
  }

  /** The first in order among the candidates, or among those below the highest priority. */
  ghost predicate FirstSocket(channels: seq<Channel>, userGroup: string, req: Request, ignoreFirst: bool, c: Channel)
  {
    && SocketEligible(channels, userGroup, req, ignoreFirst, c)
    && forall d :: SocketEligible(channels, userGroup, req, ignoreFirst, d) ==>
         c.Priority() > d.Priority() || (c.Priority() == d.Priority() && c.id <= d.id)
  }

  ghost predicate SocketEligible(channels: seq<Channel>, userGroup: string, req: Request, ignoreFirst: bool, c: Channel)
  {
    && c in channels && SocketCandidate(c, userGroup, req)
    && (ignoreFirst ==> exists d :: d in channels && SocketCandidate(d, userGroup, req) && d.Priority() > c.Priority())
  }

  /** In the sorted list, the first item below the highest priority precedes every other one below it. */
  lemma FirstBelow(sorted: seq<Channel>, i: nat)
    requires SortedBy(sorted, SocketOrder) && i < |sorted|
    requires forall k :: 0 <= k < i ==> sorted[k].Priority() >= sorted[0].Priority()
    ensures forall d :: d in sorted && (i == 0 || d.Priority() < sorted[0].Priority()) ==> SocketOrder(sorted[i], d)
    ensures forall d :: d in sorted ==> d.Priority() <= sorted[0].Priority()
  {
    forall d | d in sorted
      ensures (i == 0 || d.Priority() < sorted[0].Priority()) ==> SocketOrder(sorted[i], d)
      ensures d.Priority() <= sorted[0].Priority()
    {
      var k :| 0 <= k < |sorted| && sorted[k] == d;
    }
  }

  method SocketCandidates(channels: seq<Channel>, userGroup: string, req: Request) returns (candidates: seq<Channel>)
    ensures forall c :: c in candidates <==> c in channels && SocketCandidate(c, userGroup, req)
  {
    candidates := [];
    for i := 0 to |channels|
      invariant forall c :: c in candidates <==> c in channels[..i] && SocketCandidate(c, userGroup, req)
    {
      assert channels[..i+1] == channels[..i] + [channels[i]];
      if SocketCandidate(channels[i], userGroup, req) {
        candidates := candidates + [channels[i]];
      }
    }
    assert channels[..|channels|] == channels;
  }

  method SelectResponseWebSocketChannelWithoutModel(channels: seq<Channel>, userGroup: string, req: Request,
                                                    ignoreFirstPriority: bool) returns (r: Result<Channel>)
    ensures r.Ok? ==> FirstSocket(channels, userGroup, req, ignoreFirstPriority, r.value)
    ensures r.Err? ==> forall c :: !SocketEligible(channels, userGroup, req, ignoreFirstPriority, c)
  {
    var candidates := SocketCandidates(channels, userGroup, req);
    if |candidates| == 0 {
      return Err;
    }
    candidates := Sort(candidates, SocketOrder);
    FirstBelow(candidates, 0);
    var highestPriority := candidates[0].Priority();
    if ignoreFirstPriority {
      for i := 0 to |candidates|
        invariant forall k :: 0 <= k < i ==> candidates[k].Priority() >= highestPriority
      {
        if candidates[i].Priority() < highestPriority {
          FirstBelow(candidates, i);
          return Ok(candidates[i]);
        }
      }
      return Err;
    }
    return Ok(candidates[0]);
  }
}
