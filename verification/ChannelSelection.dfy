/** Picking a channel for a group and model: from the sorted index, and by SQL.
    The random draw is a parameter, so that the channels a selection may return form a set. */
module ChannelSelection {
  import opened Wrappers
  import opened Channels
  import opened ChannelCache

  // ----- what the cached selection may return -----

  /** A channel is out when it is excluded or, after a 413 answer, when an excluded cached channel
      has the same MaxTokens for the model. */
  ghost predicate Candidate(list: seq<Channel>, model: string, exclude: set<int>, larger: bool, c: Channel)
  {
    && c in list && c.id !in exclude
    && (larger ==> c.ModelConfig(model).None? || c.ModelConfig(model).value !in TriedSizes(list, model, exclude))
  }

  ghost function TriedSizes(list: seq<Channel>, model: string, exclude: set<int>): set<int>
  {
    set c | c in list && c.id in exclude && c.ModelConfig(model).Some? :: c.ModelConfig(model).value
  }

  /** A size is spared when no excluded cached channel has it for the model. */
  lemma TriedSizesIff(list: seq<Channel>, model: string, exclude: set<int>, size: int)
    ensures size in TriedSizes(list, model, exclude) <==>
              exists c :: c in list && c.id in exclude && model in c.maxTokens && c.maxTokens[model] == size
  {
    if c :| c in list && c.id in exclude && model in c.maxTokens && c.maxTokens[model] == size {
      assert c.ModelConfig(model).Some?;
    }
  }

  ghost function Candidates(list: seq<Channel>, model: string, exclude: set<int>, larger: bool): set<Channel>
  {
    set c | c in list && Candidate(list, model, exclude, larger, c)
  }

  /** After a 413, a channel is still a candidate exactly when it has not failed and no channel that failed has the
      same MaxTokens for the model; otherwise, exactly when it has not failed. */
  lemma CandidateIff(list: seq<Channel>, model: string, exclude: set<int>, larger: bool, c: Channel)
    ensures c in Candidates(list, model, exclude, larger) <==>
              && c in list && c.id !in exclude
              && (larger && model in c.maxTokens ==>
                   forall d :: d in list && d.id in exclude && model in d.maxTokens ==>
                     d.maxTokens[model] != c.maxTokens[model])
  {
    if model in c.maxTokens {
      TriedSizesIff(list, model, exclude, c.maxTokens[model]);
    }
  }

  ghost predicate IsTop(cands: set<Channel>, c: Channel)
  {
    c in cands && forall d :: d in cands ==> d.Priority() <= c.Priority()
  }

  /** The highest tier or, when the first tier is to be ignored, everything below a positive highest tier. */
  ghost predicate May(cands: set<Channel>, ignoreFirst: bool, c: Channel)
  {
    && c in cands
    && if ignoreFirst then exists d :: IsTop(cands, d) && d.Priority() > 0 && c.Priority() < d.Priority()
       else IsTop(cands, c)
  }

  /** The selection fails exactly when there is nothing it may return: no candidate at all or, when the first
      tier is to be ignored, no positive first tier with something below it. */
  lemma MayFailIff(cands: set<Channel>, ignoreFirst: bool)
    ensures (forall c :: !May(cands, ignoreFirst, c)) <==>
              cands == {} || (ignoreFirst && forall d, c :: IsTop(cands, d) && c in cands && d.Priority() > 0
                                                            ==> c.Priority() == d.Priority())
  {
    if cands != {} {
      var t := SomeTop(cands);
      assert !ignoreFirst ==> May(cands, ignoreFirst, t);
      if ignoreFirst && forall c :: !May(cands, ignoreFirst, c) {
        forall d, c | IsTop(cands, d) && c in cands && d.Priority() > 0
          ensures c.Priority() == d.Priority()
        {
          assert !May(cands, ignoreFirst, c);
        }
      }
    }
  }

  lemma {:induction false} SomeTop(cands: set<Channel>) returns (t: Channel)
    requires cands != {}
    ensures IsTop(cands, t)
    decreases |cands|
  {
    var c :| c in cands;
    var rest := cands - {c};
    t := c;
    if rest != {} {
      var u := SomeTop(rest);
      if u.Priority() > c.Priority() {
        t := u;
      }
      forall d | d in cands ensures d.Priority() <= t.Priority() {
        assert d == c || d in rest;
      }
    }
  }

  // ----- the cached selection -----

  method ExcludeChannels(list: seq<Channel>, exclude: set<int>) returns (r: seq<Channel>)
    requires Descending(list)
    ensures Descending(r) && forall c :: c in r <==> c in list && c.id !in exclude
  {
    r := [];
    for i := 0 to |list|
      invariant Descending(r) && forall c :: c in r <==> c in list[..i] && c.id !in exclude
    {
      assert list[..i+1] == list[..i] + [list[i]];
      if list[i].id !in exclude {
        forall k | 0 <= k < |r| ensures r[k].Priority() >= list[i].Priority() {
          assert r[k] in list[..i];
        }
        r := r + [list[i]];
      }
    }
    assert list[..|list|] == list;
  }

  method KeepLargerMaxTokens(candidates: seq<Channel>, list: seq<Channel>, model: string, exclude: set<int>)
      returns (r: seq<Channel>)
    requires Descending(candidates)
    ensures Descending(r)
    ensures forall c :: c in r <==>
              && c in candidates
              && (model in c.maxTokens ==>
                   forall d :: d in list && d.id in exclude && model in d.maxTokens ==>
                     d.maxTokens[model] != c.maxTokens[model])
  {
    var smaller: set<int> := {};
    for i := 0 to |list|
      invariant smaller == TriedSizes(list[..i], model, exclude)
    {
      assert list[..i+1] == list[..i] + [list[i]];
      if list[i].id in exclude {
        var config := list[i].ModelConfig(model);
        if config.Some? {
          smaller := smaller + {config.value};
        }
      }
    }
    assert list[..|list|] == list;
    r := [];
    for i := 0 to |candidates|
      invariant Descending(r)
      invariant forall c :: c in r <==>
                  c in candidates[..i] && (c.ModelConfig(model).None? || c.ModelConfig(model).value !in smaller)
    {
      assert candidates[..i+1] == candidates[..i] + [candidates[i]];
      var config := candidates[i].ModelConfig(model);
      if config.None? || config.value !in smaller {
        forall k | 0 <= k < |r| ensures r[k].Priority() >= candidates[i].Priority() {
          assert r[k] in candidates[..i];
        }
        r := r + [candidates[i]];
      }
    }
    assert candidates[..|candidates|] == candidates;
    forall size ensures size in smaller <==> exists d :: d in list && d.id in exclude && model in d.maxTokens
                                                         && d.maxTokens[model] == size
    {
      TriedSizesIff(list, model, exclude, size);
    }
  }

  /** Where the first tier ends; it is not looked for when the first priority is not positive. */
  method FirstTierEnd(candidates: seq<Channel>) returns (endIdx: nat)
    requires Descending(candidates) && candidates != []
    ensures endIdx <= |candidates|
    ensures forall i :: 0 <= i < |candidates| ==>
              (i >= endIdx <==> candidates[0].Priority() > 0 && candidates[i].Priority() < candidates[0].Priority())
  {
    endIdx := |candidates|;
    var first := candidates[0];
    if first.Priority() > 0 {
      for i := 0 to |candidates|
        invariant forall k :: 0 <= k < i ==> candidates[k].Priority() == first.Priority()
      {
        if candidates[i].Priority() != first.Priority() {
          return i;
        }
      }
    }
  }

  method HighestTier(candidates: seq<Channel>) returns (tier: seq<Channel>)
    requires candidates != []
    ensures forall c :: c in tier <==> c in candidates && forall d :: d in candidates ==> d.Priority() <= c.Priority()
    ensures tier != []
  {
    var max := candidates[0].Priority();
    ghost var best := candidates[0];
    for i := 0 to |candidates|
      invariant best in candidates && best.Priority() == max
      invariant forall k :: 0 <= k < i ==> candidates[k].Priority() <= max
    {
      if candidates[i].Priority() > max {
        max := candidates[i].Priority();
        best := candidates[i];
      }
    }
    tier := [];
    for i := 0 to |candidates|
      invariant forall c :: c in tier <==> c in candidates[..i] && c.Priority() == max
    {
      assert candidates[..i+1] == candidates[..i] + [candidates[i]];
      if candidates[i].Priority() == max {
        tier := tier + [candidates[i]];
      }
    }
    assert candidates[..|candidates|] == candidates;
    assert best in tier;
  }

  /** The selection draws from exactly the channels it may return, and fails exactly when there are none.
      `tier` holds what it draws from: with a suitable draw each of them is returned. */
  method CacheGetRandomSatisfiedChannelExcluding(
      list: seq<Channel>, model: string, ignoreFirstPriority: bool, exclude: set<int>, tryLargerMaxTokens: bool,
      draw: nat) returns (r: Result<Channel>, ghost tier: seq<Channel>)
    requires Descending(list)
    ensures r.Ok? ==> May(Candidates(list, model, exclude, tryLargerMaxTokens), ignoreFirstPriority, r.value)
    ensures r.Err? ==> forall c :: !May(Candidates(list, model, exclude, tryLargerMaxTokens), ignoreFirstPriority, c)
    ensures forall c :: c in tier <==> May(Candidates(list, model, exclude, tryLargerMaxTokens), ignoreFirstPriority, c)
    ensures r == if tier == [] then Err else Ok(tier[draw % |tier|])
  {
    ghost var cands := Candidates(list, model, exclude, tryLargerMaxTokens);
    if |list| == 0 {
      return Err, [];
    }
    var candidates := ExcludeChannels(list, exclude);
    if tryLargerMaxTokens {
      candidates := KeepLargerMaxTokens(candidates, list, model, exclude);
      forall c ensures c in candidates <==> c in cands {
        CandidateIff(list, model, exclude, true, c);
      }
    }
    assert forall c :: c in candidates <==> c in cands;
    if |candidates| == 0 {
      return Err, [];
    }
    if ignoreFirstPriority {
      var endIdx := FirstTierEnd(candidates);
      TierBelow(cands, candidates, endIdx);
      if endIdx < |candidates| {
        var idx := endIdx + draw % (|candidates| - endIdx);
        return Ok(candidates[idx]), candidates[endIdx..];
      }
      return Err, [];
    } else {
      var top := HighestTier(candidates);
      var idx := draw % |top|;
      return Ok(top[idx]), top;
    }
  }

  lemma TierBelow(cands: set<Channel>, list: seq<Channel>, endIdx: nat)
    requires Descending(list) && list != [] && endIdx <= |list| && forall c :: c in list <==> c in cands
    requires forall i :: 0 <= i < |list| ==>
               (i >= endIdx <==> list[0].Priority() > 0 && list[i].Priority() < list[0].Priority())
    ensures forall c :: c in list[endIdx..] <==> May(cands, true, c)
  {
    assert IsTop(cands, list[0]) by {
      forall d | d in cands ensures d.Priority() <= list[0].Priority() {
        var i :| 0 <= i < |list| && list[i] == d;
      }
    }
    forall c ensures c in list[endIdx..] <==> May(cands, true, c) {
      if c in list[endIdx..] {
        var i :| endIdx <= i < |list| && list[i] == c;
        assert May(cands, true, c);
      }
      if May(cands, true, c) {
        var d :| IsTop(cands, d) && d.Priority() > 0 && c.Priority() < d.Priority();
        assert list[0] in cands;
        var i :| 0 <= i < |list| && list[i] == c;
        assert list[endIdx..][i - endIdx] == c;
      }
    }
  }
}
