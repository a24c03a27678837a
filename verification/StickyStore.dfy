/** The sticky-session store in memory mode: lazily and periodically purged, yet exact. */
module StickyStore {
  import opened Wrappers
  import opened Int64
  import opened Text
  import opened StickyKeys

  datatype Entry = Entry(channelId: int, expiresAt: int)

  /** What has ever been done to a binding. */
  datatype Event = Bind(binding: Binding, entry: Entry) | Unbind(binding: Binding)

  // ----- the reference: every event is kept for ever -----

  /** The entry last bound and not unbound since. */
  ghost function Latest(history: seq<Event>, b: Binding): Option<Entry>
  {
    if history == [] then None
    else
      var e := history[|history|-1];
      if e.binding != b then Latest(history[..|history|-1], b)
      else if e.Bind? then Some(e.entry) else None
  }

  lemma LatestAfter(history: seq<Event>, e: Event, b: Binding)
    ensures Latest(history + [e], b) ==
              if e.binding != b then Latest(history, b) else if e.Bind? then Some(e.entry) else None
  {
    assert (history + [e])[..|history|] == history;
  }

  /** An entry still answers at the very instant it expires. */
  ghost function Answer(history: seq<Event>, b: Binding, now: int): Option<int>
  {
    var entry := Latest(history, b);
    if entry.Some? && now <= entry.value.expiresAt then Some(entry.value.channelId) else None
  }

  /** The event that binds b to the channel, with nothing done to b since. */
  ghost predicate BoundAt(history: seq<Event>, i: nat, b: Binding, channelId: int, now: int)
  {
    && i < |history|
    && (exists expiresAt :: now <= expiresAt && history[i] == Bind(b, Entry(channelId, expiresAt)))
    && forall j :: i < j < |history| ==> history[j].binding != b
  }

  /** A lookup answers a channel exactly when the last thing done to the binding was to bind it there, not too long
      ago. */
  lemma {:induction false} AnswerIff(history: seq<Event>, b: Binding, channelId: int, now: int)
    ensures Answer(history, b, now) == Some(channelId) <==> exists i: nat :: BoundAt(history, i, b, channelId, now)
  {
    if history != [] {
      var last := |history| - 1;
      var before, e := history[..last], history[last];
      AnswerIff(before, b, channelId, now);
      if e.binding == b {
        assert BoundAt(history, last, b, channelId, now) <==> Answer(history, b, now) == Some(channelId);
        assert forall i: nat :: BoundAt(history, i, b, channelId, now) ==> i == last;
      } else {
        forall i: nat ensures BoundAt(history, i, b, channelId, now) <==> BoundAt(before, i, b, channelId, now) {
        }
      }
    }
  }

  // ----- a store that may have forgotten what has expired -----

  type Keying<Key> = Binding -> Key

  ghost predicate Injective<Key>(keyOf: Keying<Key>)
  {
    forall b, b' :: keyOf(b) == keyOf(b') ==> b == b'
  }

  /** The entry of the store is the latest of its binding. */
  ghost predicate Backed<Key>(history: seq<Event>, keyOf: Keying<Key>, key: Key, entry: Entry, b: Binding)
  {
    keyOf(b) == key && Latest(history, b) == Some(entry)
  }

  /** Every entry is the latest of its binding, and only expired ones are missing. */
  ghost predicate Agrees<Key>(memory: map<Key, Entry>, history: seq<Event>, keyOf: Keying<Key>, clock: int)
  {
    && (forall key :: key in memory ==> exists b :: Backed(history, keyOf, key, memory[key], b))
    && (forall b :: Answer(history, b, clock).Some? ==> keyOf(b) in memory)
  }

  lemma BackedByOne<Key>(memory: map<Key, Entry>, history: seq<Event>, keyOf: Keying<Key>, clock: int, b: Binding)
    requires Injective(keyOf) && Agrees(memory, history, keyOf, clock) && keyOf(b) in memory
    ensures Latest(history, b) == Some(memory[keyOf(b)])
  {
    var b' :| Backed(history, keyOf, keyOf(b), memory[keyOf(b)], b');
  }

  /** Looking up what is stored gives the reference's answer. */
  lemma LookupAgrees<Key>(memory: map<Key, Entry>, history: seq<Event>, keyOf: Keying<Key>, clock: int, b: Binding,
                          now: int)
    requires Injective(keyOf) && Agrees(memory, history, keyOf, clock) && clock <= now
    ensures Answer(history, b, now) ==
              if keyOf(b) in memory && now <= memory[keyOf(b)].expiresAt then Some(memory[keyOf(b)].channelId) else None
  {
    if keyOf(b) in memory {
      BackedByOne(memory, history, keyOf, clock, b);
    } else {
      assert Answer(history, b, clock).None?;
    }
  }

  lemma BackedAfter<Key>(history: seq<Event>, e: Event, keyOf: Keying<Key>, key: Key, entry: Entry, b: Binding)
    requires Backed(history, keyOf, key, entry, b) && e.binding != b
    ensures Backed(history + [e], keyOf, key, entry, b)
  {
    LatestAfter(history, e, b);
  }

  lemma BindAgrees<Key>(memory: map<Key, Entry>, history: seq<Event>, keyOf: Keying<Key>, clock: int, b: Binding,
                        entry: Entry, now: int)
    requires Injective(keyOf) && Agrees(memory, history, keyOf, clock) && clock <= now
    ensures Agrees(memory[keyOf(b) := entry], history + [Bind(b, entry)], keyOf, now)
  {
    var after, e := memory[keyOf(b) := entry], Bind(b, entry);
    forall key | key in after ensures exists b' :: Backed(history + [e], keyOf, key, after[key], b') {
      if key == keyOf(b) {
        LatestAfter(history, e, b);
        assert Backed(history + [e], keyOf, key, after[key], b);
      } else {
        var b' :| Backed(history, keyOf, key, memory[key], b');
        BackedAfter(history, e, keyOf, key, memory[key], b');
      }
    }
    forall b' | Answer(history + [e], b', now).Some? ensures keyOf(b') in after {
      LatestAfter(history, e, b');
      assert b' != b ==> Answer(history, b', clock).Some?;
    }
  }

  lemma UnbindAgrees<Key>(memory: map<Key, Entry>, history: seq<Event>, keyOf: Keying<Key>, clock: int, b: Binding,
                          now: int)
    requires Injective(keyOf) && Agrees(memory, history, keyOf, clock) && clock <= now
    ensures Agrees(memory - {keyOf(b)}, history + [Unbind(b)], keyOf, now)
  {
    var after, e := memory - {keyOf(b)}, Unbind(b);
    forall key | key in after ensures exists b' :: Backed(history + [e], keyOf, key, after[key], b') {
      var b' :| Backed(history, keyOf, key, memory[key], b');
      BackedAfter(history, e, keyOf, key, memory[key], b');
      assert after[key] == memory[key];
    }
    forall b' | Answer(history + [e], b', now).Some? ensures keyOf(b') in after {
      LatestAfter(history, e, b');
      assert Answer(history, b', clock).Some?;
    }
  }

  /** Entries that have expired may be dropped, whichever and whenever. */
  ghost predicate DropsExpired<Key>(memory: map<Key, Entry>, after: map<Key, Entry>, now: int)
  {
    && (forall key :: key in after ==> key in memory && after[key] == memory[key])
    && (forall key :: key in memory && key !in after ==> now > memory[key].expiresAt)
  }

  lemma DroppingAgrees<Key>(memory: map<Key, Entry>, after: map<Key, Entry>, history: seq<Event>, keyOf: Keying<Key>,
                            clock: int, now: int)
    requires Injective(keyOf) && Agrees(memory, history, keyOf, clock) && clock <= now
               && DropsExpired(memory, after, now)
    ensures Agrees(after, history, keyOf, now)
  {
    forall key | key in after ensures exists b :: Backed(history, keyOf, key, after[key], b) {
      var b :| Backed(history, keyOf, key, memory[key], b);
    }
    forall b | Answer(history, b, now).Some? ensures keyOf(b) in after {
      assert Answer(history, b, clock).Some?;
      BackedByOne(memory, history, keyOf, clock, b);
    }
  }

  lemma StorageKeysInjective()
    ensures Injective(StorageKey)
  {
    forall b, b' | StorageKey(b) == StorageKey(b') ensures b == b' {
      StorageKeyInjective(b, b');
    }
  }

  // ----- the store -----

  const SECOND := 1_000_000_000

  /** Half an hour unless configured otherwise; a duration is a 64-bit number of nanoseconds. */
  function TimeToLive(timeoutSeconds: int): int
  {
    Wrap64(EffectiveTimeout(timeoutSeconds) * SECOND)
  }

  function EffectiveTimeout(timeoutSeconds: int): (seconds: int)
    ensures seconds > 0
  {
    if timeoutSeconds <= 0 then 30 * 60 else timeoutSeconds
  }

  /** Entries live half an hour by default, and as long as configured if and only if that many nanoseconds fit a
      duration. */
  lemma LivesAsConfiguredIff(timeoutSeconds: int)
    ensures timeoutSeconds <= 0 ==> TimeToLive(timeoutSeconds) == 1_800 * 1_000_000_000
    ensures timeoutSeconds > 0 ==>
              (TimeToLive(timeoutSeconds) == timeoutSeconds * 1_000_000_000 <==> timeoutSeconds <= 9_223_372_036)
  {
  }

  /** One second more and every entry is expired when it is stored. */
  lemma LongestTimeoutExpiresAtOnce()
    ensures TimeToLive(9_223_372_037) < 0
  {
  }

  class StickySessions {
    var memory: map<string, Entry>
    const ttl: int
    ghost var history: seq<Event>
    ghost var clock: int

    ghost predicate Valid()
      reads this
    {
      Agrees(memory, history, StorageKey, clock)
    }

    constructor (timeoutSeconds: int, ghost start: int)
      ensures Valid() && history == [] && clock == start && ttl == TimeToLive(timeoutSeconds)
    {
      memory, ttl := map[], TimeToLive(timeoutSeconds);
      history, clock := [], start;
    }

    method Store(b: Binding, channelId: int, now: int)
      requires Valid() && clock <= now
      modifies this
      ensures Valid() && clock == now && history == old(history) + [Bind(b, Entry(channelId, now + ttl))]
    {
      var entry := Entry(channelId, now + ttl);
      StorageKeysInjective();
      BindAgrees(memory, history, StorageKey, clock, b, entry, now);
      memory := memory[StorageKey(b) := entry];
      history, clock := history + [Bind(b, entry)], now;
    }

    /** Drops the entry it finds expired; the answer is the reference's. */
    method Load(b: Binding, now: int) returns (channelId: Option<int>)
      requires Valid() && clock <= now
      modifies this
      ensures Valid() && clock == now && history == old(history)
      ensures channelId == Answer(history, b, now)
    {
      StorageKeysInjective();
      LookupAgrees(memory, history, StorageKey, clock, b, now);
      var key := StorageKey(b);
      ghost var before := memory;
      if key !in memory {
        channelId := None;
      } else if now > memory[key].expiresAt {
        memory := memory - {key};
        channelId := None;
      } else {
        channelId := Some(memory[key].channelId);
      }
      DroppingAgrees(before, memory, history, StorageKey, clock, now);
      clock := now;
    }

    method SetStickySessionChannel(userId: int, model: string, channelId: int, now: int) returns (ok: bool)
      requires Valid() && clock <= now
      modifies this
      ensures Valid() && clock <= now
      ensures ok <==> userId > 0 && channelId > 0 && TrimSpace(model) != ""
      ensures history == if ok then
                   old(history) + [Bind(Sticky(userId, NormalizedModelKey(model)), Entry(channelId, now + ttl))]
                         else old(history)
    {
      if userId <= 0 || channelId <= 0 || TrimSpace(model) == "" {
        return false;
      }
      Store(Sticky(userId, NormalizedModelKey(model)), channelId, now);
      return true;
    }

    method GetStickySessionChannel(userId: int, model: string, now: int) returns (channelId: Option<int>)
      requires Valid() && clock <= now
      modifies this
      ensures Valid() && clock <= now && history == old(history)
      ensures channelId == if userId > 0 && TrimSpace(model) != ""
                           then Answer(history, Sticky(userId, NormalizedModelKey(model)), now)
                           else None
    {
      if userId <= 0 || TrimSpace(model) == "" {
        return None;
      }
      channelId := Load(Sticky(userId, NormalizedModelKey(model)), now);
    }

    method DeleteStickySessionChannel(userId: int, model: string, now: int)
      requires Valid() && clock <= now
      modifies this
      ensures Valid() && clock <= now
      ensures history == if userId > 0 && TrimSpace(model) != ""
                         then old(history) + [Unbind(Sticky(userId, NormalizedModelKey(model)))]
                         else old(history)
    {
      if userId <= 0 || TrimSpace(model) == "" {
        return;
      }
      var b := Sticky(userId, NormalizedModelKey(model));
      StorageKeysInjective();
      UnbindAgrees(memory, history, StorageKey, clock, b, now);
      memory := memory - {StorageKey(b)};
      history, clock := history + [Unbind(b)], now;
    }

    method SetResponseBoundChannel(userId: int, responseId: string, channelId: int, now: int) returns (ok: bool)
      requires Valid() && clock <= now
      modifies this
      ensures Valid() && clock <= now
      ensures ok <==> userId > 0 && channelId > 0 && TrimSpace(responseId) != ""
      ensures history == if ok then
                   old(history) + [Bind(Response(userId, TrimSpace(responseId)), Entry(channelId, now + ttl))]
                         else old(history)
    {
      if userId <= 0 || channelId <= 0 || TrimSpace(responseId) == "" {
        return false;
      }
      Store(Response(userId, TrimSpace(responseId)), channelId, now);
      return true;
    }

    method GetResponseBoundChannel(userId: int, responseId: string, now: int) returns (channelId: Option<int>)
      requires Valid() && clock <= now
      modifies this
      ensures Valid() && clock <= now && history == old(history)
      ensures channelId == if userId > 0 && TrimSpace(responseId) != ""
                           then Answer(history, Response(userId, TrimSpace(responseId)), now)
                           else None
    {
      if userId <= 0 || TrimSpace(responseId) == "" {
        return None;
      }
      channelId := Load(Response(userId, TrimSpace(responseId)), now);
    }

    /** Only the channel of a recorded function call is kept in memory. */
    method RecordFunctionContext(userId: int, model: string, channelId: int, previousResponseId: string, toolCount: int,
                                 now: int)
      requires Valid() && clock <= now
      modifies this
      ensures Valid() && clock <= now
      ensures var recorded := userId > 0 && channelId > 0 && TrimSpace(model) != ""
                              && (toolCount > 0 || TrimSpace(previousResponseId) != "");
              history == if recorded then
                   old(history) + [Bind(Context(userId, NormalizedModelKey(model)), Entry(channelId, now + ttl))]
                         else old(history)
    {
      if userId <= 0 || channelId <= 0 || TrimSpace(model) == "" {
        return;
      }
      if toolCount <= 0 && TrimSpace(previousResponseId) == "" {
        return;
      }
      Store(Context(userId, NormalizedModelKey(model)), channelId, now);
    }

    /** One round of the background cleanup. No later answer depends on what it removes. */
    method Cleanup(now: int)
      requires Valid() && clock <= now
      modifies this
      ensures Valid() && clock == now && history == old(history)
      ensures memory == Unexpired(old(memory), now)
      ensures forall key :: key in memory <==> key in old(memory) && now <= old(memory)[key].expiresAt
    {
      ghost var before := memory;
      DeleteExpired(now);
      StorageKeysInjective();
      DroppingAgrees(before, memory, history, StorageKey, clock, now);
      clock := now;
    }

    method DeleteExpired(now: int)
      modifies `memory
      ensures memory == Unexpired(old(memory), now)
    {
      ghost var before := memory;
      var keys := memory.Keys;
      while keys != {}
        invariant keys <= memory.Keys <= before.Keys
        invariant forall key :: key in before ==> (key in memory <==> key in keys || now <= before[key].expiresAt)
        invariant forall key :: key in memory ==> memory[key] == before[key]
        decreases |keys|
      {
        var key :| key in keys;
        if now > memory[key].expiresAt {
          memory := memory - {key};
        }
        keys := keys - {key};
      }
    }
  }

  function Unexpired<Key>(memory: map<Key, Entry>, now: int): map<Key, Entry>
  {
    map key | key in memory && now <= memory[key].expiresAt :: memory[key]
  }
}
