/** Channels and their ability rows, as the database holds them. */
module Channels {
  import opened Wrappers
  import opened Text

  const STATUS_ENABLED := 1

  datatype Channel = Channel(
    id: int,
    status: int,
    groups: string,            // comma-separated
    models: string,            // comma-separated
    priority: Option<int>,
    rateLimit: Option<int>,
    kind: int,
    supportedEndpoints: seq<string>,
    maxTokens: map<string, int>,       // the models with a price config, and their MaxTokens
    modelMapping: map<string, string>)
  {
    function Priority(): int
    {
      if priority.None? then 0 else priority.value
    }

    function Groups(): (parts: seq<string>)
      ensures parts != []
    {
      Split(groups, ',')
    }

    function Models(): (parts: seq<string>)
      ensures parts != []
    {
      Split(models, ',')
    }

    predicate Declares(grp: string, model: string)
    {
      grp in Groups() && model in Models()
    }

    function ModelConfig(model: string): Option<int>
    {
      if model in maxTokens then Some(maxTokens[model]) else None
    }
  }

  /** One row per (group, model, channel); the three together are the primary key. */
  datatype Ability = Ability(
    grp: string,
    model: string,
    channelId: int,
    enabled: bool,
    priority: Option<int>,
    suspendUntil: Option<int>)
  {
    predicate Is(g: string, m: string, id: int)
    {
      grp == g && model == m && channelId == id
    }

    predicate Usable(now: int)
    {
      enabled && (suspendUntil.None? || suspendUntil.value < now)
    }
  }

  /** The primary key of the ability table. */
  predicate UniqueRows(rows: seq<Ability>)
  {
    forall i, j :: 0 <= i < j < |rows| ==> !rows[j].Is(rows[i].grp, rows[i].model, rows[i].channelId)
  }

  ghost predicate UniqueIds(channels: seq<Channel>)
  {
    forall c, d :: c in channels && d in channels && c.id == d.id ==> c == d
  }

  /** The channel serves the model for the group at this time. */
  ghost predicate Serves(channels: seq<Channel>, rows: seq<Ability>, now: int, c: Channel, g: string, m: string)
  {
    && c in channels && c.status == STATUS_ENABLED && c.Declares(g, m)
    && exists a :: a in rows && a.Is(g, m, c.id) && a.Usable(now)
  }

  /** Every row agrees with its channel, as adding and updating abilities leaves them. */
  ghost predicate InSync(channels: seq<Channel>, rows: seq<Ability>)
  {
    && UniqueIds(channels)
    && forall a :: a in rows ==> exists c :: c in channels && Matches(a, c)
  }

  ghost predicate Matches(a: Ability, c: Channel)
  {
    && a.channelId == c.id && c.Declares(a.grp, a.model)
    && a.enabled == (c.status == STATUS_ENABLED)
    && a.priority == Some(c.Priority())
  }

  // ----- which models a channel supports -----

  function NonEmptyTrimmed(parts: seq<string>): seq<string>
  {
    if parts == [] then []
    else
      var p := TrimSpace(parts[0]);
      (if p != "" then [p] else []) + NonEmptyTrimmed(parts[1..])
  }

  function SupportedModelNames(c: Channel): seq<string>
  {
    if TrimSpace(c.models) == "" then [] else NonEmptyTrimmed(Split(TrimSpace(c.models), ','))
  }

  predicate ListsModel(names: seq<string>, model: string)
  {
    exists i :: 0 <= i < |names| && EqualFold(names[i], model)
  }

  predicate SupportsModel(c: Channel, modelName: string)
  {
    var name := TrimSpace(modelName);
    var supported := SupportedModelNames(c);
    || name == "" || supported == []
    || ListsModel(supported, name)
    || (name in c.modelMapping && TrimSpace(c.modelMapping[name]) != ""
        && ListsModel(supported, TrimSpace(c.modelMapping[name])))
  }

  lemma {:induction false} NonEmptyTrimmedIff(parts: seq<string>, name: string)
    ensures name in NonEmptyTrimmed(parts) <==> name != "" && exists part :: part in parts && TrimSpace(part) == name
  {
    if parts != [] {
      NonEmptyTrimmedIff(parts[1..], name);
      assert parts == [parts[0]] + parts[1..];
    }
  }

  /** One of the comma-separated names of the channel reads like this one. */
  ghost predicate NamesModel(c: Channel, name: string)
  {
    exists part :: part in Split(TrimSpace(c.models), ',') && TrimSpace(part) != "" && EqualFold(TrimSpace(part), name)
  }

  /** A channel supports a model exactly when the name is blank, or the channel names no model, or names this one or
      the one it maps it to. */
  lemma SupportsModelIff(c: Channel, modelName: string)
    ensures var name := TrimSpace(modelName);
            SupportsModel(c, modelName) <==>
              || name == ""
              || (forall part :: part in Split(TrimSpace(c.models), ',') ==> TrimSpace(part) == "")
              || NamesModel(c, name)
              || (name in c.modelMapping && TrimSpace(c.modelMapping[name]) != ""
                  && NamesModel(c, TrimSpace(c.modelMapping[name])))
  {
    var parts := Split(TrimSpace(c.models), ',');
    if forall part :: part in parts ==> TrimSpace(part) == "" {
      NoneNamed(c, parts);
    } else {
      var part :| part in parts && TrimSpace(part) != "";
      NonEmptyTrimmedIff(parts, TrimSpace(part));
      assert SupportedModelNames(c) != [];
    }
    forall name ensures ListsModel(SupportedModelNames(c), name) <==> NamesModel(c, name) {
      ListsModelIff(c, name);
    }
  }

  lemma NoneNamed(c: Channel, parts: seq<string>)
    requires parts == Split(TrimSpace(c.models), ',') && forall part :: part in parts ==> TrimSpace(part) == ""
    ensures SupportedModelNames(c) == []
  {
    var names := SupportedModelNames(c);
    if names != [] {
      NonEmptyTrimmedIff(parts, names[0]);
      assert false;
    }
  }

  lemma ListsModelIff(c: Channel, name: string)
    ensures ListsModel(SupportedModelNames(c), name) <==> NamesModel(c, name)
  {
    var names, parts := SupportedModelNames(c), Split(TrimSpace(c.models), ',');
    if part :| part in parts && TrimSpace(part) != "" && EqualFold(TrimSpace(part), name) {
      NonEmptyTrimmedIff(parts, TrimSpace(part));
      if TrimSpace(c.models) != "" {
        var i :| 0 <= i < |names| && names[i] == TrimSpace(part);
      }
    }
    if i :| 0 <= i < |names| && EqualFold(names[i], name) {
      NonEmptyTrimmedIff(parts, names[i]);
    }
  }
}
