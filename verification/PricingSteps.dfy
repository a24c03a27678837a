/** A channel's pricing columns as the start-up migration rewrites them, step by step. */
module PricingSteps {
  import opened Wrappers
  import opened Text
  import opened Pricing
  import opened PricingMigration

  // ----- storing configurations -----

  /** The names not left are accepted and cleaned. */
  ghost predicate CleanedUpTo(configs: map<string, Config>, left: set<string>, cleaned: map<string, Config>)
  {
    && (forall name :: name in configs && name !in left ==> NameCleaned(configs, name, cleaned))
    && (forall t :: t in cleaned ==> exists name :: CleanedFrom(configs, name, t, cleaned[t]))
  }

  ghost predicate NameCleaned(configs: map<string, Config>, name: string, cleaned: map<string, Config>)
    requires name in configs
  {
    TrimSpace(name) != "" && ConfigAccepted(configs[name]) && TrimSpace(name) in cleaned
  }

  lemma CleanedOneMore(configs: map<string, Config>, left: set<string>, cleaned: map<string, Config>, name: string,
                       c: Config)
    requires CleanedUpTo(configs, left, cleaned) && name in configs && name in left
    requires TrimSpace(name) != "" && ConfigAccepted(configs[name]) && ConfigNormalized(configs[name], c)
    ensures CleanedUpTo(configs, left - {name}, cleaned[TrimSpace(name) := c])
  {
    var after := cleaned[TrimSpace(name) := c];
    forall t | t in after ensures exists other :: CleanedFrom(configs, other, t, after[t]) {
      if t == TrimSpace(name) {
        assert CleanedFrom(configs, name, t, after[t]);
      } else {
        var other :| CleanedFrom(configs, other, t, cleaned[t]);
        assert CleanedFrom(configs, other, t, after[t]);
      }
    }
  }

  lemma AllCleaned(configs: map<string, Config>, cleaned: map<string, Config>)
    requires CleanedUpTo(configs, {}, cleaned)
    ensures NamesAccepted(configs) && Cleaned(configs, cleaned)
  {
  }

  // ----- converting the old format -----

  ghost predicate ConvertedUpTo(records: map<string, Record>, ratios: map<string, real>, completions: map<string, real>,
                                done: set<string>, r: map<string, Config>)
  {
    && r.Keys == done
    && (forall name :: name in r ==> CarriedOver(records, ratios, completions, name, r[name]))
    && (forall name :: name in done ==> NameConverts(records, ratios, completions, name))
  }

  /** Nothing about this name stops the conversion. */
  predicate NameConverts(records: map<string, Record>, ratios: map<string, real>, completions: map<string, real>,
                         name: string)
  {
    && (name in records && records[name].config.image.Some? ==> ImageAccepted(records[name].config.image.value))
    && RatioOf(ratios, name) >= 0.0 && RatioOf(completions, name) >= 0.0
  }

  lemma AllConvert(records: map<string, Record>, ratios: map<string, real>, completions: map<string, real>)
    requires OldRecordsOk(records)
    ensures (forall name :: name in NonEmpty(records.Keys + ratios.Keys + completions.Keys) ==>
              NameConverts(records, ratios, completions, name))
            <==> OldImagesAccepted(records) && NoNegative(ratios) && NoNegative(completions)
  {
    var names := NonEmpty(records.Keys + ratios.Keys + completions.Keys);
    if forall name :: name in names ==> NameConverts(records, ratios, completions, name) {
      forall name | name in records && records[name].config.image.Some?
        ensures ImageAccepted(records[name].config.image.value)
      {
        assert name in names;
      }
      forall name | name in ratios && name != "" ensures ratios[name] >= 0.0 {
        assert name in names;
      }
      forall name | name in completions && name != "" ensures completions[name] >= 0.0 {
        assert name in names;
      }
    }
  }

  method ConvertImage(records: map<string, Record>, name: string) returns (r: Result<Option<Image>>)
    ensures r.Err? <==> name in records && records[name].config.image.Some?
                        && !ImageAccepted(records[name].config.image.value)
    ensures r.Ok? ==>
              if name in records && records[name].config.image.Some? then
                r.value.Some? && ImageNormalized(records[name].config.image.value, r.value.value)
              else if name in records && records[name].imagePriceUsd > 0.0 then
                r.value == Some(NO_IMAGE.(pricePerImageUsd := records[name].imagePriceUsd))
              else r.value.None?
  {
    if name !in records {
      return Ok(None);
    }
    if records[name].config.image.Some? {
      var normalized := NormalizeImagePricingLocal(records[name].config.image.value);
      return if normalized.Ok? then Ok(Some(normalized.value)) else Err;
    }
    if records[name].imagePriceUsd > 0.0 {
      return Ok(Some(NO_IMAGE.(pricePerImageUsd := records[name].imagePriceUsd)));
    }
    return Ok(None);
  }

  method ConvertRecord(records: map<string, Record>, ratios: map<string, real>, completions: map<string, real>,
                       name: string)
      returns (r: Result<Config>)
    ensures r.Err? <==> !NameConverts(records, ratios, completions, name)
    ensures r.Ok? ==> CarriedOver(records, ratios, completions, name, r.value)
  {
    var image := ConvertImage(records, name);
    if image.Err? {
      return Err;
    }
    var config := NO_CONFIG.(maxTokens := if name in records then records[name].config.maxTokens else 0,
                             image := image.value);
    if name in ratios {
      if ratios[name] < 0.0 {
        return Err;
      }
      if ratios[name] > 0.0 {
        config := config.(ratio := ratios[name]);
      }
    }
    if name in completions {
      if completions[name] < 0.0 {
        return Err;
      }
      if completions[name] > 0.0 {
        config := config.(completionRatio := completions[name]);
      }
    }
    return Ok(config);
  }

  lemma ConvertedOneMore(records: map<string, Record>, ratios: map<string, real>, completions: map<string, real>,
                         all: set<string>, left: set<string>, r: map<string, Config>, name: string, c: Config)
    requires ConvertedUpTo(records, ratios, completions, all - left, r) && name in left && left <= all
    requires NameConverts(records, ratios, completions, name) && CarriedOver(records, ratios, completions, name, c)
    ensures ConvertedUpTo(records, ratios, completions, all - (left - {name}), r[name := c])
  {
    assert all - (left - {name}) == (all - left) + {name};
  }

  method ConvertRecords(records: map<string, Record>, ratios: map<string, real>, completions: map<string, real>)
      returns (r: Result<map<string, Config>>)
    requires OldRecordsOk(records)
    ensures r.Err? <==> !(OldImagesAccepted(records) && NoNegative(ratios) && NoNegative(completions))
    ensures r.Ok? ==> Converted(records, ratios, completions, r.value)
  {
    AllConvert(records, ratios, completions);
    var allModelNames := NonEmpty(records.Keys + ratios.Keys + completions.Keys);
    var names := allModelNames;
    var migrated: map<string, Config> := map[];
    while names != {}
      invariant names <= allModelNames && ConvertedUpTo(records, ratios, completions, allModelNames - names, migrated)
      decreases |names|
    {
      var name :| name in names;
      var config := ConvertRecord(records, ratios, completions, name);
      if config.Err? {
        assert name in allModelNames;
        return Err;
      }
      ConvertedOneMore(records, ratios, completions, allModelNames, names, migrated, name, config.value);
      migrated := migrated[name := config.value];
      names := names - {name};
    }
    AllConverted(records, ratios, completions, migrated);
    return Ok(migrated);
  }

  lemma AllConverted(records: map<string, Record>, ratios: map<string, real>, completions: map<string, real>,
                     r: map<string, Config>)
    requires ConvertedUpTo(records, ratios, completions,
                           NonEmpty(records.Keys + ratios.Keys + completions.Keys) - {}, r)
    ensures Converted(records, ratios, completions, r)
    ensures forall name :: name in NonEmpty(records.Keys + ratios.Keys + completions.Keys) ==>
              NameConverts(records, ratios, completions, name)
  {
    var names := NonEmpty(records.Keys + ratios.Keys + completions.Keys);
    assert names - {} == names;
  }

  // ----- merging the historical ratios -----

  method MergeRecord(existing: map<string, Config>, ratios: map<string, real>, completions: map<string, real>,
                     name: string)
      returns (config: Config)
    ensures config == Merge(existing, ratios, completions, name)
  {
    config := if name in existing then existing[name] else NO_CONFIG;
    if name in ratios && ratios[name] >= 0.0 {
      config := config.(ratio := ratios[name]);
    }
    if name in completions && completions[name] >= 0.0 {
      config := config.(completionRatio := completions[name]);
    }
  }

  /** The candidates not left are merged. */
  ghost predicate MergedUpTo(all: map<string, Config>, left: set<string>, merged: map<string, Config>)
  {
    merged == all - left
  }

  lemma MergedOneMore(existing: map<string, Config>, ratios: map<string, real>, completions: map<string, real>,
                      left: set<string>, merged: map<string, Config>, name: string)
    requires MergedUpTo(Merged(existing, ratios, completions), left, merged)
    requires name in left && left <= Candidates(existing, ratios, completions)
    ensures var c := Merge(existing, ratios, completions, name);
            MergedUpTo(Merged(existing, ratios, completions), left - {name},
                       if WorthKeeping(c) then merged[name := c] else merged)
  {
    var all, c := Merged(existing, ratios, completions), Merge(existing, ratios, completions, name);
    OneMore(all, left, merged, name, WorthKeeping(c), c);
  }

  lemma OneMore<T>(all: map<string, T>, left: set<string>, merged: map<string, T>, name: string, kept: bool, c: T)
    requires merged == all - left && name in left
    requires (name in all <==> kept) && (kept ==> all[name] == c)
    ensures (if kept then merged[name := c] else merged) == all - (left - {name})
  {
  }

  lemma MergeBounds(existing: map<string, Config>, ratios: map<string, real>, completions: map<string, real>)
    ensures MergedUpTo(Merged(existing, ratios, completions), Candidates(existing, ratios, completions), map[])
    ensures forall merged :: MergedUpTo(Merged(existing, ratios, completions), {}, merged) ==>
              merged == Merged(existing, ratios, completions)
  {
    assert Merged(existing, ratios, completions) - {} == Merged(existing, ratios, completions);
  }

  method MergeRatios(existing: map<string, Config>, ratios: map<string, real>, completions: map<string, real>)
      returns (merged: map<string, Config>)
    ensures merged == Merged(existing, ratios, completions)
    ensures forall name :: name in merged ==>
              var c, was := merged[name], if name in existing then existing[name] else NO_CONFIG;
              && c.ratio == (if name in ratios && ratios[name] >= 0.0 then ratios[name] else was.ratio)
              && c.completionRatio
                 == (if name in completions && completions[name] >= 0.0 then completions[name] else was.completionRatio)
              && c.maxTokens == was.maxTokens && (c.ratio != 0.0 || c.completionRatio != 0.0 || c.maxTokens != 0)
  {
    var names := Candidates(existing, ratios, completions);
    merged := map[];
    MergeBounds(existing, ratios, completions);
    while names != {}
      invariant names <= Candidates(existing, ratios, completions)
      invariant MergedUpTo(Merged(existing, ratios, completions), names, merged)
      decreases |names|
    {
      var name :| name in names;
      var config := MergeRecord(existing, ratios, completions, name);
      MergedOneMore(existing, ratios, completions, names, merged, name);
      if config.ratio != 0.0 || config.completionRatio != 0.0 || config.maxTokens != 0 {
        merged := merged[name := config];
      }
      names := names - {name};
    }
  }

  // ----- a channel -----

  lemma FormatFails(x: Columns)
    requires FormatTo(x, Err)
    ensures MigratesTo(x, x.stored)
  {
    assert FinishesAs(x, Err, x.stored);
  }

  lemma MergeFails(x: Columns, y: Stored)
    requires FormatTo(x, Ok(y)) && HistoricalTo(x.(stored := y), Err)
    ensures MigratesTo(x, x.stored)
  {
    assert SavedAs(x.stored, Err, x.stored);
    assert FinishesAs(x, Ok(y), x.stored);
  }

  lemma MergeIsSaved(x: Columns, y: Stored, merged: Stored)
    requires FormatTo(x, Ok(y)) && HistoricalTo(x.(stored := y), Ok(merged))
    ensures MigratesTo(x, if ConfigsOk(Configs(merged)) then merged else x.stored)
  {
    var z := if ConfigsOk(Configs(merged)) then merged else x.stored;
    assert SavedAs(x.stored, Ok(merged), z);
    assert FinishesAs(x, Ok(y), z);
  }

  /** A channel as the migration holds it: `modelConfigs` in memory, `saved` in the database. */
  class Channel {
    var modelConfigs: Stored
    var saved: Stored
    const modelRatio: Ratios
    const completionRatio: Ratios

    constructor (columns: Columns)
      ensures Columns() == columns && saved == columns.stored
    {
      modelConfigs, saved := columns.stored, columns.stored;
      modelRatio, completionRatio := columns.modelRatio, columns.completionRatio;
    }

    function Columns(): Columns
      reads this
    {
      PricingMigration.Columns(modelConfigs, modelRatio, completionRatio)
    }

    /** Success leaves an outcome in memory, an error leaves what was there. */
    method SetModelPriceConfigs(configs: map<string, Config>) returns (ok: bool)
      modifies this`modelConfigs
      ensures SetTo(configs, if ok then Ok(modelConfigs) else Err)
      ensures !ok ==> modelConfigs == old(modelConfigs)
    {
      if configs == map[] {
        modelConfigs := Nothing;
        return true;
      }
      var cleaned: map<string, Config> := map[];
      var names := configs.Keys;
      while names != {}
        invariant names <= configs.Keys && CleanedUpTo(configs, names, cleaned) && modelConfigs == old(modelConfigs)
        decreases |names|
      {
        var rawName :| rawName in names;
        var trimmedName := TrimSpace(rawName);
        if trimmedName == "" {
          return false;
        }
        var normalized := NormalizeModelConfigLocal(configs[rawName]);
        if normalized.Err? {
          return false;
        }
        CleanedOneMore(configs, names, cleaned, rawName, normalized.value);
        cleaned := cleaned[trimmedName := normalized.value];
        names := names - {rawName};
      }
      AllCleaned(configs, cleaned);
      assert StoredAs(configs, if ConfigsOk(cleaned) then Ok(Marshal(cleaned)) else Err);
      if !ConfigsOk(cleaned) {
        return false;
      }
      modelConfigs := Marshal(cleaned);
      return true;
    }

    method MigrateModelConfigsToModelPrice() returns (ok: bool)
      modifies this`modelConfigs
      ensures FormatTo(old(Columns()), if ok then Ok(modelConfigs) else Err)
      ensures !ok ==> modelConfigs == old(modelConfigs)
    {
      if modelConfigs == Nothing {
        return true;
      }
      if !modelConfigs.Object? {
        return false;
      }
      if modelConfigs.newDecodes {
        var configs := Configs(modelConfigs);
        if !ConfigsOk(configs) {
          return false;
        }
        if exists name :: name in configs && configs[name].HasPricing() {
          return true;
        }
      }
      if !modelConfigs.oldDecodes || !OldRecordsOk(modelConfigs.records) {
        return false;
      }
      var migrated := ConvertRecords(modelConfigs.records, IfClean(modelRatio), IfClean(completionRatio));
      if migrated.Err? {
        return false;
      }
      assert ConvertsTo(modelConfigs.records, IfClean(modelRatio), IfClean(completionRatio),
                        if ConfigsOk(migrated.value) then Ok(Marshal(migrated.value)) else Err);
      if !ConfigsOk(migrated.value) {
        return false;
      }
      modelConfigs := Marshal(migrated.value);
      return true;
    }

    method MigrateHistoricalPricingToModelConfigs() returns (ok: bool)
      modifies this`modelConfigs
      ensures HistoricalTo(old(Columns()), if ok then Ok(modelConfigs) else Err)
      ensures !ok ==> modelConfigs == old(modelConfigs)
    {
      var ratios, completions := Filled(modelRatio), Filled(completionRatio);
      if ratios == map[] && completions == map[] {
        return true;
      }
      var existing := Configs(modelConfigs);
      if exists name :: name in existing && existing[name].HasPricing() {
        return true;
      }
      var merged := MergeRatios(existing, ratios, completions);
      if merged == map[] {
        return true;
      }
      ok := SetModelPriceConfigs(merged);
    }

    /** Both steps, in memory. */
    method MigrateInMemory() returns (ok: bool, updated: bool)
      modifies this`modelConfigs
      ensures MigratesTo(old(Columns()),
                         if ok && ConfigsOk(Configs(modelConfigs)) then modelConfigs else old(modelConfigs))
      ensures ok && !updated ==> old(modelConfigs) == modelConfigs == Nothing
    {
      ghost var columns := Columns();
      updated := false;
      if modelConfigs != Nothing {
        var formatted := MigrateModelConfigsToModelPrice();
        if !formatted {
          FormatFails(columns);
          return false, updated;
        }
        updated := true;
      }
      ghost var y := modelConfigs;
      ok := MigrateHistoricalPricingToModelConfigs();
      if !ok {
        MergeFails(columns, y);
        return;
      }
      MergeIsSaved(columns, y, modelConfigs);
      if modelConfigs != Nothing {
        updated := true;
      }
    }

    /** One channel of the start-up migration. The first save may succeed; if not, the value may be too long for a
        MySQL column, the column may be widened and the second save may succeed. */
    method Migrate(saves: bool, tooLong: bool, widens: bool, savesAgain: bool)
      requires saved == modelConfigs
      modifies this
      ensures if saves || (tooLong && widens && savesAgain) then MigratesTo(old(Columns()), saved)
              else saved == old(saved)
    {
      var original := modelConfigs;
      var ok, updated := MigrateInMemory();
      if ok && updated {
        if !ConfigsOk(Configs(modelConfigs)) {
          modelConfigs := original;
        } else if saves {
          saved := modelConfigs;
        } else if tooLong && widens && savesAgain {
          saved := modelConfigs;
        }
      }
    }
  }
}
