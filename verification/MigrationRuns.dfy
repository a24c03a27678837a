/** Running the pricing migration a second time: when it changes nothing. */
module MigrationRuns {
  import opened Wrappers
  import opened Text
  import opened Pricing
  import opened PricingMigration

  // ----- storing what the historical step has merged -----

  /** A record with ratios put in is valid and already normalized. */
  lemma MergedIsFixed(c: map<string, Config>, ratios: map<string, real>, completions: map<string, real>, name: string,
                      r: Config)
    requires LimitsOnly(c) && name in Merged(c, ratios, completions)
    ensures var d := Merged(c, ratios, completions)[name];
            ConfigOk(d) && ConfigAccepted(d) && (ConfigNormalized(d, r) <==> r == d)
  {
    if name in c && c[name].image.Some? {
      var i := c[name].image.value;
      assert ImageNormalized(i, i) by {
        FixedIsNormalized(i);
      }
      if r.image.Some? && ImageNormalized(i, r.image.value) {
        FixedNormalizesToItself(i, r.image.value);
      }
    }
  }

  lemma FixedIsNormalized(i: Image)
    requires ImageFixed(i)
    ensures ImageNormalized(i, i)
  {
    forall q | q in i.qualitySizeMultipliers
      ensures TableOf(i.qualitySizeMultipliers, q, q, i.qualitySizeMultipliers[q])
    {
    }
  }

  predicate AnyBlank(configs: map<string, Config>)
  {
    exists name :: name in configs && TrimSpace(name) == ""
  }

  /** One record kept under each trimmed name. */
  ghost predicate Chosen(merged: map<string, Config>, cleaned: map<string, Config>)
  {
    && (forall name :: name in merged ==> TrimSpace(name) in cleaned)
    && (forall t :: t in cleaned ==> exists name :: ChosenFrom(merged, name, t, cleaned[t]))
  }

  ghost predicate ChosenFrom(merged: map<string, Config>, name: string, t: string, c: Config)
  {
    name in merged && TrimSpace(name) == t && merged[name] == c
  }

  lemma CleanedIsChosen(c: map<string, Config>, ratios: map<string, real>, completions: map<string, real>,
                        cleaned: map<string, Config>)
    requires LimitsOnly(c)
    ensures Cleaned(Merged(c, ratios, completions), cleaned) <==> Chosen(Merged(c, ratios, completions), cleaned)
  {
    forall name, t | t in cleaned
      ensures CleanedFrom(Merged(c, ratios, completions), name, t, cleaned[t]) <==>
                ChosenFrom(Merged(c, ratios, completions), name, t, cleaned[t])
    {
      FromAgree(c, ratios, completions, name, t, cleaned[t]);
    }
    SameSources(Merged(c, ratios, completions), cleaned);
  }

  lemma FromAgree(c: map<string, Config>, ratios: map<string, real>, completions: map<string, real>, name: string,
                  t: string, d: Config)
    requires LimitsOnly(c)
    ensures CleanedFrom(Merged(c, ratios, completions), name, t, d) <==>
              ChosenFrom(Merged(c, ratios, completions), name, t, d)
  {
    if name in Merged(c, ratios, completions) {
      MergedIsFixed(c, ratios, completions, name, d);
    }
  }

  lemma SameSources(m: map<string, Config>, cleaned: map<string, Config>)
    requires forall name, t :: t in cleaned ==>
               (CleanedFrom(m, name, t, cleaned[t]) <==> ChosenFrom(m, name, t, cleaned[t]))
    ensures Cleaned(m, cleaned) <==> Chosen(m, cleaned)
  {
  }

  lemma ChosenIsOk(c: map<string, Config>, ratios: map<string, real>, completions: map<string, real>,
                   cleaned: map<string, Config>)
    requires LimitsOnly(c) && Chosen(Merged(c, ratios, completions), cleaned)
    requires !AnyBlank(Merged(c, ratios, completions))
    ensures ConfigsOk(cleaned)
  {
    var m := Merged(c, ratios, completions);
    forall t | t in cleaned ensures t != "" && ConfigOk(cleaned[t]) {
      var name :| ChosenFrom(m, name, t, cleaned[t]);
      MergedIsFixed(c, ratios, completions, name, cleaned[t]);
    }
  }

  /** Storing merged limits fails exactly on a blank name, and otherwise keeps one record for each trimmed name. */
  lemma StoringMerged(c: map<string, Config>, ratios: map<string, real>, completions: map<string, real>,
                      r: Result<Stored>)
    requires LimitsOnly(c) && Merged(c, ratios, completions) != map[]
    ensures SetTo(Merged(c, ratios, completions), r) <==>
              if AnyBlank(Merged(c, ratios, completions)) then r.Err?
              else r.Ok? && IsChosen(Merged(c, ratios, completions), r.value)
  {
    var m := Merged(c, ratios, completions);
    forall name | name in m ensures ConfigAccepted(m[name]) {
      MergedIsFixed(c, ratios, completions, name, m[name]);
    }
    if !AnyBlank(m) {
      forall cleaned ensures Cleaned(m, cleaned) <==> Chosen(m, cleaned) && ConfigsOk(cleaned) {
        CleanedIff(c, ratios, completions, cleaned);
      }
    }
    StoringAccepted(m, r);
  }

  lemma CleanedIff(c: map<string, Config>, ratios: map<string, real>, completions: map<string, real>,
                   cleaned: map<string, Config>)
    requires LimitsOnly(c) && !AnyBlank(Merged(c, ratios, completions))
    ensures Cleaned(Merged(c, ratios, completions), cleaned)
            <==> Chosen(Merged(c, ratios, completions), cleaned) && ConfigsOk(cleaned)
  {
    CleanedIsChosen(c, ratios, completions, cleaned);
    if Chosen(Merged(c, ratios, completions), cleaned) {
      ChosenIsOk(c, ratios, completions, cleaned);
    }
  }

  lemma StoringAccepted(m: map<string, Config>, r: Result<Stored>)
    requires m != map[] && forall name :: name in m ==> ConfigAccepted(m[name])
    requires !AnyBlank(m) ==> forall cleaned :: Cleaned(m, cleaned) <==> Chosen(m, cleaned) && ConfigsOk(cleaned)
    ensures SetTo(m, r) <==> if AnyBlank(m) then r.Err? else r.Ok? && IsChosen(m, r.value)
  {
    if !AnyBlank(m) {
      assert NamesAccepted(m);
      StoredAsChosen(m, r);
    }
  }

  lemma StoredAsChosen(m: map<string, Config>, r: Result<Stored>)
    requires forall cleaned :: Cleaned(m, cleaned) <==> Chosen(m, cleaned) && ConfigsOk(cleaned)
    ensures StoredAs(m, r) <==> r.Ok? && IsChosen(m, r.value)
  {
  }

  ghost predicate IsChosen(merged: map<string, Config>, y: Stored)
  {
    exists cleaned :: Chosen(merged, cleaned) && ConfigsOk(cleaned) && y == Marshal(cleaned)
  }

  // ----- what the historical step merges -----

  predicate Charged(ratios: map<string, real>, completions: map<string, real>, name: string)
  {
    (Usable(ratios, name) && ratios[name] != 0.0) || (Usable(completions, name) && completions[name] != 0.0)
  }

  predicate Limited(c: map<string, Config>, name: string)
  {
    name in c && c[name].maxTokens != 0
  }

  /** A name is merged when it is limited or charged, and gets its prices from the ratio columns. */
  lemma MergedIff(c: map<string, Config>, ratios: map<string, real>, completions: map<string, real>, name: string)
    requires LimitsOnly(c) && name != ""
    ensures var m := Merged(c, ratios, completions);
            && (name in m <==> Limited(c, name) || Charged(ratios, completions, name))
            && (name in m ==> (m[name].HasPricing() <==> Charged(ratios, completions, name)))
            && (name in m && !Charged(ratios, completions, name) ==> name in c && m[name] == c[name])
  {
  }

  // ----- runs on mere limits -----

  /** The column holds mere limits, and where the format step sees ratios they are zero. */
  ghost predicate HoldsLimits(x: Columns, c: map<string, Config>)
  {
    x.stored == Marshal(c) && LimitsOnly(c) && (c == map[] || ZeroWhereClean(x))
  }

  predicate NamesTrimmed(c: map<string, Config>)
  {
    forall name :: name in c ==> TrimSpace(name) == name
  }

  /** The historical step finds nothing to merge, or merges the limits into themselves. */
  predicate Settled(c: map<string, Config>, ratios: map<string, real>, completions: map<string, real>)
  {
    || (ratios == map[] && completions == map[])
    || Merged(c, ratios, completions) == map[]
    || (Merged(c, ratios, completions) == c && NamesTrimmed(c))
  }

  lemma ChosenTrimmed(c: map<string, Config>, cleaned: map<string, Config>)
    requires NamesTrimmed(c) && Chosen(c, cleaned)
    ensures cleaned == c
  {
    forall t | t in cleaned ensures t in c && cleaned[t] == c[t] {
      var name :| ChosenFrom(c, name, t, cleaned[t]);
    }
    forall name | name in c ensures name in cleaned {
      assert TrimSpace(name) in cleaned;
    }
  }

  lemma SettledMerge(x: Columns, c: map<string, Config>, r: Result<Stored>)
    requires HoldsLimits(x, c) && Settled(c, Filled(x.modelRatio), Filled(x.completionRatio)) && HistoricalTo(x, r)
    ensures r == Ok(x.stored)
  {
    ConfigsOfMarshal(c);
    var ratios, completions := Filled(x.modelRatio), Filled(x.completionRatio);
    if !(ratios == map[] && completions == map[]) && Merged(c, ratios, completions) != map[] {
      StoringMerged(c, ratios, completions, r);
      if r.Ok? {
        var cleaned :| Chosen(c, cleaned) && ConfigsOk(cleaned) && r.value == Marshal(cleaned);
        ChosenTrimmed(c, cleaned);
      }
    }
  }

  /** A run leaves mere limits alone when they are settled, or when a ratio column names a model they lack. */
  lemma LimitsStay(x: Columns, c: map<string, Config>, w: Stored)
    requires HoldsLimits(x, c) && MigratesTo(x, w)
    requires Settled(c, Filled(x.modelRatio), Filled(x.completionRatio)) || (c != map[] && !(CleanNames(x) <= c.Keys))
    ensures w == x.stored
  {
    var formatted :| FormatTo(x, formatted) && FinishesAs(x, formatted, w);
    LimitsConvert(x, c, formatted);
    if formatted.Ok? {
      assert x.(stored := formatted.value) == x;
      var merged :| HistoricalTo(x, merged) && SavedAs(x.stored, merged, w);
      SettledMerge(x, c, merged);
    }
  }

  /** A run leaves priced records alone. */
  ghost predicate HoldsPrices(y: Stored)
  {
    y.Object? && y.newDecodes && ConfigsOk(Configs(y)) && AnyPricing(Configs(y))
  }

  lemma PricesStay(x: Columns, w: Stored)
    requires HoldsPrices(x.stored) && MigratesTo(x, w)
    ensures w == x.stored
  {
    var formatted :| FormatTo(x, formatted) && FinishesAs(x, formatted, w);
    assert x.(stored := formatted.value) == x;
  }

  // ----- what a first run leaves -----

  /** When only unpriced records are kept, they are the limits there were. */
  lemma ChosenLimits(c: map<string, Config>, ratios: map<string, real>, completions: map<string, real>,
                     cleaned: map<string, Config>)
    requires LimitsOnly(c) && Chosen(Merged(c, ratios, completions), cleaned)
    requires !AnyBlank(Merged(c, ratios, completions))
    requires !AnyPricing(cleaned)
    ensures LimitsOnly(cleaned) && NamesTrimmed(cleaned)
    ensures forall t :: t in cleaned ==> cleaned[t].maxTokens != 0
    ensures cleaned != map[] ==> c != map[]
  {
    var m := Merged(c, ratios, completions);
    forall t | t in cleaned
      ensures t != "" && LimitOnly(cleaned[t]) && TrimSpace(t) == t && cleaned[t].maxTokens != 0 && c != map[]
    {
      var name :| ChosenFrom(m, name, t, cleaned[t]);
      assert !cleaned[t].HasPricing();
      MergedIff(c, ratios, completions, name);
      TrimSpaceTrims(name);
      TrimSpaceTrims(t);
    }
  }

  /** Nothing charged: merging into the limits that were kept changes nothing. */
  lemma MergedAgain(c: map<string, Config>, ratios: map<string, real>, completions: map<string, real>,
                    cleaned: map<string, Config>)
    requires LimitsOnly(c) && !AnyPricing(Merged(c, ratios, completions))
    requires LimitsOnly(cleaned) && forall t :: t in cleaned ==> cleaned[t].maxTokens != 0
    ensures Merged(cleaned, ratios, completions) == cleaned
  {
    var m := Merged(cleaned, ratios, completions);
    forall name | name != "" ensures name in m <==> name in cleaned
                             ensures name in m ==> m[name] == cleaned[name] {
      MergedIff(c, ratios, completions, name);
      MergedIff(cleaned, ratios, completions, name);
    }
  }

  lemma UnpricedIsLimits(x: Columns, y: Stored)
    requires FormatTo(x, Ok(y)) && !AnyPricing(Configs(y))
    ensures HoldsLimits(x.(stored := y), Configs(y))
  {
    FormatFormats(x, y);
  }

  /** No run on these columns changes anything. */
  ghost predicate Idle(x: Columns)
  {
    forall w :: MigratesTo(x, w) ==> w == x.stored
  }

  lemma FailedFormatIsIdle(x: Columns)
    requires FormatTo(x, Err)
    ensures Idle(x)
  {
    forall w | MigratesTo(x, w) ensures w == x.stored {
      var formatted :| FormatTo(x, formatted) && FinishesAs(x, formatted, w);
      FormatAgrees(x, Err, formatted);
    }
  }

  lemma FailedMergeIsIdle(x: Columns, y: Stored)
    requires FormatTo(x, Ok(y)) && HistoricalTo(x.(stored := y), Err)
    ensures Idle(x)
  {
    forall formatted, w | FormatTo(x, formatted) && FinishesAs(x, formatted, w) ensures w == x.stored {
      FormatAgrees(x, Ok(y), formatted);
      FailedMergeFinishes(x, y, formatted.value, w);
    }
  }

  lemma FailedMergeFinishes(x: Columns, y: Stored, y': Stored, w: Stored)
    requires FormatTo(x, Ok(y)) && HistoricalTo(x.(stored := y), Err)
    requires FormatTo(x, Ok(y')) && SameButImages(Configs(y), Configs(y')) && FinishesAs(x, Ok(y'), w)
    ensures w == x.stored
  {
    var merged :| HistoricalTo(x.(stored := y'), merged) && SavedAs(x.stored, merged, w);
    FailedMergeAgain(x, y, y', merged);
  }

  lemma FailedMergeAgain(x: Columns, y: Stored, y': Stored, r: Result<Stored>)
    requires FormatTo(x, Ok(y)) && HistoricalTo(x.(stored := y), Err)
    requires FormatTo(x, Ok(y')) && SameButImages(Configs(y), Configs(y')) && HistoricalTo(x.(stored := y'), r)
    ensures r.Err?
  {
    var ratios, completions := Filled(x.modelRatio), Filled(x.completionRatio);
    var c, c' := Configs(y), Configs(y');
    assert !AnyPricing(c');
    UnpricedIsLimits(x, y);
    UnpricedIsLimits(x, y');
    StoringMerged(c, ratios, completions, Err);
    var name :| name in Merged(c, ratios, completions) && TrimSpace(name) == "";
    MergedIff(c, ratios, completions, name);
    MergedIff(c', ratios, completions, name);
    assert name in Merged(c', ratios, completions);
    StoringMerged(c', ratios, completions, r);
  }

  // ----- a second run -----

  /** An unpriced record that may be kept under the trimmed name t. */
  predicate Unpriced(merged: map<string, Config>, name: string, t: string)
  {
    name in merged && TrimSpace(name) == t && !merged[name].HasPricing()
  }

  /** Every priced record runs together with an unpriced one, and no ratio column names a model that is not kept. */
  ghost predicate MayHide(merged: map<string, Config>, names: set<string>)
  {
    && AnyPricing(merged) && !AnyBlank(merged)
    && (forall name :: name in merged && merged[name].HasPricing() ==>
         exists other :: Unpriced(merged, other, TrimSpace(name)))
    && (forall t :: t in names ==> exists name :: name in merged && TrimSpace(name) == t)
  }

  /** The records that the historical step merges may hide. */
  ghost predicate MergeMayHide(x: Columns)
  {
    exists c :: FormatTo(x, Ok(Marshal(c))) && !AnyPricing(c)
                && MayHide(Merged(c, Filled(x.modelRatio), Filled(x.completionRatio)), CleanNames(x))
  }

  /** A ratio column prices this model. */
  predicate Prices(x: Columns, name: string)
  {
    name != "" && Charged(Filled(x.modelRatio), Filled(x.completionRatio), name)
  }

  /** A stored record limits the tokens of this model, and no ratio column prices it. */
  predicate Limits(x: Columns, name: string)
  {
    x.stored.Object? && name in x.stored.records && x.stored.records[name].config.maxTokens != 0 && !Prices(x, name)
  }

  predicate LimitsAs(x: Columns, name: string, t: string)
  {
    Limits(x, name) && TrimSpace(name) == t
  }

  predicate KeepsAs(x: Columns, name: string, t: string)
  {
    (Prices(x, name) || Limits(x, name)) && TrimSpace(name) == t
  }

  /** The channels that a first run may leave unpriced and a second one then price: every priced name runs together
      with a merely limited one, and every name in a ratio column that decodes cleanly with one of them. */
  ghost predicate HidesPrices(x: Columns)
  {
    && LeavesUnpriced(x) && (exists name :: Prices(x, name))
    && (forall name :: Prices(x, name) || Limits(x, name) ==> TrimSpace(name) != "")
    && (forall name :: Prices(x, name) ==> exists other :: LimitsAs(x, other, TrimSpace(name)))
    && (forall t :: t in CleanNames(x) ==> exists name :: KeepsAs(x, name, t))
  }

  lemma CarriedTokens(records: map<string, Record>, ratios: map<string, real>, completions: map<string, real>,
                      name: string, c: Config)
    requires CarriedOver(records, ratios, completions, name, c)
    ensures c.maxTokens == if name in records then records[name].config.maxTokens else 0
  {
  }

  lemma ConvertedTokens(records: map<string, Record>, ratios: map<string, real>, completions: map<string, real>,
                        c: map<string, Config>, name: string)
    requires Converted(records, ratios, completions, c) && name != ""
    ensures Limited(c, name) <==> name in records && records[name].config.maxTokens != 0
  {
    if name in c {
      CarriedTokens(records, ratios, completions, name, c[name]);
    } else {
      assert name !in records.Keys + ratios.Keys + completions.Keys;
    }
  }

  /** The format step carries token limits over as they are. */
  lemma LimitsCarryOver(x: Columns, y: Stored, name: string)
    requires FormatTo(x, Ok(y)) && !AnyPricing(Configs(y)) && name != ""
    ensures Limited(Configs(y), name)
       <==> x.stored.Object? && name in x.stored.records && x.stored.records[name].config.maxTokens != 0
  {
    if x.stored.Object? {
      ConvertedLimitsCarryOver(x.stored.records, IfClean(x.modelRatio), IfClean(x.completionRatio), y, name);
    }
  }

  lemma ConvertedLimitsCarryOver(records: map<string, Record>, ratios: map<string, real>,
                                 completions: map<string, real>, y: Stored, name: string)
    requires ConvertsTo(records, ratios, completions, Ok(y)) && name != ""
    ensures Limited(Configs(y), name) <==> name in records && records[name].config.maxTokens != 0
  {
    var c: map<string, Config> :| Converted(records, ratios, completions, c)
                                  && Ok(y) == if ConfigsOk(c) then Ok(Marshal(c)) else Err;
    ConfigsOfMarshal(c);
    ConvertedTokens(records, ratios, completions, c, name);
  }

  /** What is merged from an unpriced format: priced names and limited names, apart. */
  lemma MergeKeeps(x: Columns, y: Stored, name: string)
    requires FormatTo(x, Ok(y)) && !AnyPricing(Configs(y))
    ensures var m := Merged(Configs(y), Filled(x.modelRatio), Filled(x.completionRatio));
            && (name in m && m[name].HasPricing() <==> Prices(x, name))
            && (name in m && !m[name].HasPricing() <==> Limits(x, name))
  {
    UnpricedIsLimits(x, y);
    if name != "" {
      LimitsCarryOver(x, y, name);
      MergedIff(Configs(y), Filled(x.modelRatio), Filled(x.completionRatio), name);
    }
  }

  /** These records are the priced and the limited names of the columns. */
  ghost predicate Mirrors(x: Columns, m: map<string, Config>)
  {
    forall name :: MirrorsAt(x, m, name)
  }

  predicate MirrorsAt(x: Columns, m: map<string, Config>, name: string)
  {
    && (name in m && m[name].HasPricing() <==> Prices(x, name))
    && (name in m && !m[name].HasPricing() <==> Limits(x, name))
  }

  lemma MergeMirrors(x: Columns, y: Stored)
    requires FormatTo(x, Ok(y)) && !AnyPricing(Configs(y))
    ensures Mirrors(x, Merged(Configs(y), Filled(x.modelRatio), Filled(x.completionRatio)))
  {
    var m := Merged(Configs(y), Filled(x.modelRatio), Filled(x.completionRatio));
    forall name ensures MirrorsAt(x, m, name) {
      MergeKeeps(x, y, name);
    }
  }

  lemma MirroredHides(x: Columns, m: map<string, Config>)
    requires Mirrors(x, m) && MayHide(m, CleanNames(x)) && LeavesUnpriced(x)
    ensures HidesPrices(x)
  {
    var charged :| charged in m && m[charged].HasPricing();
    assert MirrorsAt(x, m, charged);
    forall name | Prices(x, name) || Limits(x, name) ensures TrimSpace(name) != "" {
      assert MirrorsAt(x, m, name);
    }
    forall name | Prices(x, name) ensures exists other :: LimitsAs(x, other, TrimSpace(name)) {
      assert MirrorsAt(x, m, name);
      var other :| Unpriced(m, other, TrimSpace(name));
      assert MirrorsAt(x, m, other);
      assert LimitsAs(x, other, TrimSpace(name));
    }
    forall t | t in CleanNames(x) ensures exists name :: KeepsAs(x, name, t) {
      var name :| name in m && TrimSpace(name) == t;
      assert MirrorsAt(x, m, name);
      assert KeepsAs(x, name, t);
    }
  }

  lemma HidesMirrored(x: Columns, m: map<string, Config>)
    requires Mirrors(x, m) && HidesPrices(x)
    ensures MayHide(m, CleanNames(x))
  {
    var charged :| Prices(x, charged);
    assert MirrorsAt(x, m, charged);
    forall name | name in m ensures TrimSpace(name) != "" {
      assert MirrorsAt(x, m, name);
    }
    forall name | name in m && m[name].HasPricing() ensures exists other :: Unpriced(m, other, TrimSpace(name)) {
      assert MirrorsAt(x, m, name);
      var other :| LimitsAs(x, other, TrimSpace(name));
      assert MirrorsAt(x, m, other);
      assert Unpriced(m, other, TrimSpace(name));
    }
    forall t | t in CleanNames(x) ensures exists name :: name in m && TrimSpace(name) == t {
      var name :| KeepsAs(x, name, t);
      assert MirrorsAt(x, m, name);
    }
  }

  /** Stated on the columns or on what they merge to, it is the same. */
  lemma HidesPricesIff(x: Columns)
    ensures HidesPrices(x) <==> MergeMayHide(x)
  {
    LeavesUnpricedIff(x);
    if HidesPrices(x) {
      var y :| FormatTo(x, Ok(y)) && !AnyPricing(Configs(y));
      UnpricedIsLimits(x, y);
      MergeMirrors(x, y);
      HidesMirrored(x, Merged(Configs(y), Filled(x.modelRatio), Filled(x.completionRatio)));
    }
    if MergeMayHide(x) {
      var c :| FormatTo(x, Ok(Marshal(c))) && !AnyPricing(c)
               && MayHide(Merged(c, Filled(x.modelRatio), Filled(x.completionRatio)), CleanNames(x));
      ConfigsOfMarshal(c);
      MergeMirrors(x, Marshal(c));
      MirroredHides(x, Merged(c, Filled(x.modelRatio), Filled(x.completionRatio)));
    }
  }

  ghost predicate RunTwiceIsRunOnce(x: Columns)
  {
    forall z, w :: MigratesTo(x, z) && MigratesTo(x.(stored := z), w) ==> w == z
  }

  /** What storing the merged records keeps of them. */
  ghost predicate IsMerge(c: map<string, Config>, ratios: map<string, real>, completions: map<string, real>,
                          cleaned: map<string, Config>)
  {
    var m := Merged(c, ratios, completions);
    m != map[] && !AnyBlank(m) && Chosen(m, cleaned) && ConfigsOk(cleaned)
  }

  /** The historical step on mere limits either leaves them or keeps what it has merged. */
  lemma HistoricalOutcome(x: Columns, c: map<string, Config>, merged: Stored) returns (cleaned: map<string, Config>)
    requires HoldsLimits(x, c) && HistoricalTo(x, Ok(merged))
    ensures merged == Marshal(cleaned) && ConfigsOk(cleaned)
    ensures (cleaned == c && Settled(c, Filled(x.modelRatio), Filled(x.completionRatio)))
            || IsMerge(c, Filled(x.modelRatio), Filled(x.completionRatio), cleaned)
  {
    ConfigsOfMarshal(c);
    var ratios, completions := Filled(x.modelRatio), Filled(x.completionRatio);
    if (ratios == map[] && completions == map[]) || Merged(c, ratios, completions) == map[] {
      cleaned := c;
    } else {
      StoringMerged(c, ratios, completions, Ok(merged));
      cleaned :| Chosen(Merged(c, ratios, completions), cleaned) && ConfigsOk(cleaned) && merged == Marshal(cleaned);
    }
  }

  /** What a first run that found mere limits has kept of them. */
  ghost predicate Kept(c: map<string, Config>, ratios: map<string, real>, completions: map<string, real>,
                       cleaned: map<string, Config>)
  {
    (cleaned == c && Settled(c, ratios, completions)) || IsMerge(c, ratios, completions, cleaned)
  }

  /** The column holds what was kept of limits in which no price can be hidden. */
  ghost predicate KeptSafely(x: Columns, c: map<string, Config>, cleaned: map<string, Config>)
  {
    && x.stored == Marshal(cleaned) && LimitsOnly(c) && (c == map[] || ZeroWhereClean(x))
    && Kept(c, Filled(x.modelRatio), Filled(x.completionRatio), cleaned)
    && !MayHide(Merged(c, Filled(x.modelRatio), Filled(x.completionRatio)), CleanNames(x))
  }

  lemma FirstRunOnLimits(x: Columns, y: Stored, merged: Stored, z: Stored) returns (cleaned: map<string, Config>)
    requires FormatTo(x, Ok(y)) && !AnyPricing(Configs(y))
    requires HistoricalTo(x.(stored := y), Ok(merged)) && SavedAs(x.stored, Ok(merged), z)
    ensures HoldsLimits(x.(stored := y), Configs(y)) && z == Marshal(cleaned)
    ensures Kept(Configs(y), Filled(x.modelRatio), Filled(x.completionRatio), cleaned)
  {
    UnpricedIsLimits(x, y);
    cleaned := HistoricalOutcome(x.(stored := y), Configs(y), merged);
    MarshalIsSaved(x.stored, cleaned, z);
  }

  lemma MarshalIsSaved(before: Stored, cleaned: map<string, Config>, z: Stored)
    requires SavedAs(before, Ok(Marshal(cleaned)), z) && ConfigsOk(cleaned)
    ensures z == Marshal(cleaned)
  {
    ConfigsOfMarshal(cleaned);
  }

  lemma SecondRunOnKept(x: Columns, c: map<string, Config>, cleaned: map<string, Config>, w: Stored)
    requires KeptSafely(x, c, cleaned) && MigratesTo(x, w)
    ensures w == x.stored
  {
    if IsMerge(c, Filled(x.modelRatio), Filled(x.completionRatio), cleaned) {
      SecondRunOnChosen(x, c, cleaned, w);
    } else {
      LimitsStay(x, c, w);
    }
  }

  lemma FirstRunOnPrices(x: Columns, y: Stored, merged: Stored, z: Stored)
    requires FormatTo(x, Ok(y)) && AnyPricing(Configs(y))
    requires HistoricalTo(x.(stored := y), Ok(merged)) && SavedAs(x.stored, Ok(merged), z)
    ensures HoldsPrices(z)
  {
    FormatFormats(x, y);
  }

  lemma NotHidden(x: Columns, c: map<string, Config>)
    requires !HidesPrices(x) && FormatTo(x, Ok(Marshal(c))) && !AnyPricing(c)
    ensures !MayHide(Merged(c, Filled(x.modelRatio), Filled(x.completionRatio)), CleanNames(x))
  {
    HidesPricesIff(x);
  }

  lemma SecondRunOnChosen(x: Columns, c: map<string, Config>, cleaned: map<string, Config>, w: Stored)
    requires x.stored == Marshal(cleaned) && MigratesTo(x, w)
    requires LimitsOnly(c) && (c == map[] || ZeroWhereClean(x))
    requires !MayHide(Merged(c, Filled(x.modelRatio), Filled(x.completionRatio)), CleanNames(x))
    requires IsMerge(c, Filled(x.modelRatio), Filled(x.completionRatio), cleaned)
    ensures w == x.stored
  {
    MergeIsKept(c, Filled(x.modelRatio), Filled(x.completionRatio), cleaned);
    ConfigsOfMarshal(cleaned);
    if AnyPricing(cleaned) {
      PricesStay(x, w);
    } else {
      KeptUnpriced(c, Filled(x.modelRatio), Filled(x.completionRatio), cleaned, CleanNames(x));
      LimitsStay(x, cleaned, w);
    }
  }

  lemma MergeIsKept(c: map<string, Config>, ratios: map<string, real>, completions: map<string, real>,
                    cleaned: map<string, Config>)
    requires IsMerge(c, ratios, completions, cleaned)
    ensures cleaned != map[]
  {
    var name :| name in Merged(c, ratios, completions);
    assert TrimSpace(name) in cleaned;
  }

  lemma KeptUnpriced(c: map<string, Config>, ratios: map<string, real>, completions: map<string, real>,
                     cleaned: map<string, Config>, names: set<string>)
    requires LimitsOnly(c) && IsMerge(c, ratios, completions, cleaned) && !AnyPricing(cleaned)
    requires !MayHide(Merged(c, ratios, completions), names)
    ensures LimitsOnly(cleaned) && (cleaned != map[] ==> c != map[])
    ensures Settled(cleaned, ratios, completions) || !(names <= cleaned.Keys)
  {
    ChosenLimits(c, ratios, completions, cleaned);
    if AnyPricing(Merged(c, ratios, completions)) {
      ChosenUnpriced(Merged(c, ratios, completions), cleaned, names);
    } else {
      MergedAgain(c, ratios, completions, cleaned);
    }
  }

  /** When only unpriced records are kept, some priced record is lost for good or the merged records may hide. */
  lemma ChosenUnpriced(m: map<string, Config>, cleaned: map<string, Config>, names: set<string>)
    requires AnyPricing(m) && !AnyBlank(m) && Chosen(m, cleaned) && !AnyPricing(cleaned)
    ensures MayHide(m, names) || !(names <= cleaned.Keys)
  {
    forall name | name in m && m[name].HasPricing() ensures exists other :: Unpriced(m, other, TrimSpace(name)) {
      var t := TrimSpace(name);
      var other :| ChosenFrom(m, other, t, cleaned[t]);
      assert Unpriced(m, other, t);
    }
    forall t | t in cleaned ensures exists name :: name in m && TrimSpace(name) == t {
      var name :| ChosenFrom(m, name, t, cleaned[t]);
    }
  }

  lemma KeepsSafely(x: Columns, y: Stored, c: map<string, Config>, cleaned: map<string, Config>)
    requires HoldsLimits(x.(stored := y), c) && Kept(c, Filled(x.modelRatio), Filled(x.completionRatio), cleaned)
    requires !MayHide(Merged(c, Filled(x.modelRatio), Filled(x.completionRatio)), CleanNames(x))
    ensures KeptSafely(x.(stored := Marshal(cleaned)), c, cleaned)
  {
  }

  lemma FirstRunKeepsSafely(x: Columns, y: Stored, merged: Stored, z: Stored) returns (cleaned: map<string, Config>)
    requires !HidesPrices(x) && !AnyPricing(Configs(y))
    requires FormatTo(x, Ok(y)) && HistoricalTo(x.(stored := y), Ok(merged)) && SavedAs(x.stored, Ok(merged), z)
    ensures KeptSafely(x.(stored := z), Configs(y), cleaned)
  {
    cleaned := FirstRunOnLimits(x, y, merged, z);
    NotHidden(x, Configs(y));
    KeepsSafely(x, y, Configs(y), cleaned);
  }

  /** A first run that succeeds leaves prices, or limits in which none can be hidden. */
  lemma FirstRunLeaves(x: Columns, y: Stored, merged: Stored, z: Stored)
      returns (c: map<string, Config>, cleaned: map<string, Config>)
    requires !HidesPrices(x)
    requires FormatTo(x, Ok(y)) && HistoricalTo(x.(stored := y), Ok(merged)) && SavedAs(x.stored, Ok(merged), z)
    ensures HoldsPrices(z) || KeptSafely(x.(stored := z), c, cleaned)
  {
    if AnyPricing(Configs(y)) {
      c, cleaned := map[], map[];
      FirstRunOnPrices(x, y, merged, z);
    } else {
      c := Configs(y);
      cleaned := FirstRunKeepsSafely(x, y, merged, z);
    }
  }

  lemma SecondRunStays(x: Columns, c: map<string, Config>, cleaned: map<string, Config>, w: Stored)
    requires (HoldsPrices(x.stored) || KeptSafely(x, c, cleaned)) && MigratesTo(x, w)
    ensures w == x.stored
  {
    if HoldsPrices(x.stored) {
      PricesStay(x, w);
    } else {
      SecondRunOnKept(x, c, cleaned, w);
    }
  }

  /** Unless prices are hidden, a second run changes nothing. */
  lemma SecondRunIsIdle(x: Columns, z: Stored, w: Stored)
    requires !HidesPrices(x) && MigratesTo(x, z) && MigratesTo(x.(stored := z), w)
    ensures w == z
  {
    if Idle(x) {
      assert x.(stored := z) == x;
    } else {
      var y, merged := FirstRunSucceeds(x, z);
      var c, cleaned := FirstRunLeaves(x, y, merged, z);
      SecondRunStays(x.(stored := z), c, cleaned, w);
    }
  }

  lemma FirstRunSucceeds(x: Columns, z: Stored) returns (y: Stored, merged: Stored)
    requires MigratesTo(x, z) && !Idle(x)
    ensures FormatTo(x, Ok(y)) && HistoricalTo(x.(stored := y), Ok(merged)) && SavedAs(x.stored, Ok(merged), z)
  {
    var formatted :| FormatTo(x, formatted) && FinishesAs(x, formatted, z);
    if formatted.Err? {
      FailedFormatIsIdle(x);
    } else {
      y := formatted.value;
      var m :| HistoricalTo(x.(stored := y), m) && SavedAs(x.stored, m, z);
      if m.Err? {
        FailedMergeIsIdle(x, y);
      } else {
        merged := m.value;
      }
    }
  }

  // ----- the runs that differ -----

  function TrimmedNames(m: map<string, Config>): set<string>
  {
    set name | name in m :: TrimSpace(name)
  }

  /** Some record can be kept under each trimmed name, and any given one can be among them. */
  lemma SomeChoice(m: map<string, Config>, kept: string) returns (cleaned: map<string, Config>)
    requires kept in m
    ensures Chosen(m, cleaned) && TrimSpace(kept) in cleaned && cleaned[TrimSpace(kept)] == m[kept]
  {
    cleaned := map t | t in TrimmedNames(m) :: if t == TrimSpace(kept) then m[kept] else m[NameFor(m, t)];
    forall t | t in cleaned ensures exists name :: ChosenFrom(m, name, t, cleaned[t]) {
      assert ChosenFrom(m, if t == TrimSpace(kept) then kept else NameFor(m, t), t, cleaned[t]);
    }
  }

  ghost function NameFor(m: map<string, Config>, t: string): (name: string)
    requires t in TrimmedNames(m)
    ensures name in m && TrimSpace(name) == t
  {
    var name :| name in m && TrimSpace(name) == t;
    name
  }

  lemma UnpricedChoice(m: map<string, Config>, names: set<string>) returns (cleaned: map<string, Config>)
    requires MayHide(m, names)
    ensures Chosen(m, cleaned) && !AnyPricing(cleaned) && names <= cleaned.Keys
  {
    forall t | t in TrimmedNames(m) ensures exists name :: Unpriced(m, name, t) {
      assert m[NameFor(m, t)].HasPricing() || Unpriced(m, NameFor(m, t), t);
    }
    cleaned := map t | t in TrimmedNames(m) :: m[UnpricedFor(m, t)];
    forall t | t in cleaned ensures exists name :: ChosenFrom(m, name, t, cleaned[t]) {
      assert ChosenFrom(m, UnpricedFor(m, t), t, cleaned[t]);
    }
  }

  ghost function UnpricedFor(m: map<string, Config>, t: string): (name: string)
    requires exists name :: Unpriced(m, name, t)
    ensures Unpriced(m, name, t)
  {
    var name :| Unpriced(m, name, t);
    name
  }

  /** Mere limits that cover the ratio columns can be converted to themselves. */
  lemma LimitsConvertBack(x: Columns, c: map<string, Config>)
    requires HoldsLimits(x, c) && c != map[] && CleanNames(x) <= c.Keys
    ensures FormatTo(x, Ok(x.stored))
  {
    ConfigsOfMarshal(c);
    var records, ratios, completions := x.stored.records, IfClean(x.modelRatio), IfClean(x.completionRatio);
    forall name | name in c ensures CarriedOver(records, ratios, completions, name, c[name]) {
      if c[name].image.Some? {
        FixedIsNormalized(c[name].image.value);
      }
    }
    assert NonEmpty(records.Keys + ratios.Keys + completions.Keys) == c.Keys;
    assert Converted(records, ratios, completions, c);
    LimitsAccepted(x, c);
  }

  lemma LimitsAccepted(x: Columns, c: map<string, Config>)
    requires HoldsLimits(x, c) && c != map[]
    ensures ConversionAccepted(x)
  {
    var ratios, completions := IfClean(x.modelRatio), IfClean(x.completionRatio);
    forall name | name in ratios && name != "" ensures ratios[name] >= 0.0 {
      assert RatioOf(ratios, name) == 0.0;
    }
    forall name | name in completions && name != "" ensures completions[name] >= 0.0 {
      assert RatioOf(completions, name) == 0.0;
    }
  }

  /** Whatever choice among the merged records storing makes, a run on mere limits may leave it. */
  lemma ChoiceIsLeft(x: Columns, c: map<string, Config>, cleaned: map<string, Config>)
    requires FormatTo(x, Ok(Marshal(c))) && LimitsOnly(c)
    requires var m := Merged(c, Filled(x.modelRatio), Filled(x.completionRatio));
             AnyPricing(m) && !AnyBlank(m) && Chosen(m, cleaned)
    ensures MigratesTo(x, Marshal(cleaned))
  {
    var ratios, completions := Filled(x.modelRatio), Filled(x.completionRatio);
    ChosenIsOk(c, ratios, completions, cleaned);
    MarshalIsMerged(x.(stored := Marshal(c)), c, cleaned);
    ConfigsOfMarshal(cleaned);
    assert SavedAs(x.stored, Ok(Marshal(cleaned)), Marshal(cleaned));
    assert FinishesAs(x, Ok(Marshal(c)), Marshal(cleaned));
  }

  lemma ChargedName(c: map<string, Config>, ratios: map<string, real>, completions: map<string, real>)
      returns (charged: string)
    requires LimitsOnly(c) && AnyPricing(Merged(c, ratios, completions)) && !AnyBlank(Merged(c, ratios, completions))
    ensures charged != "" && Charged(ratios, completions, charged)
    ensures forall name :: name != "" && Charged(ratios, completions, name) ==> TrimSpace(name) != ""
  {
    charged :| charged in Merged(c, ratios, completions) && Merged(c, ratios, completions)[charged].HasPricing();
    MergedIff(c, ratios, completions, charged);
    forall name | name != "" && Charged(ratios, completions, name) ensures TrimSpace(name) != "" {
      MergedIff(c, ratios, completions, name);
    }
  }

  lemma MarshalIsMerged(x: Columns, c: map<string, Config>, cleaned: map<string, Config>)
    requires x.stored == Marshal(c) && LimitsOnly(c) && ConfigsOk(cleaned)
    requires var m := Merged(c, Filled(x.modelRatio), Filled(x.completionRatio));
             AnyPricing(m) && !AnyBlank(m) && Chosen(m, cleaned)
    ensures HistoricalTo(x, Ok(Marshal(cleaned)))
  {
    ConfigsOfMarshal(c);
    MergesPrices(c, Filled(x.modelRatio), Filled(x.completionRatio));
    MarshalIsStored(c, Filled(x.modelRatio), Filled(x.completionRatio), cleaned);
  }

  lemma MergesPrices(c: map<string, Config>, ratios: map<string, real>, completions: map<string, real>)
    requires LimitsOnly(c) && AnyPricing(Merged(c, ratios, completions)) && !AnyBlank(Merged(c, ratios, completions))
    ensures !MergesNothing(c, ratios, completions)
  {
    var charged := ChargedName(c, ratios, completions);
  }

  lemma MarshalIsStored(c: map<string, Config>, ratios: map<string, real>, completions: map<string, real>,
                        cleaned: map<string, Config>)
    requires LimitsOnly(c) && ConfigsOk(cleaned) && AnyPricing(Merged(c, ratios, completions))
    requires !AnyBlank(Merged(c, ratios, completions)) && Chosen(Merged(c, ratios, completions), cleaned)
    ensures SetTo(Merged(c, ratios, completions), Ok(Marshal(cleaned)))
  {
    StoringMerged(c, ratios, completions, Ok(Marshal(cleaned)));
  }

  /** Hidden prices: a first run may leave a record unpriced ... */
  lemma HidingRun(x: Columns, c: map<string, Config>) returns (cleaned: map<string, Config>)
    requires FormatTo(x, Ok(Marshal(c))) && !AnyPricing(c)
    requires MayHide(Merged(c, Filled(x.modelRatio), Filled(x.completionRatio)), CleanNames(x))
    ensures MigratesTo(x, Marshal(cleaned))
    ensures HoldsLimits(x.(stored := Marshal(cleaned)), cleaned) && cleaned != map[] && NamesTrimmed(cleaned)
    ensures !AnyPricing(cleaned) && CleanNames(x) <= cleaned.Keys
  {
    var ratios, completions := Filled(x.modelRatio), Filled(x.completionRatio);
    ConfigsOfMarshal(c);
    UnpricedIsLimits(x, Marshal(c));
    cleaned := UnpricedChoice(Merged(c, ratios, completions), CleanNames(x));
    ChoiceIsLeft(x, c, cleaned);
    ChosenIsOk(c, ratios, completions, cleaned);
    MergeIsKept(c, ratios, completions, cleaned);
    ChosenLimits(c, ratios, completions, cleaned);
  }

  /** ... that the second run prices. */
  lemma PricingRun(x: Columns, c: map<string, Config>, charged: string) returns (cleaned: map<string, Config>)
    requires HoldsLimits(x, c) && c != map[] && NamesTrimmed(c) && CleanNames(x) <= c.Keys
    requires Charged(Filled(x.modelRatio), Filled(x.completionRatio), charged) && charged != ""
    requires forall name :: name != "" && Charged(Filled(x.modelRatio), Filled(x.completionRatio), name) ==>
               TrimSpace(name) != ""
    ensures MigratesTo(x, Marshal(cleaned)) && AnyPricing(cleaned)
  {
    var ratios, completions := Filled(x.modelRatio), Filled(x.completionRatio);
    var m := Merged(c, ratios, completions);
    forall name | name in m ensures TrimSpace(name) != "" {
      MergedIff(c, ratios, completions, name);
    }
    MergedIff(c, ratios, completions, charged);
    cleaned := SomeChoice(m, charged);
    LimitsConvertBack(x, c);
    assert AnyPricing(m) && !AnyBlank(m);
    ChoiceIsLeft(x, c, cleaned);
  }

  lemma HiddenPricesDiffer(x: Columns)
    requires HidesPrices(x)
    ensures !RunTwiceIsRunOnce(x)
  {
    var ratios, completions := Filled(x.modelRatio), Filled(x.completionRatio);
    HidesPricesIff(x);
    var c :| FormatTo(x, Ok(Marshal(c))) && !AnyPricing(c) && MayHide(Merged(c, ratios, completions), CleanNames(x));
    ConfigsOfMarshal(c);
    UnpricedIsLimits(x, Marshal(c));
    var charged := ChargedName(c, ratios, completions);
    var z := HidingRun(x, c);
    var w := PricingRun(x.(stored := Marshal(z)), z, charged);
    ConfigsOfMarshal(z);
    ConfigsOfMarshal(w);
    assert Marshal(w) != Marshal(z);
  }

  /** The migration is idempotent exactly for the channels whose prices it cannot hide. */
  lemma IdempotentIff(x: Columns)
    ensures RunTwiceIsRunOnce(x) <==> !HidesPrices(x)
  {
    if HidesPrices(x) {
      HiddenPricesDiffer(x);
    } else {
      forall z, w | MigratesTo(x, z) && MigratesTo(x.(stored := z), w) ensures w == z {
        SecondRunIsIdle(x, z, w);
      }
    }
  }

  // ----- channels that are safe, and one that is not -----

  /** No two model names of the channel become one when trimmed. */
  ghost predicate NamesApart(x: Columns)
  {
    forall name, other :: name in ModelNames(x) && other in ModelNames(x) && TrimSpace(name) == TrimSpace(other) ==>
      name == other
  }

  function ModelNames(x: Columns): set<string>
  {
    (if x.stored.Object? then x.stored.records.Keys else {}) + Filled(x.modelRatio).Keys
      + Filled(x.completionRatio).Keys
  }

  lemma FormattedNames(x: Columns, c: map<string, Config>)
    requires FormatTo(x, Ok(Marshal(c))) && !AnyPricing(c)
    ensures c.Keys <= ModelNames(x)
  {
    ConfigsOfMarshal(c);
    if x.stored.Object? {
      ConvertedNames(x, c);
    }
  }

  lemma ConvertedNames(x: Columns, c: map<string, Config>)
    requires x.stored.Object? && Configs(Marshal(c)) == c
    requires ConvertsTo(x.stored.records, IfClean(x.modelRatio), IfClean(x.completionRatio), Ok(Marshal(c)))
    ensures c.Keys <= ModelNames(x)
  {
    var records, ratios, completions := x.stored.records, IfClean(x.modelRatio), IfClean(x.completionRatio);
    var d: map<string, Config> :| Converted(records, ratios, completions, d)
                                  && Ok(Marshal(c)) == if ConfigsOk(d) then Ok(Marshal(d)) else Err;
    ConfigsOfMarshal(d);
    assert d == c;
  }

  lemma NamesApartNeverHide(x: Columns)
    requires NamesApart(x)
    ensures !HidesPrices(x)
  {
    HidesPricesIff(x);
    var ratios, completions := Filled(x.modelRatio), Filled(x.completionRatio);
    forall c | FormatTo(x, Ok(Marshal(c))) && !AnyPricing(c)
      ensures !MayHide(Merged(c, ratios, completions), CleanNames(x))
    {
      FormattedNames(x, c);
      ApartNeverHide(Merged(c, ratios, completions), CleanNames(x), ModelNames(x));
    }
  }

  lemma ApartNeverHide(m: map<string, Config>, names: set<string>, known: set<string>)
    requires m.Keys <= known
    requires forall name, other :: name in known && other in known && TrimSpace(name) == TrimSpace(other) ==>
               name == other
    ensures !MayHide(m, names)
  {
    forall name, other | name in m && Unpriced(m, other, TrimSpace(name)) ensures !m[name].HasPricing() {
      assert name == other;
    }
  }

  /** Both ratio columns, when they are objects, decode without error. */
  predicate CleanColumns(x: Columns)
  {
    (x.modelRatio.Decoded? ==> x.modelRatio.clean) && (x.completionRatio.Decoded? ==> x.completionRatio.clean)
  }

  lemma CleanColumnsNeverHide(x: Columns)
    requires CleanColumns(x)
    ensures !HidesPrices(x)
  {
    HidesPricesIff(x);
    var ratios, completions := Filled(x.modelRatio), Filled(x.completionRatio);
    forall c | FormatTo(x, Ok(Marshal(c))) && !AnyPricing(c)
      ensures !MayHide(Merged(c, ratios, completions), CleanNames(x))
    {
      ConfigsOfMarshal(c);
      UnpricedIsLimits(x, Marshal(c));
      ZerosNeverHide(c, ratios, completions, CleanNames(x));
    }
  }

  lemma ZerosNeverHide(c: map<string, Config>, ratios: map<string, real>, completions: map<string, real>,
                       names: set<string>)
    requires LimitsOnly(c) && (c == map[] || AllZero(ratios, completions))
    ensures !MayHide(Merged(c, ratios, completions), names)
  {
    var m := Merged(c, ratios, completions);
    forall name, other | name in m && Unpriced(m, other, TrimSpace(name)) ensures !m[name].HasPricing() {
      MergedIff(c, ratios, completions, name);
      MergedIff(c, ratios, completions, other);
      assert RatioOf(ratios, name) == 0.0 && RatioOf(completions, name) == 0.0;
    }
  }

  /** A ratio column prices " a" and has a value of the wrong type under "b"; the stored records limit "a". */
  const LIMIT := NO_CONFIG.(maxTokens := 5)
  const UNCLEAN := Columns(Object(map["a" := Record(LIMIT, 0.0)], true, true),
                           Decoded(map[" a" := 2.0, "b" := 0.0], false), Absent)

  lemma UncleanColumnHides()
    ensures HidesPrices(UNCLEAN)
  {
    var c := map["a" := LIMIT];
    ConfigsOfMarshal(c);
    assert LimitOnly(LIMIT);
    assert "a" in c;
    assert UNCLEAN.stored.records == Marshal(c).records;
    assert HoldsLimits(UNCLEAN, c);
    LimitsConvertBack(UNCLEAN, c);
    assert FormatTo(UNCLEAN, Ok(Marshal(c))) && !AnyPricing(c);
    UncleanNames();
  }

  lemma UncleanNames()
    ensures forall name :: (Prices(UNCLEAN, name) <==> name == " a") && (Limits(UNCLEAN, name) <==> name == "a")
    ensures Prices(UNCLEAN, " a") && LimitsAs(UNCLEAN, "a", TrimSpace(" a")) && TrimSpace("a") == TrimSpace(" a") != ""
  {
    assert TrimSpace(" a") == "a" && TrimSpace("a") == "a";
    assert " a" != "b" && " a" != "a";
  }

  // ----- storing what has been stored -----

  lemma CleanedIsAccepted(configs: map<string, Config>, cleaned: map<string, Config>, t: string)
    requires NamesAccepted(configs) && Cleaned(configs, cleaned) && t in cleaned
    ensures TrimSpace(t) == t != "" && ConfigAccepted(cleaned[t])
  {
    var name :| CleanedFrom(configs, name, t, cleaned[t]);
    TrimSpaceTrims(name);
    TrimSpaceTrims(t);
    ConfigNormalizedTwice(configs[name], cleaned[t], cleaned[t]);
  }

  lemma CleanedAgainAt(configs: map<string, Config>, cleaned: map<string, Config>, again: map<string, Config>,
                       t: string)
    requires NamesAccepted(configs) && Cleaned(configs, cleaned) && Cleaned(cleaned, again) && t in again
    ensures t in cleaned && again[t] == cleaned[t]
  {
    var name :| CleanedFrom(cleaned, name, t, again[t]);
    CleanedIsAccepted(configs, cleaned, name);
    var raw :| CleanedFrom(configs, raw, t, cleaned[t]);
    ConfigNormalizedTwice(configs[raw], cleaned[t], again[t]);
  }

  lemma CleanedAgain(configs: map<string, Config>, cleaned: map<string, Config>, again: map<string, Config>)
    requires NamesAccepted(configs) && Cleaned(configs, cleaned) && Cleaned(cleaned, again)
    ensures SameEntries(cleaned, again)
  {
    forall t | t in again ensures t in cleaned && again[t] == cleaned[t] {
      CleanedAgainAt(configs, cleaned, again, t);
    }
    forall t | t in cleaned ensures t in again {
      CleanedIsAccepted(configs, cleaned, t);
      assert TrimSpace(t) in again;
    }
  }

  ghost predicate SameEntries<T>(a: map<string, T>, b: map<string, T>)
  {
    (forall t :: t in b ==> t in a && b[t] == a[t]) && (forall t :: t in a ==> t in b)
  }

  lemma SameMaps<T>(a: map<string, T>, b: map<string, T>)
    requires SameEntries(a, b)
    ensures a == b
  {
  }

  lemma StoredAgain(configs: map<string, Config>, cleaned: map<string, Config>, r: Result<Stored>)
    requires NamesAccepted(configs) && Cleaned(configs, cleaned) && ConfigsOk(cleaned) && StoredAs(cleaned, r)
    ensures r == Ok(Marshal(cleaned))
  {
    var again: map<string, Config> :| Cleaned(cleaned, again)
                                      && r == if ConfigsOk(again) then Ok(Marshal(again)) else Err;
    CleanedAgain(configs, cleaned, again);
    SameMaps(cleaned, again);
  }

  lemma CleanedAccepted(configs: map<string, Config>, cleaned: map<string, Config>)
    requires NamesAccepted(configs) && Cleaned(configs, cleaned)
    ensures NamesAccepted(cleaned)
  {
    forall t | t in cleaned ensures TrimSpace(t) != "" && ConfigAccepted(cleaned[t]) {
      CleanedIsAccepted(configs, cleaned, t);
    }
  }

  lemma SetAgain(configs: map<string, Config>, cleaned: map<string, Config>, r: Result<Stored>)
    requires NamesAccepted(configs) && Cleaned(configs, cleaned) && ConfigsOk(cleaned) && SetTo(cleaned, r)
    ensures r == Ok(Marshal(cleaned))
  {
    if cleaned != map[] {
      CleanedAccepted(configs, cleaned);
      StoredAgain(configs, cleaned, r);
    }
  }

  /** Reading configurations back and storing them again, whatever is chosen, stores the same. */
  lemma StoringTwice(configs: map<string, Config>, s: Stored, r: Result<Stored>)
    requires SetTo(configs, Ok(s)) && SetTo(Configs(s), r)
    ensures r == Ok(s)
  {
    if configs != map[] {
      var cleaned: map<string, Config> :| Cleaned(configs, cleaned)
                                          && Ok(s) == if ConfigsOk(cleaned) then Ok(Marshal(cleaned)) else Err;
      ConfigsOfMarshal(cleaned);
      SetAgain(configs, cleaned, r);
    }
  }
}
