/** The start-up migration of channel pricing: from the old record format, then from the historical ratio columns. */
module PricingMigration {
  import opened Wrappers
  import opened Text
  import opened PricingKeys
  import opened Pricing

  /** One model's object as stored: every field either format knows. */
  datatype Record = Record(config: Config, imagePriceUsd: real)

  /** What the model_configs column holds: nothing (null, empty or `{}`), text that is not JSON, JSON of another
      kind, or an object, which either format may fail to decode. */
  datatype Stored = Nothing | NotJson | NotObject
    | Object(records: map<string, Record>, newDecodes: bool, oldDecodes: bool)

  /** A historical ratio column: nothing, text that is not JSON, or an object. Decoding an object with a value of
      the wrong type reports an error but leaves the map filled (`clean` is false). */
  datatype Ratios = Absent | Broken | Decoded(values: map<string, real>, clean: bool)

  /** The map as the format step sees it: none after any error. */
  function IfClean(r: Ratios): map<string, real>
  {
    if r.Decoded? && r.clean then r.values else map[]
  }

  /** The map as the historical step uses it: whatever has been filled in. */
  function Filled(r: Ratios): map<string, real>
  {
    if r.Decoded? then r.values else map[]
  }

  /** The records read in the new format; nothing on error. */
  function Configs(s: Stored): map<string, Config>
  {
    if s.Object? && s.newDecodes then map name | name in s.records :: s.records[name].config else map[]
  }

  /** The text a set of configurations is written as: `{}` when there are none. */
  function Marshal(configs: map<string, Config>): Stored
  {
    if configs == map[] then Nothing else Object(map name | name in configs :: Record(configs[name], 0.0), true, true)
  }

  lemma ConfigsOfMarshal(configs: map<string, Config>)
    ensures Configs(Marshal(configs)) == configs
  {
  }

  ghost predicate AnyPricing(configs: map<string, Config>)
  {
    exists name :: name in configs && configs[name].HasPricing()
  }

  // ----- storing configurations -----

  predicate NamesAccepted(configs: map<string, Config>)
  {
    forall name :: name in configs ==> TrimSpace(name) != "" && ConfigAccepted(configs[name])
  }

  /** Names are trimmed; of names that run together either record may be kept. */
  ghost predicate Cleaned(configs: map<string, Config>, r: map<string, Config>)
  {
    && (forall name :: name in configs ==> TrimSpace(name) in r)
    && (forall t :: t in r ==> exists name :: CleanedFrom(configs, name, t, r[t]))
  }

  ghost predicate CleanedFrom(configs: map<string, Config>, name: string, t: string, c: Config)
  {
    name in configs && TrimSpace(name) == t && ConfigNormalized(configs[name], c)
  }

  /** The outcomes of storing configurations. */
  ghost predicate SetTo(configs: map<string, Config>, r: Result<Stored>)
  {
    if configs == map[] then r == Ok(Nothing)
    else if !NamesAccepted(configs) then r.Err?
    else StoredAs(configs, r)
  }

  ghost predicate StoredAs(configs: map<string, Config>, r: Result<Stored>)
  {
    exists cleaned :: Cleaned(configs, cleaned) && r == if ConfigsOk(cleaned) then Ok(Marshal(cleaned)) else Err
  }

  // ----- the format step -----

  predicate OldRecordsOk(records: map<string, Record>)
  {
    forall name :: name in records ==> name != "" && records[name].config.maxTokens >= 0
  }

  predicate NoNegative(ratios: map<string, real>)
  {
    forall name :: name in ratios && name != "" ==> ratios[name] >= 0.0
  }

  predicate OldImagesAccepted(records: map<string, Record>)
  {
    forall name :: name in records && records[name].config.image.Some? ==>
      ImageAccepted(records[name].config.image.value)
  }

  function RatioOf(ratios: map<string, real>, name: string): real
  {
    if name in ratios then ratios[name] else 0.0
  }

  function NonEmpty(names: set<string>): set<string>
  {
    names - {""}
  }

  /** One record carried over: its token limit, its image prices and the ratios of the historical columns. */
  ghost predicate CarriedOver(records: map<string, Record>, ratios: map<string, real>, completions: map<string, real>,
                              name: string, c: Config)
  {
    && c == NO_CONFIG.(maxTokens := if name in records then records[name].config.maxTokens else 0,
                       ratio := RatioOf(ratios, name), completionRatio := RatioOf(completions, name), image := c.image)
    && if name in records && records[name].config.image.Some? then
         c.image.Some? && ImageNormalized(records[name].config.image.value, c.image.value)
       else if name in records && records[name].imagePriceUsd > 0.0 then
         c.image == Some(NO_IMAGE.(pricePerImageUsd := records[name].imagePriceUsd))
       else c.image.None?
  }

  ghost predicate Converted(records: map<string, Record>, ratios: map<string, real>, completions: map<string, real>,
                            r: map<string, Config>)
  {
    && r.Keys == NonEmpty(records.Keys + ratios.Keys + completions.Keys)
    && forall name :: name in r ==> CarriedOver(records, ratios, completions, name, r[name])
  }

  /** A channel's pricing columns. */
  datatype Columns = Columns(stored: Stored, modelRatio: Ratios, completionRatio: Ratios)

  predicate ConversionAccepted(x: Columns)
    requires x.stored.Object?
  {
    && x.stored.oldDecodes && OldRecordsOk(x.stored.records) && OldImagesAccepted(x.stored.records)
    && NoNegative(IfClean(x.modelRatio)) && NoNegative(IfClean(x.completionRatio))
  }

  ghost predicate ConvertsTo(records: map<string, Record>, ratios: map<string, real>, completions: map<string, real>,
                             r: Result<Stored>)
  {
    exists converted :: Converted(records, ratios, completions, converted)
                        && r == if ConfigsOk(converted) then Ok(Marshal(converted)) else Err
  }

  /** The outcomes of the format step. */
  ghost predicate FormatTo(x: Columns, r: Result<Stored>)
  {
    match x.stored
    case Nothing => r == Ok(Nothing)
    case NotJson => r.Err?
    case NotObject => r.Err?
    case Object(records, newDecodes, oldDecodes) =>
      if newDecodes && !ConfigsOk(Configs(x.stored)) then r.Err?
      else if newDecodes && AnyPricing(Configs(x.stored)) then r == Ok(x.stored)
      else if !ConversionAccepted(x) then r.Err?
      else ConvertsTo(records, IfClean(x.modelRatio), IfClean(x.completionRatio), r)
  }

  // ----- the historical step -----

  predicate Usable(ratios: map<string, real>, name: string)
  {
    name in ratios && ratios[name] >= 0.0
  }

  /** The record of one model with the historical ratios put in. */
  function Merge(existing: map<string, Config>, ratios: map<string, real>, completions: map<string, real>,
                 name: string): Config
  {
    var c := if name in existing then existing[name] else NO_CONFIG;
    var c' := if Usable(ratios, name) then c.(ratio := ratios[name]) else c;
    if Usable(completions, name) then c'.(completionRatio := completions[name]) else c'
  }

  predicate WorthKeeping(c: Config)
  {
    c.HasPricing() || c.maxTokens != 0
  }

  function Candidates(existing: map<string, Config>, ratios: map<string, real>,
                      completions: map<string, real>): set<string>
  {
    NonEmpty((set name | name in ratios && ratios[name] >= 0.0)
      + (set name | name in completions && completions[name] >= 0.0) + existing.Keys)
  }

  function Merged(existing: map<string, Config>, ratios: map<string, real>,
                  completions: map<string, real>): map<string, Config>
  {
    map name | name in Candidates(existing, ratios, completions)
      && WorthKeeping(Merge(existing, ratios, completions, name))
      :: Merge(existing, ratios, completions, name)
  }

  /** The outcomes of the historical step. */
  ghost predicate HistoricalTo(x: Columns, r: Result<Stored>)
  {
    if MergesNothing(Configs(x.stored), Filled(x.modelRatio), Filled(x.completionRatio)) then r == Ok(x.stored)
    else SetTo(Merged(Configs(x.stored), Filled(x.modelRatio), Filled(x.completionRatio)), r)
  }

  ghost predicate MergesNothing(existing: map<string, Config>, ratios: map<string, real>,
                                completions: map<string, real>)
  {
    (ratios == map[] && completions == map[]) || AnyPricing(existing) || Merged(existing, ratios, completions) == map[]
  }

  // ----- the migration of one channel -----

  /** What the migration of one channel leaves in the database, when saving succeeds. */
  ghost predicate MigratesTo(x: Columns, z: Stored)
  {
    exists formatted :: FormatTo(x, formatted) && FinishesAs(x, formatted, z)
  }

  ghost predicate FinishesAs(x: Columns, formatted: Result<Stored>, z: Stored)
  {
    if formatted.Err? then z == x.stored
    else exists merged :: HistoricalTo(x.(stored := formatted.value), merged) && SavedAs(x.stored, merged, z)
  }

  /** After any error the column keeps what it held. */
  ghost predicate SavedAs(before: Stored, merged: Result<Stored>, z: Stored)
  {
    z == if merged.Ok? && ConfigsOk(Configs(merged.value)) then merged.value else before
  }

  // ----- records that normalizing leaves alone -----

  /** Valid configurations that only limit tokens and price images, with normalized image records. */
  ghost predicate LimitsOnly(configs: map<string, Config>)
  {
    forall name :: name in configs ==> name != "" && LimitOnly(configs[name])
  }

  ghost predicate LimitOnly(c: Config)
  {
    && ConfigOk(c) && c == NO_CONFIG.(maxTokens := c.maxTokens, image := c.image)
    && (c.image.Some? ==> ImageFixed(c.image.value))
  }

  lemma FixedImageOk(i: Image)
    requires ImageFixed(i)
    ensures ImageOk(i)
  {
    forall k | k in i.sizeMultipliers ensures TrimSpace(k) != "" {
      SizeKeyIdempotent(k);
    }
    forall k | k in i.qualityMultipliers ensures TrimSpace(k) != "" {
      QualityKeyIdempotent(k);
    }
    forall q | q in i.qualitySizeMultipliers ensures TrimSpace(q) != "" && MultipliersOk(i.qualitySizeMultipliers[q]) {
      QualityKeyIdempotent(q);
      forall k | k in i.qualitySizeMultipliers[q] ensures TrimSpace(k) != "" {
        SizeKeyIdempotent(k);
      }
    }
  }

  /** Whatever is chosen, the same kinds of data remain. */
  lemma ImageDataAgrees(i: Image, r1: Image, r2: Image)
    requires ImageNormalized(i, r1) && ImageNormalized(i, r2)
    ensures HasImageData(Some(r1)) <==> HasImageData(Some(r2))
  {
    EmptyAgrees(i.sizeMultipliers, NormalizeImageSizeKey, r1.sizeMultipliers);
    EmptyAgrees(i.sizeMultipliers, NormalizeImageSizeKey, r2.sizeMultipliers);
    EmptyAgrees(i.qualityMultipliers, NormalizeImageQualityKey, r1.qualityMultipliers);
    EmptyAgrees(i.qualityMultipliers, NormalizeImageQualityKey, r2.qualityMultipliers);
    TablesEmptyAgrees(i.qualitySizeMultipliers, r1.qualitySizeMultipliers);
    TablesEmptyAgrees(i.qualitySizeMultipliers, r2.qualitySizeMultipliers);
  }

  lemma EmptyAgrees(raw: map<string, real>, rule: KeyRule, r: map<string, real>)
    requires Rekeyed(raw, rule, r)
    ensures r == map[] <==> raw == map[]
  {
    if raw != map[] {
      var k :| k in raw;
      assert rule(k) in r;
    }
  }

  lemma TablesEmptyAgrees(raw: map<string, map<string, real>>, r: map<string, map<string, real>>)
    requires QualitySizesRekeyed(raw, r)
    ensures r == map[] <==> forall q :: q in raw ==> raw[q] == map[]
  {
    if r != map[] {
      var t :| t in r;
      var q :| TableOf(raw, q, t, r[t]);
    }
  }

  /** The record prices images or limits them, empty tables not counting. */
  predicate HasRawImageData(i: Image)
  {
    || i.pricePerImageUsd > 0.0 || i.promptRatio > 0.0 || i.promptTokenLimit > 0 || i.minImages > 0 || i.maxImages > 0
    || i.sizeMultipliers != map[] || i.qualityMultipliers != map[]
    || exists q :: q in i.qualitySizeMultipliers && i.qualitySizeMultipliers[q] != map[]
  }

  lemma NormalizedKeepsData(i: Image, r: Image)
    requires ImageNormalized(i, r)
    ensures HasImageData(Some(r)) <==> HasRawImageData(i)
  {
    EmptyAgrees(i.sizeMultipliers, NormalizeImageSizeKey, r.sizeMultipliers);
    EmptyAgrees(i.qualityMultipliers, NormalizeImageQualityKey, r.qualityMultipliers);
    TablesEmptyAgrees(i.qualitySizeMultipliers, r.qualitySizeMultipliers);
  }

  // ----- what the format step comes to -----

  lemma CarriedImageFixed(records: map<string, Record>, ratios: map<string, real>, completions: map<string, real>,
                          name: string, c: Config)
    requires OldImagesAccepted(records) && CarriedOver(records, ratios, completions, name, c) && c.image.Some?
    ensures ImageFixed(c.image.value)
  {
    if name in records && records[name].config.image.Some? {
      NormalizedIsFixed(records[name].config.image.value, c.image.value);
    } else {
      assert TrimSpace("") == "" && NormalizeImageSizeKey("") == "" && NormalizeImageQualityKey("") == "";
    }
  }

  /** Two conversions of the same columns differ in the choices within image records only. */
  lemma CarriedAgree(records: map<string, Record>, ratios: map<string, real>, completions: map<string, real>,
                     name: string, c1: Config, c2: Config)
    requires OldImagesAccepted(records)
    requires CarriedOver(records, ratios, completions, name, c1) && CarriedOver(records, ratios, completions, name, c2)
    ensures c2 == c1.(image := c2.image) && c1.image.Some? == c2.image.Some?
    ensures ConfigOk(c1) <==> ConfigOk(c2)
  {
    if c1.image.Some? {
      CarriedImageFixed(records, ratios, completions, name, c1);
      CarriedImageFixed(records, ratios, completions, name, c2);
      FixedImageOk(c1.image.value);
      FixedImageOk(c2.image.value);
      if name in records && records[name].config.image.Some? {
        ImageDataAgrees(records[name].config.image.value, c1.image.value, c2.image.value);
      }
    }
  }

  lemma ConvertedAgree(records: map<string, Record>, ratios: map<string, real>, completions: map<string, real>,
                       c1: map<string, Config>, c2: map<string, Config>)
    requires OldImagesAccepted(records)
    requires Converted(records, ratios, completions, c1) && Converted(records, ratios, completions, c2)
    ensures SameButImages(c1, c2) && (ConfigsOk(c1) <==> ConfigsOk(c2))
  {
    forall name | name in c1
      ensures c2[name] == c1[name].(image := c2[name].image) && (ConfigOk(c1[name]) <==> ConfigOk(c2[name]))
    {
      CarriedAgree(records, ratios, completions, name, c1[name], c2[name]);
    }
  }

  ghost predicate SameButImages(c1: map<string, Config>, c2: map<string, Config>)
  {
    c1.Keys == c2.Keys && forall name :: name in c1 ==> c2[name] == c1[name].(image := c2[name].image)
  }

  /** Whether the format step succeeds does not depend on the choices made, and what it leaves
      depends on them in image records only. */
  lemma FormatAgrees(x: Columns, r1: Result<Stored>, r2: Result<Stored>)
    requires FormatTo(x, r1) && FormatTo(x, r2)
    ensures r1.Ok? == r2.Ok?
    ensures r1.Ok? ==> SameButImages(Configs(r1.value), Configs(r2.value))
  {
    if x.stored.Object? && ConversionAccepted(x)
       && !(x.stored.newDecodes && (!ConfigsOk(Configs(x.stored)) || AnyPricing(Configs(x.stored))))
    {
      var records, ratios, completions := x.stored.records, IfClean(x.modelRatio), IfClean(x.completionRatio);
      var c1 :| Converted(records, ratios, completions, c1) && r1 == if ConfigsOk(c1) then Ok(Marshal(c1)) else Err;
      var c2 :| Converted(records, ratios, completions, c2) && r2 == if ConfigsOk(c2) then Ok(Marshal(c2)) else Err;
      ConvertedAgree(records, ratios, completions, c1, c2);
      ConfigsOfMarshal(c1);
      ConfigsOfMarshal(c2);
    }
  }

  /** The historical columns, as the format step sees them, hold nothing but zeros. */
  ghost predicate ZeroWhereClean(x: Columns)
  {
    AllZero(IfClean(x.modelRatio), IfClean(x.completionRatio))
  }

  ghost predicate AllZero(ratios: map<string, real>, completions: map<string, real>)
  {
    forall name :: name != "" ==> RatioOf(ratios, name) == 0.0 && RatioOf(completions, name) == 0.0
  }

  /** What is in the column is in the new format: valid, and priced or a mere conversion. */
  ghost predicate Formatted(x: Columns, y: Stored)
  {
    || y == Nothing
    || (y.Object? && y.newDecodes && ConfigsOk(Configs(y)) && AnyPricing(Configs(y)))
    || (y == Marshal(Configs(y)) && LimitsOnly(Configs(y)) && ZeroWhereClean(x))
  }

  lemma ConvertedLimitsOnly(records: map<string, Record>, ratios: map<string, real>, completions: map<string, real>,
                            c: map<string, Config>)
    requires OldImagesAccepted(records) && Converted(records, ratios, completions, c) && ConfigsOk(c) && !AnyPricing(c)
    ensures LimitsOnly(c) && AllZero(ratios, completions)
  {
    forall name | name in c
      ensures LimitOnly(c[name]) && RatioOf(ratios, name) == 0.0 && RatioOf(completions, name) == 0.0
    {
      assert CarriedOver(records, ratios, completions, name, c[name]);
      assert !c[name].HasPricing();
      if c[name].image.Some? {
        CarriedImageFixed(records, ratios, completions, name, c[name]);
      }
    }
    forall name | name != "" && name !in c ensures RatioOf(ratios, name) == 0.0 && RatioOf(completions, name) == 0.0 {
      assert name !in NonEmpty(records.Keys + ratios.Keys + completions.Keys);
    }
  }

  lemma FormatFormats(x: Columns, y: Stored)
    requires FormatTo(x, Ok(y))
    ensures Formatted(x, y)
  {
    if x.stored.Object? && !(x.stored.newDecodes && AnyPricing(Configs(x.stored))) {
      ConversionFormats(x, y);
    }
  }

  lemma ConversionFormats(x: Columns, y: Stored)
    requires x.stored.Object? && OldImagesAccepted(x.stored.records)
    requires ConvertsTo(x.stored.records, IfClean(x.modelRatio), IfClean(x.completionRatio), Ok(y))
    ensures Formatted(x, y)
  {
    var records, ratios, completions := x.stored.records, IfClean(x.modelRatio), IfClean(x.completionRatio);
    var c: map<string, Config> :| Converted(records, ratios, completions, c)
                                  && Ok(y) == if ConfigsOk(c) then Ok(Marshal(c)) else Err;
    if !AnyPricing(c) {
      ConvertedLimitsOnly(records, ratios, completions, c);
    }
    ConvertedIsFormatted(x, c);
  }

  lemma ConvertedIsFormatted(x: Columns, c: map<string, Config>)
    requires ConfigsOk(c) && (AnyPricing(c) || (LimitsOnly(c) && ZeroWhereClean(x)))
    ensures Formatted(x, Marshal(c))
  {
    ConfigsOfMarshal(c);
  }

  /** The old record says something besides a price per token. */
  predicate SaysSomething(r: Record)
  {
    || r.config.maxTokens != 0
    || if r.config.image.Some? then HasRawImageData(r.config.image.value) else r.imagePriceUsd > 0.0
  }

  /** The format step succeeds and leaves no price per token, stated on the columns: nothing is stored, or an object
      that is no valid priced configuration but has valid old records that all say something, while the ratio columns
      that decode cleanly hold nothing but zeros for models with such a record. */
  ghost predicate LeavesUnpriced(x: Columns)
  {
    match x.stored
    case Nothing => true
    case NotJson => false
    case NotObject => false
    case Object(records, newDecodes, _) =>
      && (newDecodes ==> ConfigsOk(Configs(x.stored)) && !AnyPricing(Configs(x.stored)))
      && ConversionAccepted(x) && MereRecords(records, IfClean(x.modelRatio), IfClean(x.completionRatio))
  }

  lemma CarryingExists(records: map<string, Record>, ratios: map<string, real>, completions: map<string, real>,
                       name: string) returns (c: Config)
    ensures CarriedOver(records, ratios, completions, name, c)
  {
    var image := None;
    if name in records && records[name].config.image.Some? {
      var normal := NormalFormExists(records[name].config.image.value);
      image := Some(normal);
    } else if name in records && records[name].imagePriceUsd > 0.0 {
      image := Some(NO_IMAGE.(pricePerImageUsd := records[name].imagePriceUsd));
    }
    c := NO_CONFIG.(maxTokens := if name in records then records[name].config.maxTokens else 0,
                    ratio := RatioOf(ratios, name), completionRatio := RatioOf(completions, name), image := image);
  }

  lemma {:induction false} ConversionExists(records: map<string, Record>, ratios: map<string, real>,
                                            completions: map<string, real>, names: set<string>)
      returns (c: map<string, Config>)
    ensures c.Keys == names && forall name :: name in c ==> CarriedOver(records, ratios, completions, name, c[name])
  {
    if names == {} {
      c := map[];
    } else {
      var name :| name in names;
      var rest := ConversionExists(records, ratios, completions, names - {name});
      var record := CarryingExists(records, ratios, completions, name);
      c := rest[name := record];
    }
  }

  /** An unpriced record carried over is valid exactly when the old one says something. */
  lemma CarriedOkIff(records: map<string, Record>, ratios: map<string, real>, completions: map<string, real>,
                     name: string, c: Config)
    requires OldImagesAccepted(records) && CarriedOver(records, ratios, completions, name, c)
    requires name in records ==> records[name].config.maxTokens >= 0
    requires RatioOf(ratios, name) == 0.0 && RatioOf(completions, name) == 0.0
    ensures !c.HasPricing() && (ConfigOk(c) <==> name in records && SaysSomething(records[name]))
  {
    if c.image.Some? {
      CarriedImageFixed(records, ratios, completions, name, c);
      FixedImageOk(c.image.value);
      if name in records && records[name].config.image.Some? {
        NormalizedKeepsData(records[name].config.image.value, c.image.value);
      }
    }
  }

  /** Zero ratios, for models that have a record, and records that all say something. */
  ghost predicate MereRecords(records: map<string, Record>, ratios: map<string, real>, completions: map<string, real>)
  {
    && AllZero(ratios, completions) && NonEmpty(ratios.Keys + completions.Keys) <= records.Keys
    && forall name :: name in records ==> SaysSomething(records[name])
  }

  lemma UnpricedSaysSomething(records: map<string, Record>, ratios: map<string, real>, completions: map<string, real>,
                              c: map<string, Config>)
    requires OldRecordsOk(records) && OldImagesAccepted(records)
    requires Converted(records, ratios, completions, c) && ConfigsOk(c) && !AnyPricing(c)
    ensures MereRecords(records, ratios, completions)
  {
    ConvertedLimitsOnly(records, ratios, completions, c);
    forall name | name in c ensures name in records && SaysSomething(records[name]) {
      CarriedOkIff(records, ratios, completions, name, c[name]);
    }
    forall name | name in records ensures name in c {
    }
    forall name | name in NonEmpty(ratios.Keys + completions.Keys) ensures name in c {
    }
  }

  lemma MereRecordsConvert(records: map<string, Record>, ratios: map<string, real>, completions: map<string, real>)
      returns (c: map<string, Config>)
    requires OldRecordsOk(records) && OldImagesAccepted(records) && MereRecords(records, ratios, completions)
    ensures Converted(records, ratios, completions, c) && ConfigsOk(c) && !AnyPricing(c)
  {
    c := ConversionExists(records, ratios, completions, NonEmpty(records.Keys + ratios.Keys + completions.Keys));
    forall name | name in c ensures ConfigOk(c[name]) && !c[name].HasPricing() {
      CarriedOkIff(records, ratios, completions, name, c[name]);
    }
  }

  lemma ConvertsUnpricedIff(records: map<string, Record>, ratios: map<string, real>, completions: map<string, real>)
    requires OldRecordsOk(records) && OldImagesAccepted(records)
    ensures (exists y :: ConvertsTo(records, ratios, completions, Ok(y)) && !AnyPricing(Configs(y))) <==>
              MereRecords(records, ratios, completions)
  {
    if y :| ConvertsTo(records, ratios, completions, Ok(y)) && !AnyPricing(Configs(y)) {
      var c: map<string, Config> :| Converted(records, ratios, completions, c)
                                    && Ok(y) == if ConfigsOk(c) then Ok(Marshal(c)) else Err;
      ConfigsOfMarshal(c);
      UnpricedSaysSomething(records, ratios, completions, c);
    }
    if MereRecords(records, ratios, completions) {
      var c := MereRecordsConvert(records, ratios, completions);
      ConfigsOfMarshal(c);
      assert ConvertsTo(records, ratios, completions, Ok(Marshal(c)));
    }
  }

  /** Whether the format step leaves no price per token can be read off the columns. */
  lemma LeavesUnpricedIff(x: Columns)
    ensures (exists y :: FormatTo(x, Ok(y)) && !AnyPricing(Configs(y))) <==> LeavesUnpriced(x)
  {
    if x.stored.Nothing? {
      assert FormatTo(x, Ok(Nothing)) && !AnyPricing(Configs(Nothing));
    }
    if x.stored.Object? && ConversionAccepted(x) {
      ConvertsUnpricedIff(x.stored.records, IfClean(x.modelRatio), IfClean(x.completionRatio));
      if LeavesUnpriced(x) {
        var y :| ConvertsTo(x.stored.records, IfClean(x.modelRatio), IfClean(x.completionRatio), Ok(y))
                 && !AnyPricing(Configs(y));
        assert FormatTo(x, Ok(y));
      }
    }
  }

  function CleanNames(x: Columns): set<string>
  {
    NonEmpty(IfClean(x.modelRatio).Keys + IfClean(x.completionRatio).Keys)
  }

  /** Mere limits are converted to themselves, or not at all: a name that only the ratio columns know has no data. */
  lemma LimitsConvert(x: Columns, c: map<string, Config>, r: Result<Stored>)
    requires x.stored == Marshal(c) && LimitsOnly(c) && (c == map[] || ZeroWhereClean(x))
    requires FormatTo(x, r)
    ensures r.Ok? ==> r.value == x.stored && (c != map[] ==> CleanNames(x) <= c.Keys)
  {
    if c != map[] && r.Ok? {
      ConfigsOfMarshal(c);
      var records, ratios, completions := x.stored.records, IfClean(x.modelRatio), IfClean(x.completionRatio);
      var d: map<string, Config> :| Converted(records, ratios, completions, d)
                                    && r == if ConfigsOk(d) then Ok(Marshal(d)) else Err;
      ConvertedLimits(c, ratios, completions, d);
    }
  }

  lemma ConvertedLimits(c: map<string, Config>, ratios: map<string, real>, completions: map<string, real>,
                        d: map<string, Config>)
    requires c != map[] && LimitsOnly(c)
    requires AllZero(ratios, completions)
    requires Converted(Marshal(c).records, ratios, completions, d) && ConfigsOk(d)
    ensures d == c && NonEmpty(ratios.Keys + completions.Keys) <= c.Keys
  {
    forall name | name in d ensures name in c && d[name] == c[name] {
      LimitConverts(c, ratios, completions, name, d[name]);
    }
    forall name | name in c ensures name in d {
      assert name in Marshal(c).records;
    }
    forall name | name in NonEmpty(ratios.Keys + completions.Keys) ensures name in c {
      assert name in d;
    }
  }

  lemma LimitConverts(c: map<string, Config>, ratios: map<string, real>, completions: map<string, real>, name: string,
                      d: Config)
    requires LimitsOnly(c) && c != map[] && RatioOf(ratios, name) == 0.0 && RatioOf(completions, name) == 0.0
    requires CarriedOver(Marshal(c).records, ratios, completions, name, d) && ConfigOk(d)
    ensures name in c && d == c[name]
  {
    if name in c && c[name].image.Some? {
      FixedNormalizesToItself(c[name].image.value, d.image.value);
    }
  }

  // ----- where the figures of a migrated record come from -----

  /** What the column holds under this name, in the format the new records have. */
  ghost predicate StoredUnder(s: Stored, name: string, c: Config)
  {
    s.Object? && s.newDecodes && name in s.records && s.records[name].config == c
  }

  /** A nonnegative value of the column under this name, if it has one, and what was there before otherwise. */
  ghost predicate Overrides(column: Ratios, name: string, before: real, after: real)
  {
    if column.Decoded? && name in column.values && column.values[name] >= 0.0 then after == column.values[name]
    else after == before
  }

  /** The record takes each of its two ratios from the column of that ratio under this one name, and everything that
      storing does not normalize from what was stored under the same name. */
  ghost predicate TakenFrom(x: Columns, name: string, t: string, c: Config)
  {
    exists was ::
      && (StoredUnder(x.stored, name, was) || (was == NO_CONFIG && forall other :: !StoredUnder(x.stored, name, other)))
      && TrimSpace(name) == t != ""
      && Overrides(x.modelRatio, name, was.ratio, c.ratio)
      && Overrides(x.completionRatio, name, was.completionRatio, c.completionRatio)
      && c.maxTokens == was.maxTokens && c.tiers == was.tiers && c.audio == was.audio
      && c.cachedInputRatio == was.cachedInputRatio && c.cacheWrite5mRatio == was.cacheWrite5mRatio
      && c.cacheWrite1hRatio == was.cacheWrite1hRatio
      && c.video.Some? == was.video.Some? && c.image.Some? == was.image.Some?
  }

  /** The column gives this name a price that is not zero. */
  ghost predicate Prices(column: Ratios, name: string)
  {
    column.Decoded? && name in column.values && column.values[name] > 0.0
  }

  /** A stored record already has a price per token. */
  ghost predicate StoresPrice(s: Stored)
  {
    exists name, c :: StoredUnder(s, name, c) && (c.ratio != 0.0 || c.completionRatio != 0.0)
  }

  lemma HistoricalOf(x: Columns, name: string) returns (was: Config)
    ensures StoredUnder(x.stored, name, was)
            || (was == NO_CONFIG && forall other :: !StoredUnder(x.stored, name, other))
    ensures was == if name in Configs(x.stored) then Configs(x.stored)[name] else NO_CONFIG
  {
    was := if name in Configs(x.stored) then Configs(x.stored)[name] else NO_CONFIG;
  }

  lemma MergeTakes(x: Columns, name: string, c: Config)
    requires TrimSpace(name) != ""
    requires ConfigNormalized(Merge(Configs(x.stored), Filled(x.modelRatio), Filled(x.completionRatio), name), c)
    ensures TakenFrom(x, name, TrimSpace(name), c)
  {
    var was := HistoricalOf(x, name);
  }

  lemma StoredFrom(configs: map<string, Config>, y: Stored, t: string) returns (name: string)
    requires SetTo(configs, Ok(y)) && t in Configs(y)
    ensures TrimSpace(name) != "" && CleanedFrom(configs, name, t, Configs(y)[t])
  {
    if configs != map[] {
      var cleaned :| Cleaned(configs, cleaned) && Ok(y) == if ConfigsOk(cleaned) then Ok(Marshal(cleaned)) else Err;
      ConfigsOfMarshal(cleaned);
      name :| CleanedFrom(configs, name, t, cleaned[t]);
    }
  }

  /** When the historical step succeeds, it has either left the column alone, or every record it stores took each ratio
      from its own column under one and the same name. */
  lemma HistoricalTakes(x: Columns, y: Stored, t: string)
    requires HistoricalTo(x, Ok(y)) && y != x.stored && t in Configs(y)
    ensures exists name :: TakenFrom(x, name, t, Configs(y)[t])
  {
    var name := StoredFrom(Merged(Configs(x.stored), Filled(x.modelRatio), Filled(x.completionRatio)), y, t);
    MergeTakes(x, name, Configs(y)[t]);
  }

  lemma StoresPriceIff(s: Stored)
    ensures StoresPrice(s) <==> AnyPricing(Configs(s))
  {
    if n, c :| StoredUnder(s, n, c) && (c.ratio != 0.0 || c.completionRatio != 0.0) {
      assert Configs(s)[n].HasPricing();
    }
    if n :| n in Configs(s) && Configs(s)[n].HasPricing() {
      assert StoredUnder(s, n, Configs(s)[n]);
    }
  }

  lemma StoringCovers(configs: map<string, Config>, y: Stored, name: string)
    requires SetTo(configs, Ok(y)) && name in configs
    ensures TrimSpace(name) in Configs(y)
  {
    var cleaned :| Cleaned(configs, cleaned) && Ok(y) == if ConfigsOk(cleaned) then Ok(Marshal(cleaned)) else Err;
    ConfigsOfMarshal(cleaned);
  }

  lemma PriceIsMerged(existing: map<string, Config>, ratios: map<string, real>, completions: map<string, real>,
                      name: string)
    requires name != "" && ((name in ratios && ratios[name] > 0.0) || (name in completions && completions[name] > 0.0))
    ensures name in Merged(existing, ratios, completions)
  {
  }

  lemma LimitIsMerged(existing: map<string, Config>, ratios: map<string, real>, completions: map<string, real>,
                      name: string)
    requires name != "" && name in existing && existing[name].maxTokens != 0
    ensures name in Merged(existing, ratios, completions)
  {
  }

  /** It leaves the column alone when a stored record is priced; otherwise every name that a column prices has a record
      afterwards ... */
  lemma HistoricalCovers(x: Columns, y: Stored, name: string)
    requires HistoricalTo(x, Ok(y)) && name != ""
    ensures StoresPrice(x.stored) ==> y == x.stored
    ensures !StoresPrice(x.stored) && (Prices(x.modelRatio, name) || Prices(x.completionRatio, name)) ==>
              TrimSpace(name) in Configs(y)
  {
    StoresPriceIff(x.stored);
    var existing, ratios, completions := Configs(x.stored), Filled(x.modelRatio), Filled(x.completionRatio);
    if !StoresPrice(x.stored) && (Prices(x.modelRatio, name) || Prices(x.completionRatio, name)) {
      PriceIsMerged(existing, ratios, completions, name);
      StoringCovers(Merged(existing, ratios, completions), y, name);
    }
  }

  /** ... and so has every name stored with a token limit, unless both columns are empty. */
  lemma HistoricalKeepsLimits(x: Columns, y: Stored, name: string, c: Config)
    requires HistoricalTo(x, Ok(y)) && !StoresPrice(x.stored)
    requires name != "" && StoredUnder(x.stored, name, c) && c.maxTokens != 0
    requires (x.modelRatio.Decoded? && x.modelRatio.values != map[])
             || (x.completionRatio.Decoded? && x.completionRatio.values != map[])
    ensures TrimSpace(name) in Configs(y)
  {
    StoresPriceIff(x.stored);
    var existing, ratios, completions := Configs(x.stored), Filled(x.modelRatio), Filled(x.completionRatio);
    LimitIsMerged(existing, ratios, completions, name);
    StoringCovers(Merged(existing, ratios, completions), y, name);
  }

  /** The value of a column that decodes cleanly under this name, or zero. */
  ghost predicate CleanValue(column: Ratios, name: string, value: real)
  {
    if column.Decoded? && column.clean && name in column.values then value == column.values[name] else value == 0.0
  }

  lemma FormatConverts(x: Columns, y: Stored) returns (c: map<string, Config>)
    requires FormatTo(x, Ok(y)) && x.stored.Object? && !(x.stored.newDecodes && StoresPrice(x.stored))
    ensures Converted(x.stored.records, IfClean(x.modelRatio), IfClean(x.completionRatio), c) && c == Configs(y)
  {
    StoresPriceIff(x.stored);
    var records, ratios, completions := x.stored.records, IfClean(x.modelRatio), IfClean(x.completionRatio);
    c :| Converted(records, ratios, completions, c) && Ok(y) == if ConfigsOk(c) then Ok(Marshal(c)) else Err;
    ConfigsOfMarshal(c);
  }

  lemma CarriedValues(x: Columns, records: map<string, Record>, name: string, c: Config)
    requires CarriedOver(records, IfClean(x.modelRatio), IfClean(x.completionRatio), name, c)
    ensures CleanValue(x.modelRatio, name, c.ratio) && CleanValue(x.completionRatio, name, c.completionRatio)
  {
  }

  /** When the format step rewrites an object, it keeps a record under exactly the nonempty names of the object and of
      the columns that decode cleanly; each ratio comes from its own column, the token limit and the image prices from
      the old record under the same name. */
  lemma FormatTakes(x: Columns, y: Stored, name: string)
    requires FormatTo(x, Ok(y)) && x.stored.Object? && !(x.stored.newDecodes && StoresPrice(x.stored))
    ensures name in Configs(y) <==>
              name != "" && (|| name in x.stored.records
                             || (x.modelRatio.Decoded? && x.modelRatio.clean && name in x.modelRatio.values)
                             || (x.completionRatio.Decoded? && x.completionRatio.clean
                                 && name in x.completionRatio.values))
    ensures name in Configs(y) ==>
              var c, known := Configs(y)[name], name in x.stored.records;
              && CleanValue(x.modelRatio, name, c.ratio) && CleanValue(x.completionRatio, name, c.completionRatio)
              && c.maxTokens == (if known then x.stored.records[name].config.maxTokens else 0)
              && (known && x.stored.records[name].config.image.Some? ==>
                    c.image.Some? && ImageNormalized(x.stored.records[name].config.image.value, c.image.value))
              && (known && x.stored.records[name].config.image.None? && x.stored.records[name].imagePriceUsd > 0.0 ==>
                    c.image.Some? && c.image.value.pricePerImageUsd == x.stored.records[name].imagePriceUsd)
              && (!known ==> c.image.None?) && c.tiers == [] && c.video.None? && c.audio.None?
  {
    var c := FormatConverts(x, y);
    if name in c {
      CarriedValues(x, x.stored.records, name, c[name]);
    }
  }

  /** The format step fails on anything but an object; on an object in the new format with an invalid record; and,
      unless that is priced, on an object that does not decode in the old format, has a record under the empty name,
      with a negative token limit or with an image record that cannot be normalized, or meets a negative value in a
      column that decodes cleanly. */
  lemma FormatRejects(x: Columns, r: Result<Stored>, name: string)
    requires FormatTo(x, r)
    requires match x.stored
             case Nothing => false
             case Object(records, newDecodes, oldDecodes) =>
               || (newDecodes && exists n :: n in records && (n == "" || !ConfigOk(records[n].config)))
               || (&& !(newDecodes && StoresPrice(x.stored))
                   && (|| !oldDecodes
                       || (name in records && (name == "" || records[name].config.maxTokens < 0
                                               || (records[name].config.image.Some?
                                                   && !ImageAccepted(records[name].config.image.value))))
                       || (exists v :: v < 0.0 && name != "" && (CleanValue(x.modelRatio, name, v)
                                                                || CleanValue(x.completionRatio, name, v)))))
             case _ => true
    ensures r.Err?
  {
    StoresPriceIff(x.stored);
    if x.stored.Object? && x.stored.newDecodes {
      assert forall n :: n in x.stored.records ==> Configs(x.stored)[n] == x.stored.records[n].config;
    }
  }
}
