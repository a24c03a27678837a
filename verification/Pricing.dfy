/** Channel pricing records: what they hold, when they are valid, and how they are normalized.

    Go visits the keys of a map in no fixed order, so normalizing a map whose keys run together may keep either
    value; the results are therefore described by relations. */
module Pricing {
  import opened Wrappers
  import opened Text
  import opened PricingKeys

  datatype Tier = Tier(ratio: real, completionRatio: real, cachedInputRatio: real, cacheWrite5mRatio: real,
                       cacheWrite1hRatio: real, inputTokenThreshold: int)

  datatype Video = Video(perSecondUsd: real, baseResolution: string, resolutionMultipliers: map<string, real>)

  datatype Audio = Audio(promptRatio: real, completionRatio: real, promptTokensPerSecond: real,
                         completionTokensPerSecond: real, usdPerSecond: real)

  datatype Image = Image(pricePerImageUsd: real, promptRatio: real, defaultSize: string, defaultQuality: string,
                         promptTokenLimit: int, minImages: int, maxImages: int,
                         sizeMultipliers: map<string, real>, qualityMultipliers: map<string, real>,
                         qualitySizeMultipliers: map<string, map<string, real>>)

  datatype Embedding = Embedding(prices: seq<real>)

  datatype Config = Config(ratio: real, completionRatio: real, cachedInputRatio: real, cacheWrite5mRatio: real,
                           cacheWrite1hRatio: real, tiers: seq<Tier>, maxTokens: int, video: Option<Video>,
                           audio: Option<Audio>, image: Option<Image>, embedding: Option<Embedding>)
  {
    /** Priced per token, which tells records in the new format from mere limits. */
    predicate HasPricing()
    {
      ratio != 0.0 || completionRatio != 0.0
    }
  }

  const NO_CONFIG := Config(0.0, 0.0, 0.0, 0.0, 0.0, [], 0, None, None, None, None)
  const NO_IMAGE := Image(0.0, 0.0, "", "", 0, 0, 0, map[], map[], map[])

  // ----- validity -----

  predicate MultipliersOk(multipliers: map<string, real>)
  {
    forall k :: k in multipliers ==> TrimSpace(k) != "" && multipliers[k] > 0.0
  }

  predicate TierOk(t: Tier)
  {
    t.inputTokenThreshold >= 0 && t.ratio >= 0.0 && t.completionRatio >= 0.0 && t.cacheWrite5mRatio >= 0.0
      && t.cacheWrite1hRatio >= 0.0
  }

  predicate VideoOk(v: Video)
  {
    v.perSecondUsd >= 0.0 && MultipliersOk(v.resolutionMultipliers)
  }

  predicate HasVideoData(v: Option<Video>)
  {
    v.Some? && (v.value.perSecondUsd > 0.0 || v.value.resolutionMultipliers != map[])
  }

  predicate AudioOk(a: Audio)
  {
    a.promptRatio >= 0.0 && a.completionRatio >= 0.0 && a.promptTokensPerSecond >= 0.0
      && a.completionTokensPerSecond >= 0.0 && a.usdPerSecond >= 0.0
  }

  predicate HasAudioData(a: Option<Audio>)
  {
    a.Some? && (a.value.promptRatio != 0.0 || a.value.completionRatio != 0.0 || a.value.promptTokensPerSecond != 0.0
                || a.value.completionTokensPerSecond != 0.0 || a.value.usdPerSecond != 0.0)
  }

  predicate ImageFiguresOk(i: Image)
  {
    && i.pricePerImageUsd >= 0.0 && i.promptRatio >= 0.0 && i.promptTokenLimit >= 0 && i.minImages >= 0
    && i.maxImages >= 0
    && !(i.minImages > 0 && i.maxImages > 0 && i.minImages > i.maxImages)
  }

  predicate ImageOk(i: Image)
  {
    && ImageFiguresOk(i) && MultipliersOk(i.sizeMultipliers) && MultipliersOk(i.qualityMultipliers)
    && forall q :: q in i.qualitySizeMultipliers ==> TrimSpace(q) != "" && MultipliersOk(i.qualitySizeMultipliers[q])
  }

  predicate HasImageData(i: Option<Image>)
  {
    i.Some? && (i.value.pricePerImageUsd > 0.0 || i.value.promptRatio > 0.0 || i.value.promptTokenLimit > 0
                || i.value.minImages > 0 || i.value.maxImages > 0
                || i.value.sizeMultipliers != map[] || i.value.qualityMultipliers != map[]
                || i.value.qualitySizeMultipliers != map[])
  }

  predicate ConfigOk(c: Config)
  {
    && c.ratio >= 0.0 && c.completionRatio >= 0.0 && c.cacheWrite5mRatio >= 0.0 && c.cacheWrite1hRatio >= 0.0
    && (forall k :: 0 <= k < |c.tiers| ==> TierOk(c.tiers[k]))
    && c.maxTokens >= 0
    && (c.video.Some? ==> VideoOk(c.video.value)) && (c.audio.Some? ==> AudioOk(c.audio.value))
    && (c.image.Some? ==> ImageOk(c.image.value))
    && (|| c.ratio != 0.0 || c.completionRatio != 0.0 || c.cachedInputRatio != 0.0 || c.cacheWrite5mRatio != 0.0
        || c.cacheWrite1hRatio != 0.0 || c.tiers != [] || c.maxTokens != 0
        || HasVideoData(c.video) || HasAudioData(c.audio) || HasImageData(c.image))
  }

  /** No figure is negative. */
  ghost predicate NoneNegative(figures: set<real>)
  {
    forall x :: x in figures ==> x >= 0.0
  }

  /** Every key has a name and every multiplier is positive. */
  ghost predicate NamedPositive(multipliers: map<string, real>)
  {
    forall k :: k in multipliers ==> |TrimSpace(k)| > 0 && 0.0 < multipliers[k]
  }

  /** A record of no figures. */
  ghost function Silent(c: Config): Config
  {
    NO_CONFIG.(video := c.video, audio := c.audio, image := c.image, embedding := c.embedding)
  }

  /** Audio prices are valid when none is negative, and say something when one is not zero. */
  lemma AudioOkIff(a: Audio)
    ensures var figures := {a.promptRatio, a.completionRatio, a.promptTokensPerSecond, a.completionTokensPerSecond,
                            a.usdPerSecond};
            && (AudioOk(a) <==> NoneNegative(figures))
            && (HasAudioData(Some(a)) <==> figures != {0.0})
  {
    var figures := {a.promptRatio, a.completionRatio, a.promptTokensPerSecond, a.completionTokensPerSecond,
                    a.usdPerSecond};
    assert a.promptRatio in figures;
    if NoneNegative(figures) {
      assert && a.completionRatio in figures && a.promptTokensPerSecond in figures
             && a.completionTokensPerSecond in figures && a.usdPerSecond in figures;
    }
    if figures == {0.0} {
      assert && a.completionRatio in figures && a.promptTokensPerSecond in figures
             && a.completionTokensPerSecond in figures && a.usdPerSecond in figures;
    }
  }

  /** Video prices are valid when the price is not negative and the multipliers are named and positive, and then say
      something unless there are neither. */
  lemma VideoOkIff(v: Video)
    ensures VideoOk(v) <==> NoneNegative({v.perSecondUsd}) && NamedPositive(v.resolutionMultipliers)
    ensures VideoOk(v) ==> (HasVideoData(Some(v)) <==> v.(baseResolution := "") != Video(0.0, "", map[]))
  {
    assert v.perSecondUsd in {v.perSecondUsd};
  }

  /** Image prices are valid when no figure is negative, a positive least number of images is at most a positive
      largest one, and all multipliers are named and positive; they then say something unless everything but the
      defaults is missing. */
  lemma ImageOkIff(i: Image)
    ensures ImageOk(i) <==>
              && NoneNegative({i.pricePerImageUsd, i.promptRatio}) && 0 <= i.promptTokenLimit
              && 0 <= i.minImages && 0 <= i.maxImages && (i.minImages <= i.maxImages || i.maxImages == 0)
              && NamedPositive(i.sizeMultipliers) && NamedPositive(i.qualityMultipliers)
              && (forall q :: q in i.qualitySizeMultipliers ==>
                    |TrimSpace(q)| > 0 && NamedPositive(i.qualitySizeMultipliers[q]))
    ensures ImageOk(i) ==> (HasImageData(Some(i)) <==> i.(defaultSize := "", defaultQuality := "") != NO_IMAGE)
  {
    var figures := {i.pricePerImageUsd, i.promptRatio};
    assert i.pricePerImageUsd in figures && i.promptRatio in figures;
  }

  /** A tier is valid when neither its threshold nor a ratio but the cached input one is negative. */
  lemma TierOkIff(t: Tier)
    ensures TierOk(t) <==>
              t.inputTokenThreshold >= 0
              && NoneNegative({t.ratio, t.completionRatio, t.cacheWrite5mRatio, t.cacheWrite1hRatio})
  {
    var figures := {t.ratio, t.completionRatio, t.cacheWrite5mRatio, t.cacheWrite1hRatio};
    assert && t.ratio in figures && t.completionRatio in figures && t.cacheWrite5mRatio in figures
           && t.cacheWrite1hRatio in figures;
  }

  /** A configuration is valid exactly when no figure but the cached input ratio is negative, its parts are valid, and
      it says something: a figure, a tier or the data of a part. Embedding prices alone say nothing. */
  lemma ConfigOkIff(c: Config)
    ensures ConfigOk(c) <==>
              && NoneNegative({c.ratio, c.completionRatio, c.cacheWrite5mRatio, c.cacheWrite1hRatio})
              && 0 <= c.maxTokens && (forall t :: t in c.tiers ==> TierOk(t))
              && (c.video.Some? ==> VideoOk(c.video.value)) && (c.audio.Some? ==> AudioOk(c.audio.value))
              && (c.image.Some? ==> ImageOk(c.image.value))
              && (c != Silent(c) || HasVideoData(c.video) || HasAudioData(c.audio) || HasImageData(c.image))
  {
    var figures := {c.ratio, c.completionRatio, c.cacheWrite5mRatio, c.cacheWrite1hRatio};
    assert && c.ratio in figures && c.completionRatio in figures && c.cacheWrite5mRatio in figures
           && c.cacheWrite1hRatio in figures;
  }

  /** The check made before configurations are stored and after they are read back. */
  predicate ConfigsOk(configs: map<string, Config>)
  {
    forall name :: name in configs ==> name != "" && ConfigOk(configs[name])
  }

  // ----- normalized keys -----

  type KeyRule = string -> string

  /** Each key of the result is the normal form of a key that carried its value, and no key is left out. */
  ghost predicate Rekeyed<V>(raw: map<string, V>, rule: KeyRule, r: map<string, V>)
  {
    && (forall k :: k in raw ==> rule(k) in r)
    && (forall t :: t in r ==> exists k :: k in raw && rule(k) == t && r[t] == raw[k])
  }

  /** Normal keys are kept: nothing is left to choose. */
  lemma RekeyFixed<V>(raw: map<string, V>, rule: KeyRule, r: map<string, V>)
    requires Rekeyed(raw, rule, r) && forall k :: k in raw ==> rule(k) == k
    ensures r == raw
  {
  }

  predicate KeysAccepted(multipliers: map<string, real>, rule: KeyRule)
  {
    forall k :: k in multipliers ==> rule(k) != "" && multipliers[k] > 0.0
  }

  method NormalizeMultipliers(raw: map<string, real>, rule: KeyRule) returns (r: Result<map<string, real>>)
    ensures r.Err? <==> !KeysAccepted(raw, rule)
    ensures r.Ok? ==> Rekeyed(raw, rule, r.value)
  {
    var normalized: map<string, real> := map[];
    var keys := raw.Keys;
    while keys != {}
      invariant keys <= raw.Keys
      invariant forall k :: k in raw && k !in keys ==> rule(k) != "" && raw[k] > 0.0 && rule(k) in normalized
      invariant forall t :: t in normalized ==>
                  exists k :: k in raw && k !in keys && rule(k) == t && normalized[t] == raw[k]
      decreases |keys|
    {
      var k :| k in keys;
      if rule(k) == "" || raw[k] <= 0.0 {
        return Err;
      }
      ghost var before, left := normalized, keys;
      normalized := normalized[rule(k) := raw[k]];
      keys := keys - {k};
      forall t | t in normalized ensures exists j :: j in raw && j !in keys && rule(j) == t && normalized[t] == raw[j] {
        if t != rule(k) {
          var j :| j in raw && j !in left && rule(j) == t && before[t] == raw[j];
        }
      }
    }
    return Ok(normalized);
  }

  // ----- normalized image, video and audio records -----

  predicate QualitySizesAccepted(tables: map<string, map<string, real>>)
  {
    forall q :: q in tables ==> NormalizeImageQualityKey(q) != "" && KeysAccepted(tables[q], NormalizeImageSizeKey)
  }

  predicate ImageAccepted(i: Image)
  {
    && ImageFiguresOk(i) && KeysAccepted(i.sizeMultipliers, NormalizeImageSizeKey)
    && KeysAccepted(i.qualityMultipliers, NormalizeImageQualityKey) && QualitySizesAccepted(i.qualitySizeMultipliers)
  }

  /** Empty tables are dropped, the others rekeyed; again either of two tables that run together may be kept. */
  ghost predicate QualitySizesRekeyed(raw: map<string, map<string, real>>, r: map<string, map<string, real>>)
  {
    && (forall q :: q in raw && raw[q] != map[] ==> NormalizeImageQualityKey(q) in r)
    && (forall t :: t in r ==> exists q :: TableOf(raw, q, t, r[t]))
  }

  /** The table under the normal quality t comes from the non-empty raw table under q. */
  ghost predicate TableOf(raw: map<string, map<string, real>>, q: string, t: string, table: map<string, real>)
  {
    q in raw && raw[q] != map[] && NormalizeImageQualityKey(q) == t && Rekeyed(raw[q], NormalizeImageSizeKey, table)
  }

  ghost predicate TableFixed(table: map<string, real>)
  {
    table != map[] && forall k :: k in table ==> NormalizeImageSizeKey(k) == k
  }

  ghost predicate ImageNormalized(i: Image, r: Image)
  {
    && r.pricePerImageUsd == i.pricePerImageUsd && r.promptRatio == i.promptRatio
    && r.promptTokenLimit == i.promptTokenLimit && r.minImages == i.minImages && r.maxImages == i.maxImages
    && r.defaultSize == (if TrimSpace(i.defaultSize) != "" then NormalizeImageSizeKey(TrimSpace(i.defaultSize)) else "")
    && r.defaultQuality
       == (if TrimSpace(i.defaultQuality) != "" then NormalizeImageQualityKey(TrimSpace(i.defaultQuality)) else "")
    && Rekeyed(i.sizeMultipliers, NormalizeImageSizeKey, r.sizeMultipliers)
    && Rekeyed(i.qualityMultipliers, NormalizeImageQualityKey, r.qualityMultipliers)
    && QualitySizesRekeyed(i.qualitySizeMultipliers, r.qualitySizeMultipliers)
  }

  /** An image record that normalizing accepts and leaves as it is. */
  ghost predicate ImageFixed(i: Image)
  {
    && ImageAccepted(i)
    && (TrimSpace(i.defaultSize) == i.defaultSize == NormalizeImageSizeKey(i.defaultSize))
    && (TrimSpace(i.defaultQuality) == i.defaultQuality == NormalizeImageQualityKey(i.defaultQuality))
    && (forall k :: k in i.sizeMultipliers ==> NormalizeImageSizeKey(k) == k)
    && (forall k :: k in i.qualityMultipliers ==> NormalizeImageQualityKey(k) == k)
    && (forall q :: q in i.qualitySizeMultipliers ==>
          NormalizeImageQualityKey(q) == q && TableFixed(i.qualitySizeMultipliers[q]))
  }

  // ----- some normal form always exists -----

  lemma {:induction false} RekeyingExists<V>(raw: map<string, V>, rule: KeyRule) returns (r: map<string, V>)
    ensures Rekeyed(raw, rule, r)
    decreases |raw|
  {
    if raw == map[] {
      r := map[];
    } else {
      var k :| k in raw;
      var rest := RekeyingExists(raw - {k}, rule);
      r := rest[rule(k) := raw[k]];
    }
  }

  function FilledTables(raw: map<string, map<string, real>>): map<string, map<string, real>>
  {
    map q | q in raw && raw[q] != map[] :: raw[q]
  }

  /** Every table with its sizes rekeyed. */
  ghost predicate SizesRekeyed(tables: map<string, map<string, real>>, r: map<string, map<string, real>>)
  {
    r.Keys == tables.Keys && forall t :: t in r ==> Rekeyed(tables[t], NormalizeImageSizeKey, r[t])
  }

  lemma {:induction false} SizesRekeyingExists(tables: map<string, map<string, real>>)
      returns (r: map<string, map<string, real>>)
    ensures SizesRekeyed(tables, r)
    decreases |tables|
  {
    if tables == map[] {
      r := map[];
    } else {
      var t :| t in tables;
      var rest := SizesRekeyingExists(tables - {t});
      var table := RekeyingExists(tables[t], NormalizeImageSizeKey);
      r := rest[t := table];
    }
  }

  lemma TableFor(raw: map<string, map<string, real>>, tables: map<string, map<string, real>>, t: string,
                 table: map<string, real>)
    requires Rekeyed(FilledTables(raw), NormalizeImageQualityKey, tables) && t in tables
    requires Rekeyed(tables[t], NormalizeImageSizeKey, table)
    ensures exists q :: TableOf(raw, q, t, table)
  {
    var q :| q in FilledTables(raw) && NormalizeImageQualityKey(q) == t && tables[t] == FilledTables(raw)[q];
    assert TableOf(raw, q, t, table);
  }

  lemma TablesExist(raw: map<string, map<string, real>>) returns (r: map<string, map<string, real>>)
    ensures QualitySizesRekeyed(raw, r)
  {
    var tables := RekeyingExists(FilledTables(raw), NormalizeImageQualityKey);
    r := SizesRekeyingExists(tables);
    forall t | t in r ensures exists q :: TableOf(raw, q, t, r[t]) {
      TableFor(raw, tables, t, r[t]);
    }
    forall q | q in raw && raw[q] != map[] ensures NormalizeImageQualityKey(q) in r {
      assert q in FilledTables(raw);
    }
  }

  lemma NormalFormExists(i: Image) returns (r: Image)
    ensures ImageNormalized(i, r)
  {
    var sizes := RekeyingExists(i.sizeMultipliers, NormalizeImageSizeKey);
    var qualities := RekeyingExists(i.qualityMultipliers, NormalizeImageQualityKey);
    var tables := TablesExist(i.qualitySizeMultipliers);
    r := i.(
      defaultSize := if TrimSpace(i.defaultSize) != "" then NormalizeImageSizeKey(TrimSpace(i.defaultSize)) else "",
      defaultQuality :=
        if TrimSpace(i.defaultQuality) != "" then NormalizeImageQualityKey(TrimSpace(i.defaultQuality)) else "",
      sizeMultipliers := sizes, qualityMultipliers := qualities, qualitySizeMultipliers := tables);
  }

  lemma QualitySizesRekeyedFixed(raw: map<string, map<string, real>>, r: map<string, map<string, real>>)
    requires QualitySizesAccepted(raw) && QualitySizesRekeyed(raw, r)
    ensures QualitySizesAccepted(r)
    ensures forall q :: q in r ==> NormalizeImageQualityKey(q) == q && TableFixed(r[q])
  {
    forall q | q in r
      ensures NormalizeImageQualityKey(q) == q != "" && TableFixed(r[q]) && KeysAccepted(r[q], NormalizeImageSizeKey)
    {
      var p :| TableOf(raw, p, q, r[q]);
      QualityKeyIdempotent(p);
      RekeyedSizesFixed(raw[p], r[q]);
      var k :| k in raw[p];
      assert NormalizeImageSizeKey(k) in r[q];
    }
  }

  lemma RekeyedSizesFixed(raw: map<string, real>, r: map<string, real>)
    requires KeysAccepted(raw, NormalizeImageSizeKey) && Rekeyed(raw, NormalizeImageSizeKey, r)
    ensures KeysAccepted(r, NormalizeImageSizeKey) && forall k :: k in r ==> NormalizeImageSizeKey(k) == k
  {
    forall t | t in r ensures NormalizeImageSizeKey(t) == t != "" && r[t] > 0.0 {
      var k :| k in raw && NormalizeImageSizeKey(k) == t && r[t] == raw[k];
      SizeKeyIdempotent(k);
    }
  }

  lemma RekeyedQualitiesFixed(raw: map<string, real>, r: map<string, real>)
    requires KeysAccepted(raw, NormalizeImageQualityKey) && Rekeyed(raw, NormalizeImageQualityKey, r)
    ensures KeysAccepted(r, NormalizeImageQualityKey) && forall k :: k in r ==> NormalizeImageQualityKey(k) == k
  {
    forall t | t in r ensures NormalizeImageQualityKey(t) == t != "" && r[t] > 0.0 {
      var k :| k in raw && NormalizeImageQualityKey(k) == t && r[t] == raw[k];
      QualityKeyIdempotent(k);
    }
  }

  /** Normalizing yields a record that is accepted and left alone. */
  lemma NormalizedIsFixed(i: Image, r: Image)
    requires ImageAccepted(i) && ImageNormalized(i, r)
    ensures ImageFixed(r)
  {
    SizeKeyIdempotent(TrimSpace(i.defaultSize));
    QualityKeyIdempotent(TrimSpace(i.defaultQuality));
    assert NormalizeImageSizeKey("") == "" && NormalizeImageQualityKey("") == "";
    RekeyedSizesFixed(i.sizeMultipliers, r.sizeMultipliers);
    RekeyedQualitiesFixed(i.qualityMultipliers, r.qualityMultipliers);
    QualitySizesRekeyedFixed(i.qualitySizeMultipliers, r.qualitySizeMultipliers);
  }

  lemma QualitySizesFixed(raw: map<string, map<string, real>>, r: map<string, map<string, real>>)
    requires QualitySizesRekeyed(raw, r)
    requires forall q :: q in raw ==> NormalizeImageQualityKey(q) == q && TableFixed(raw[q])
    ensures r == raw
  {
    forall t | t in r ensures t in raw && r[t] == raw[t] {
      var q :| TableOf(raw, q, t, r[t]);
      RekeyFixed(raw[q], NormalizeImageSizeKey, r[t]);
    }
    forall q | q in raw ensures q in r {
      assert NormalizeImageQualityKey(q) in r;
    }
  }

  /** ... and the other way round, whatever is chosen. */
  lemma FixedNormalizesToItself(i: Image, r: Image)
    requires ImageFixed(i) && ImageNormalized(i, r)
    ensures r == i
  {
    RekeyFixed(i.sizeMultipliers, NormalizeImageSizeKey, r.sizeMultipliers);
    RekeyFixed(i.qualityMultipliers, NormalizeImageQualityKey, r.qualityMultipliers);
    QualitySizesFixed(i.qualitySizeMultipliers, r.qualitySizeMultipliers);
  }

  method NormalizeQualitySizes(raw: map<string, map<string, real>>) returns (r: Result<map<string, map<string, real>>>)
    ensures r.Err? <==> !QualitySizesAccepted(raw)
    ensures r.Ok? ==> QualitySizesRekeyed(raw, r.value)
  {
    var normalized: map<string, map<string, real>> := map[];
    var keys := raw.Keys;
    while keys != {}
      invariant keys <= raw.Keys
      invariant forall q :: q in raw && q !in keys ==>
                  NormalizeImageQualityKey(q) != "" && KeysAccepted(raw[q], NormalizeImageSizeKey)
                  && (raw[q] != map[] ==> NormalizeImageQualityKey(q) in normalized)
      invariant forall t :: t in normalized ==> exists q :: q !in keys && TableOf(raw, q, t, normalized[t])
      decreases |keys|
    {
      var q :| q in keys;
      var qualityKey := NormalizeImageQualityKey(q);
      if qualityKey == "" {
        return Err;
      }
      var normalizedSizes := NormalizeMultipliers(raw[q], NormalizeImageSizeKey);
      if normalizedSizes.Err? {
        return Err;
      }
      ghost var before, left := normalized, keys;
      if raw[q] != map[] {
        normalized := normalized[qualityKey := normalizedSizes.value];
      }
      keys := keys - {q};
      forall t | t in normalized ensures exists p :: p !in keys && TableOf(raw, p, t, normalized[t]) {
        if raw[q] != map[] && t == qualityKey {
          assert TableOf(raw, q, t, normalized[t]);
        } else {
          var p :| p !in left && TableOf(raw, p, t, before[t]);
          assert p !in keys;
        }
      }
    }
    return Ok(normalized);
  }

  method NormalizeImagePricingLocal(cfg: Image) returns (r: Result<Image>)
    ensures r.Err? <==> !ImageAccepted(cfg)
    ensures r.Ok? ==> ImageNormalized(cfg, r.value)
  {
    if !ImageFiguresOk(cfg) {
      return Err;
    }
    var sizes := NormalizeMultipliers(cfg.sizeMultipliers, NormalizeImageSizeKey);
    var qualities := NormalizeMultipliers(cfg.qualityMultipliers, NormalizeImageQualityKey);
    var tables := NormalizeQualitySizes(cfg.qualitySizeMultipliers);
    if sizes.Err? || qualities.Err? || tables.Err? {
      return Err;
    }
    var trimmed, trimmedQuality := TrimSpace(cfg.defaultSize), TrimSpace(cfg.defaultQuality);
    return Ok(Image(
      cfg.pricePerImageUsd, cfg.promptRatio,
      if trimmed != "" then NormalizeImageSizeKey(trimmed) else "",
      if trimmedQuality != "" then NormalizeImageQualityKey(trimmedQuality) else "",
      cfg.promptTokenLimit, cfg.minImages, cfg.maxImages, sizes.value, qualities.value, tables.value));
  }

  predicate VideoAccepted(v: Video)
  {
    v.perSecondUsd >= 0.0 && KeysAccepted(v.resolutionMultipliers, NormalizeVideoResolutionKey)
  }

  ghost predicate VideoNormalized(v: Video, r: Video)
  {
    && r.perSecondUsd == v.perSecondUsd
    && r.baseResolution
       == (if TrimSpace(v.baseResolution) != "" then NormalizeVideoResolutionKey(v.baseResolution) else "")
    && Rekeyed(v.resolutionMultipliers, NormalizeVideoResolutionKey, r.resolutionMultipliers)
  }

  method NormalizeVideoPricingLocal(cfg: Video) returns (r: Result<Video>)
    ensures r.Err? <==> !VideoAccepted(cfg)
    ensures r.Ok? ==> VideoNormalized(cfg, r.value)
  {
    if cfg.perSecondUsd < 0.0 {
      return Err;
    }
    var multipliers := NormalizeMultipliers(cfg.resolutionMultipliers, NormalizeVideoResolutionKey);
    if multipliers.Err? {
      return Err;
    }
    var base := if TrimSpace(cfg.baseResolution) != "" then NormalizeVideoResolutionKey(cfg.baseResolution) else "";
    return Ok(Video(cfg.perSecondUsd, base, multipliers.value));
  }

  /** Normalizing a normalized video record changes nothing. */
  lemma VideoNormalizedTwice(v: Video, r: Video, r': Video)
    requires VideoAccepted(v) && VideoNormalized(v, r)
    ensures VideoAccepted(r) && (VideoNormalized(r, r') ==> r' == r)
  {
    VideoKeyIdempotent(v.baseResolution);
    assert TrimSpace("") == "";
    forall t | t in r.resolutionMultipliers
      ensures NormalizeVideoResolutionKey(t) == t != "" && r.resolutionMultipliers[t] > 0.0
    {
      var k :| k in v.resolutionMultipliers && NormalizeVideoResolutionKey(k) == t
                 && r.resolutionMultipliers[t] == v.resolutionMultipliers[k];
      VideoKeyIdempotent(k);
    }
    if VideoNormalized(r, r') {
      RekeyFixed(r.resolutionMultipliers, NormalizeVideoResolutionKey, r'.resolutionMultipliers);
    }
  }

  // ----- what is accepted is what is valid -----

  /** The rule leaves nothing of a blank key, and something of every other. */
  ghost predicate KeepsNames(rule: KeyRule)
  {
    forall k :: rule(k) == "" <==> TrimSpace(k) == ""
  }

  lemma RulesKeepNames()
    ensures KeepsNames(NormalizeImageSizeKey) && KeepsNames(NormalizeImageQualityKey)
    ensures KeepsNames(NormalizeVideoResolutionKey)
  {
    forall k: string
      ensures NormalizeImageSizeKey(k) == "" <==> TrimSpace(k) == ""
      ensures NormalizeImageQualityKey(k) == "" <==> TrimSpace(k) == ""
      ensures NormalizeVideoResolutionKey(k) == "" <==> TrimSpace(k) == ""
    {
      KeyBlankIff(k);
    }
  }

  lemma KeysAcceptedIff(multipliers: map<string, real>, rule: KeyRule)
    requires KeepsNames(rule)
    ensures KeysAccepted(multipliers, rule) <==> MultipliersOk(multipliers)
  {
  }

  /** Normalizing accepts exactly the image records that validating accepts ... */
  lemma ImageAcceptedIff(i: Image)
    ensures ImageAccepted(i) <==> ImageOk(i)
  {
    RulesKeepNames();
    KeysAcceptedIff(i.sizeMultipliers, NormalizeImageSizeKey);
    KeysAcceptedIff(i.qualityMultipliers, NormalizeImageQualityKey);
    forall q | q in i.qualitySizeMultipliers
      ensures KeysAccepted(i.qualitySizeMultipliers[q], NormalizeImageSizeKey)
         <==> MultipliersOk(i.qualitySizeMultipliers[q])
    {
      KeysAcceptedIff(i.qualitySizeMultipliers[q], NormalizeImageSizeKey);
    }
  }

  /** ... and the same video records ... */
  lemma VideoAcceptedIff(v: Video)
    ensures VideoAccepted(v) <==> VideoOk(v)
  {
    RulesKeepNames();
    KeysAcceptedIff(v.resolutionMultipliers, NormalizeVideoResolutionKey);
  }

  // ----- normalized configurations -----

  predicate ConfigAccepted(c: Config)
  {
    && (c.video.Some? ==> VideoAccepted(c.video.value)) && (c.audio.Some? ==> AudioOk(c.audio.value))
    && (c.image.Some? ==> ImageAccepted(c.image.value))
  }

  /** The embedding prices are not copied. */
  ghost predicate ConfigNormalized(c: Config, r: Config)
  {
    && r == c.(video := r.video, image := r.image, embedding := None)
    && (if c.video.Some? then r.video.Some? && VideoNormalized(c.video.value, r.video.value) else r.video.None?)
    && (if c.image.Some? then r.image.Some? && ImageNormalized(c.image.value, r.image.value) else r.image.None?)
  }

  method NormalizeModelConfigLocal(cfg: Config) returns (r: Result<Config>)
    ensures r.Err? <==> !ConfigAccepted(cfg)
    ensures r.Ok? ==> ConfigNormalized(cfg, r.value)
  {
    var video, image := None, None;
    if cfg.video.Some? {
      var v := NormalizeVideoPricingLocal(cfg.video.value);
      if v.Err? {
        return Err;
      }
      video := Some(v.value);
    }
    if cfg.audio.Some? && !AudioOk(cfg.audio.value) {
      return Err;
    }
    if cfg.image.Some? {
      var i := NormalizeImagePricingLocal(cfg.image.value);
      if i.Err? {
        return Err;
      }
      image := Some(i.value);
    }
    return Ok(cfg.(video := video, image := image, embedding := None));
  }

  /** ... so normalizing accepts exactly the configurations whose parts are all valid; it does not look at their own
      figures. */
  lemma ConfigAcceptedIff(c: Config)
    ensures ConfigAccepted(c) <==>
              && (c.video.Some? ==> VideoOk(c.video.value)) && (c.audio.Some? ==> AudioOk(c.audio.value))
              && (c.image.Some? ==> ImageOk(c.image.value))
    ensures ConfigOk(c) ==> ConfigAccepted(c)
  {
    if c.video.Some? {
      VideoAcceptedIff(c.video.value);
    }
    if c.image.Some? {
      ImageAcceptedIff(c.image.value);
    }
  }

  /** Normalizing a normalized configuration changes nothing. */
  lemma ConfigNormalizedTwice(c: Config, r: Config, r': Config)
    requires ConfigAccepted(c) && ConfigNormalized(c, r)
    ensures ConfigAccepted(r) && (ConfigNormalized(r, r') ==> r' == r)
  {
    if c.video.Some? {
      if r'.video.Some? {
        VideoNormalizedTwice(c.video.value, r.video.value, r'.video.value);
      } else {
        VideoNormalizedTwice(c.video.value, r.video.value, r.video.value);
      }
    }
    if c.image.Some? {
      NormalizedIsFixed(c.image.value, r.image.value);
      if r'.image.Some? && ImageNormalized(r.image.value, r'.image.value) {
        FixedNormalizesToItself(r.image.value, r'.image.value);
      }
    }
  }
}
