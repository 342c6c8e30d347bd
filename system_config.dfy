/** `SystemConfig` (config/system_config.py): the OCR, preprocessing and
    processing settings, the three named profiles built from them, and the
    profile table. */
module SystemConfiguration {

  datatype SystemConfig = SystemConfig(
    language: string,
    dpi: int,
    confidenceThreshold: real,
    enableDeskewing: bool,
    enableDenoising: bool,
    enableContrastEnhancement: bool,
    enableAutoRetry: bool,
    maxProcessingTimeMinutes: int,
    enableTableExtraction: bool)

  /** `SystemConfig()` with every field at its declared default. */
  function DefaultConfig(): (c: SystemConfig)
    ensures c.language == "spa" && c.dpi == 300 && c.confidenceThreshold == 60.0
    ensures c.enableDeskewing && c.enableDenoising && c.enableContrastEnhancement
    ensures c.enableAutoRetry && c.maxProcessingTimeMinutes == 30 && c.enableTableExtraction
  {
    SystemConfig("spa", 300, 60.0, true, true, true, true, 30, true)
  }

  /** `create_high_quality_config`: the defaults with dpi, threshold and
      time limit raised; language and table extraction keep theirs. */
  function HighQualityConfig(): (c: SystemConfig)
    ensures c.dpi == 600 && c.confidenceThreshold == 80.0 && c.maxProcessingTimeMinutes == 60
    ensures c.enableDeskewing && c.enableDenoising && c.enableContrastEnhancement && c.enableAutoRetry
    ensures c.language == DefaultConfig().language
    ensures c.enableTableExtraction == DefaultConfig().enableTableExtraction
  {
    DefaultConfig().(dpi := 600, confidenceThreshold := 80.0, enableDeskewing := true,
                     enableDenoising := true, enableContrastEnhancement := true,
                     enableAutoRetry := true, maxProcessingTimeMinutes := 60)
  }

  /** `create_fast_config`: lower resolution and threshold, skew and noise
      correction and retry off, contrast enhancement kept, a short limit. */
  function FastConfig(): (c: SystemConfig)
    ensures c.dpi == 150 && c.confidenceThreshold == 50.0 && c.maxProcessingTimeMinutes == 10
    ensures !c.enableDeskewing && !c.enableDenoising && c.enableContrastEnhancement && !c.enableAutoRetry
    ensures c.language == DefaultConfig().language
    ensures c.enableTableExtraction == DefaultConfig().enableTableExtraction
  {
    DefaultConfig().(dpi := 150, confidenceThreshold := 50.0, enableDeskewing := false,
                     enableDenoising := false, enableContrastEnhancement := true,
                     enableAutoRetry := false, maxProcessingTimeMinutes := 10)
  }

  /** `create_balanced_config`: the defaults. */
  function BalancedConfig(): (c: SystemConfig)
    ensures c == DefaultConfig()
  {
    SystemConfig("spa", 300, 60.0, true, true, true, true, 30, true)
  }

  /** `QUALITY_PROFILES`. */
  const QualityProfiles: map<string, SystemConfig> :=
    map["maximum_quality" := HighQualityConfig(),
        "fast_processing" := FastConfig(),
        "balanced" := BalancedConfig()]

  /** The table has exactly the three profile names, each bound to its
      constructor. */
  lemma QualityProfilesTable()
    ensures QualityProfiles.Keys == {"maximum_quality", "fast_processing", "balanced"}
    ensures QualityProfiles["maximum_quality"] == HighQualityConfig()
    ensures QualityProfiles["fast_processing"] == FastConfig()
    ensures QualityProfiles["balanced"] == BalancedConfig()
  {
  }

  /** `b` asks for more than `a`: higher resolution, a higher confidence
      threshold and more time. */
  predicate Demands(a: SystemConfig, b: SystemConfig) {
    a.dpi < b.dpi && a.confidenceThreshold < b.confidenceThreshold &&
    a.maxProcessingTimeMinutes < b.maxProcessingTimeMinutes
  }

  /** The profiles are ordered: fast, then balanced, then maximum quality. */
  lemma ProfilesOrdered()
    ensures Demands(QualityProfiles["fast_processing"], QualityProfiles["balanced"])
    ensures Demands(QualityProfiles["balanced"], QualityProfiles["maximum_quality"])
  {
    QualityProfilesTable();
  }
}
