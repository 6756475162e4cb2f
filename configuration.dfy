/** The application configuration: search, performance and Docker settings
    with their defaults, and the two checks made when a configuration is built. */
module Configuration {
  import opened Wrappers
  import opened JsonValue

  datatype SearchSettings = SearchSettings(
    fuzzyEditDistance: int,
    fuzzyAccuracyTarget: real,
    semanticSimilarityThreshold: real,
    searchTimeoutSeconds: int,
    coreSearchTimeoutMs: int,
    enableAutoComplete: bool,
    enableSpellingCorrection: bool,
    enableBooleanOperators: bool,
    enableAiSearch: bool,
    fallbackToPreencodedOnly: bool,
    currentModelName: string,
    customModelPath: Option<string>,
    enableTopicHierarchy: bool,
    topicHierarchyDepth: int)

  datatype PerformanceSettings = PerformanceSettings(
    maxCachedDocuments: int,
    maxMemoryUsageGb: real,
    indexingBatchSize: int,
    searchDebounceMs: int,
    pagePreloadRange: int,
    autoCleanupThreshold: real,
    maxCollectionSizeFastSearch: int)

  datatype DockerServiceConfig = DockerServiceConfig(
    autoStartServices: bool,
    elasticsearchPort: int,
    healthCheckTimeout: int,
    requiredServices: seq<string>,
    serviceStartupVerification: bool)

  datatype ApplicationConfig = ApplicationConfig(
    elasticsearchUrl: string,
    documentDirectories: seq<string>,
    supportedFileTypes: seq<string>,
    searchSettings: SearchSettings,
    uiSettings: seq<(string, Json)>,
    performanceSettings: PerformanceSettings,
    dockerServices: DockerServiceConfig)

  /** `SearchSettings()`. */
  const DefaultSearchSettings: SearchSettings :=
    SearchSettings(2, 0.8, 0.7, 2, 500, true, true, true, true, false, "all-MiniLM-L6-v2", None, true, 3)

  /** `PerformanceSettings()`. */
  const DefaultPerformanceSettings: PerformanceSettings :=
    PerformanceSettings(50, 1.0, 100, 300, 10, 0.8, 1000)

  /** `DockerServiceConfig()`. */
  const DefaultDockerServices: DockerServiceConfig :=
    DockerServiceConfig(true, 9200, 30, ["elasticsearch"], true)

  /** The field values of `ApplicationConfig()`, before its check. */
  const DefaultFields: ApplicationConfig :=
    ApplicationConfig("http://localhost:9200", [], [".pdf", ".docx", ".txt", ".md"],
                      DefaultSearchSettings, [], DefaultPerformanceSettings, DefaultDockerServices)

  /** `app_config.search_settings if app_config else SearchSettings()`: the settings a
      search strategy works with. */
  function SettingsOf(appConfig: Option<ApplicationConfig>): SearchSettings {
    if appConfig.Some? then appConfig.value.searchSettings else DefaultSearchSettings
  }

  datatype ConfigError = NonPositiveMemory | NegativeEditDistance

  /** `ApplicationConfig(...)` with its `__post_init__`: the memory bound, then the edit distance. */
  function NewApplicationConfig(c: ApplicationConfig): (r: Result<ApplicationConfig, ConfigError>)
    ensures r.Success? <==> c.performanceSettings.maxMemoryUsageGb > 0.0 && c.searchSettings.fuzzyEditDistance >= 0
    ensures r.Success? ==> r.value == c
    ensures c.performanceSettings.maxMemoryUsageGb <= 0.0 ==> r == Failure(NonPositiveMemory)
    ensures r == Failure(NegativeEditDistance) ==> c.performanceSettings.maxMemoryUsageGb > 0.0
  {
    if !(0.0 < c.performanceSettings.maxMemoryUsageGb) then Failure(NonPositiveMemory)
    else if c.searchSettings.fuzzyEditDistance < 0 then Failure(NegativeEditDistance)
    else Success(c)
  }

  /** `ApplicationConfig()` is accepted, with the documented search defaults. */
  lemma DefaultsAccepted()
    ensures NewApplicationConfig(DefaultFields) == Success(DefaultFields)
    ensures var s := DefaultFields.searchSettings;
            && s.fuzzyEditDistance == 2 && s.fuzzyAccuracyTarget == 0.8 && s.semanticSimilarityThreshold == 0.7
            && s.enableAiSearch && s.enableSpellingCorrection && !s.fallbackToPreencodedOnly
    ensures DefaultFields.elasticsearchUrl == "http://localhost:9200" && DefaultFields.documentDirectories == []
    ensures DefaultFields.supportedFileTypes == [".pdf", ".docx", ".txt", ".md"]
    ensures DefaultFields.dockerServices.requiredServices == ["elasticsearch"]
  {
  }

  /** Replacing the search settings keeps every other default, and the defaults pass the check. */
  lemma WithSearchSettings(s: SearchSettings)
    requires s.fuzzyEditDistance >= 0
    ensures NewApplicationConfig(DefaultFields.(searchSettings := s)).Success?
  {
  }
}
