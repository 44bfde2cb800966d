/**
 * The defaulting step of LoadConfig (config.go:62-88): after the YAML is
 * decoded, empty or zero settings get their defaults, field by field, and the
 * user data directory is made absolute. filepath.Abs and findChromePath look
 * at the machine, so they are parameters: `abs` (None when it fails) and the
 * path `detectedChrome` that findChromePath would return.
 */
module Configuration {
  import opened Wrappers

  datatype BrowserConfig = BrowserConfig(
    headless: bool, userDataDir: string, chromePath: string, qrTimeoutSeconds: int, pageLoadTimeout: int)

  /** `imagePath` is read by the client but is not a field the configuration
      declares; it is carried as an optional value that defaulting never touches. */
  datatype FilesConfig = FilesConfig(csvPath: string, templatePath: string, completedCsvPath: string, imagePath: Option<string>)

  datatype RetryConfig = RetryConfig(maxRetries: int, initialDelaySeconds: int, maxDelaySeconds: int, backoffMultiplier: real)

  datatype RateLimitingConfig = RateLimitingConfig(messagesPerSecond: int, enabled: bool)

  datatype LoggingConfig = LoggingConfig(level: string, outputFile: string)

  datatype Config = Config(
    browser: BrowserConfig, files: FilesConfig, retry: RetryConfig, rateLimiting: RateLimitingConfig, logging: LoggingConfig)

  datatype ConfigError = UserDataDirUnresolved

  function DefaultUserDataDir(): string { "./chrome-data" }
  function DefaultCompletedCsvPath(): string { "completed.csv" }
  const DefaultQrTimeoutSeconds := 60
  const DefaultPageLoadTimeout := 30

  /** The configuration after defaulting, or the error of filepath.Abs. Each
      default replaces exactly the empty or zero setting and set values are
      kept; the directory handed to filepath.Abs is never empty; retry, rate
      limiting, logging and the other paths are untouched. */
  function WithDefaults(config: Config, abs: string -> Option<string>, detectedChrome: string): (res: Result<Config, ConfigError>)
    ensures var dir := if config.browser.userDataDir == "" then DefaultUserDataDir() else config.browser.userDataDir;
      && dir != ""
      && (res.Ok? <==> abs(dir).Some?)
      && (res.Ok? ==> res.value.browser.userDataDir == abs(dir).value)
    ensures res.Ok? ==>
      var r := res.value;
      && r.browser.headless == config.browser.headless
      && (config.browser.chromePath == "" ==> r.browser.chromePath == detectedChrome)
      && (config.browser.chromePath != "" ==> r.browser.chromePath == config.browser.chromePath)
      && (config.browser.qrTimeoutSeconds == 0 ==> r.browser.qrTimeoutSeconds == 60)
      && (config.browser.qrTimeoutSeconds != 0 ==> r.browser.qrTimeoutSeconds == config.browser.qrTimeoutSeconds)
      && (config.browser.pageLoadTimeout == 0 ==> r.browser.pageLoadTimeout == 30)
      && (config.browser.pageLoadTimeout != 0 ==> r.browser.pageLoadTimeout == config.browser.pageLoadTimeout)
      && (config.files.completedCsvPath == "" ==> r.files.completedCsvPath == "completed.csv")
      && (config.files.completedCsvPath != "" ==> r.files.completedCsvPath == config.files.completedCsvPath)
      && r.files.csvPath == config.files.csvPath && r.files.templatePath == config.files.templatePath
      && r.files.imagePath == config.files.imagePath
      && r.retry == config.retry && r.rateLimiting == config.rateLimiting && r.logging == config.logging
  {
    var dir := if config.browser.userDataDir == "" then DefaultUserDataDir() else config.browser.userDataDir;
    match abs(dir)
    case None => Err(UserDataDirUnresolved)
    case Some(absDir) =>
      var b := config.browser;
      Ok(config.(
        browser := b.(
          userDataDir := absDir,
          chromePath := if b.chromePath == "" then detectedChrome else b.chromePath,
          qrTimeoutSeconds := if b.qrTimeoutSeconds == 0 then DefaultQrTimeoutSeconds else b.qrTimeoutSeconds,
          pageLoadTimeout := if b.pageLoadTimeout == 0 then DefaultPageLoadTimeout else b.pageLoadTimeout),
        files := config.files.(
          completedCsvPath := if config.files.completedCsvPath == "" then DefaultCompletedCsvPath() else config.files.completedCsvPath)))
  }

  /** filepath.Abs as the defaulting relies on it: a resolved path is non-empty
      and resolves to itself. */
  ghost predicate AbsIsStable(abs: string -> Option<string>) {
    forall p :: abs(p).Some? ==> abs(p).value != "" && abs(abs(p).value) == abs(p)
  }

  /** Defaulting a defaulted configuration changes nothing. */
  lemma WithDefaultsIdempotent(config: Config, abs: string -> Option<string>, detectedChrome: string)
    requires AbsIsStable(abs)
    requires WithDefaults(config, abs, detectedChrome).Ok?
    ensures WithDefaults(WithDefaults(config, abs, detectedChrome).value, abs, detectedChrome) == WithDefaults(config, abs, detectedChrome)
  {
    var dir := if config.browser.userDataDir == "" then DefaultUserDataDir() else config.browser.userDataDir;
    var r := WithDefaults(config, abs, detectedChrome).value;
    assert r.browser.userDataDir == abs(dir).value;
    assert abs(r.browser.userDataDir) == abs(dir);
    assert DefaultCompletedCsvPath() != "";
    if detectedChrome == "" && config.browser.chromePath == "" {
      assert r.browser.chromePath == "";
    }
  }

  /** The defaulting block of LoadConfig, one field after another. */
  method ApplyDefaults(config: Config, abs: string -> Option<string>, detectedChrome: string) returns (r: Result<Config, ConfigError>)
    ensures r == WithDefaults(config, abs, detectedChrome)
  {
    var c := config;
    if c.browser.userDataDir == "" {
      c := c.(browser := c.browser.(userDataDir := DefaultUserDataDir()));
    }
    if c.browser.userDataDir != "" {
      var absPath := abs(c.browser.userDataDir);
      if absPath.None? {
        return Err(UserDataDirUnresolved);
      }
      c := c.(browser := c.browser.(userDataDir := absPath.value));
    }
    if c.browser.chromePath == "" {
      c := c.(browser := c.browser.(chromePath := detectedChrome));
    }
    if c.browser.qrTimeoutSeconds == 0 {
      c := c.(browser := c.browser.(qrTimeoutSeconds := DefaultQrTimeoutSeconds));
    }
    if c.browser.pageLoadTimeout == 0 {
      c := c.(browser := c.browser.(pageLoadTimeout := DefaultPageLoadTimeout));
    }
    if c.files.completedCsvPath == "" {
      c := c.(files := c.files.(completedCsvPath := DefaultCompletedCsvPath()));
    }
    return Ok(c);
  }
}
