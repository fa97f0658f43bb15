/** The holder of the loaded configuration,
    backend/.../service/ConfigurationLoaderService.java. It loads once (at
    start-up, or lazily on first use), can be told to reload, and logs a
    summary that shows which secrets are present without their values. What
    the table loader returns (`DynamoConfig.LoadConfiguration`) is an input,
    `outcome`; `loaderCalls` counts how often it was consulted. */
module ConfigLoader {
  import opened Base
  import opened Text
  import opened AppConfig

  const LoadFailure: string := "Critical error: Could not load application configuration"
  const ReloadFailure: string := "Failed to reload application configuration"

  class ConfigurationLoaderService {
    var appConfiguration: Option<AppConfiguration>
    var configurationLoaded: bool
    var loaderCalls: nat

    /** Once loaded, a configuration is held. */
    ghost predicate Valid()
      reads this
    {
      configurationLoaded ==> appConfiguration.Some?
    }

    constructor ()
      ensures Valid() && !configurationLoaded && appConfiguration.None? && loaderCalls == 0
    {
      appConfiguration := None;
      configurationLoaded := false;
      loaderCalls := 0;
    }

    /** `isConfigurationLoaded`. */
    function IsConfigurationLoaded(): (r: bool)
      reads this
      requires Valid()
      ensures r ==> appConfiguration.Some?
    {
      configurationLoaded
    }

    /** `loadConfiguration`: nothing to do once loaded; otherwise the loader's
        result is kept, or the failure reported with nothing changed. */
    method LoadConfiguration(outcome: Result<AppConfiguration, string>) returns (r: Result<(), string>)
      requires Valid()
      modifies this
      ensures Valid()
      ensures old(configurationLoaded) ==>
                r == Ok(()) && configurationLoaded && appConfiguration == old(appConfiguration)
                && loaderCalls == old(loaderCalls)
      ensures !old(configurationLoaded) ==> loaderCalls == old(loaderCalls) + 1
      ensures !old(configurationLoaded) && outcome.Ok? ==>
                r == Ok(()) && configurationLoaded && appConfiguration == Some(outcome.value)
      ensures !old(configurationLoaded) && outcome.Err? ==>
                r == Err(LoadFailure) && !configurationLoaded && appConfiguration == old(appConfiguration)
    {
      if configurationLoaded {
        return Ok(());
      }
      loaderCalls := loaderCalls + 1;
      if outcome.Err? {
        return Err(LoadFailure);
      }
      appConfiguration := Some(outcome.value);
      configurationLoaded := true;
      return Ok(());
    }

    /** `getConfiguration`: loads first when nothing is loaded yet. */
    method GetConfiguration(outcome: Result<AppConfiguration, string>)
      returns (r: Result<Option<AppConfiguration>, string>)
      requires Valid()
      modifies this
      ensures Valid()
      // a held configuration is returned without asking the loader
      ensures old(configurationLoaded) ==>
                r == Ok(old(appConfiguration)) && appConfiguration == old(appConfiguration)
                && configurationLoaded && loaderCalls == old(loaderCalls)
      ensures !old(configurationLoaded) && outcome.Ok? ==>
                r == Ok(Some(outcome.value)) && appConfiguration == Some(outcome.value) && configurationLoaded
      ensures !old(configurationLoaded) && outcome.Err? ==>
                r == Err(LoadFailure) && appConfiguration == old(appConfiguration) && !configurationLoaded
      // a successful call always hands out a configuration
      ensures r.Ok? ==> r.value.Some?
    {
      if !configurationLoaded {
        var loaded := LoadConfiguration(outcome);
        if loaded.Err? {
          return Err(loaded.error);
        }
      }
      return Ok(appConfiguration);
    }

    /** `reloadConfiguration`: always asks the loader; a failure keeps the
        configuration held before. */
    method ReloadConfiguration(outcome: Result<AppConfiguration, string>) returns (r: Result<(), string>)
      requires Valid()
      modifies this
      ensures Valid()
      ensures loaderCalls == old(loaderCalls) + 1
      ensures outcome.Ok? ==> r == Ok(()) && configurationLoaded && appConfiguration == Some(outcome.value)
      ensures outcome.Err? ==>
                r == Err(ReloadFailure) && configurationLoaded == old(configurationLoaded)
                && appConfiguration == old(appConfiguration)
    {
      loaderCalls := loaderCalls + 1;
      if outcome.Err? {
        return Err(ReloadFailure);
      }
      appConfiguration := Some(outcome.value);
      configurationLoaded := true;
      return Ok(());
    }
  }

  // ---------------------------------------------------------------------
  // The logged summary
  // ---------------------------------------------------------------------

  /** Whether a secret is there, never what it is. */
  function Presence(value: Option<string>): string {
    if value.Some? then "[LOADED]" else "[MISSING]"
  }

  function ShownLong(value: Option<int>): string {
    if value.Some? then IntToString(value.value) else "null"
  }

  /** `logConfigurationSummary`'s text; `None` for no configuration, where
      only a warning is logged. */
  function ConfigurationSummary(config: Option<AppConfiguration>): (r: Option<string>)
    ensures r.None? <==> config.None?
    ensures r.Some? ==> StartsWith(r.value, "Configuration Summary:")
  {
    if config.None? then None
    else
      var c := config.value;
      var jwt := if c.jwt.None? then "" else
        "\n  JWT: secret=" + Presence(c.jwt.value.secret)
        + ", expiration=" + ShownLong(c.jwt.value.expiration)
        + ", refreshExpiration=" + ShownLong(c.jwt.value.refreshExpiration);
      var aws := if c.aws.None? then "" else
        "\n  AWS: accessKey=" + Presence(c.aws.value.accessKey)
        + ", secretKey=" + Presence(c.aws.value.secretKey)
        + ", region=" + Shown(c.aws.value.region)
        + ", bucketName=" + Shown(c.aws.value.bucketName);
      var mistral := if c.mistral.None? then "" else
        "\n  Mistral: apiUrl=" + Shown(c.mistral.value.apiUrl)
        + ", apiKey=" + Presence(c.mistral.value.apiKey);
      var text := "Configuration Summary:" + (jwt + aws + mistral);
      assert text[..22] == "Configuration Summary:";
      Some(text)
  }

  /** Two configurations that differ only in their secret values, not in
      which secrets are present. */
  predicate SameButSecrets(a: AppConfiguration, b: AppConfiguration) {
    && a.jwt.Some? == b.jwt.Some?
    && (a.jwt.Some? ==>
          a.jwt.value.secret.Some? == b.jwt.value.secret.Some?
          && a.jwt.value.expiration == b.jwt.value.expiration
          && a.jwt.value.refreshExpiration == b.jwt.value.refreshExpiration)
    && a.aws.Some? == b.aws.Some?
    && (a.aws.Some? ==>
          a.aws.value.accessKey.Some? == b.aws.value.accessKey.Some?
          && a.aws.value.secretKey.Some? == b.aws.value.secretKey.Some?
          && a.aws.value.region == b.aws.value.region
          && a.aws.value.bucketName == b.aws.value.bucketName)
    && a.mistral.Some? == b.mistral.Some?
    && (a.mistral.Some? ==>
          a.mistral.value.apiKey.Some? == b.mistral.value.apiKey.Some?
          && a.mistral.value.apiUrl == b.mistral.value.apiUrl)
  }

  /** The summary reveals no secret: configurations that differ only in
      their secret values log the same text. */
  lemma SummaryHidesSecrets(a: AppConfiguration, b: AppConfiguration)
    requires SameButSecrets(a, b)
    ensures ConfigurationSummary(Some(a)) == ConfigurationSummary(Some(b))
  {
  }
}
