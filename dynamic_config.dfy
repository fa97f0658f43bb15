/** The getters of backend/.../config/DynamicConfigurationProperties.java.
    Each reads the configuration the loader hands out (`config`, null when
    there is none) and either returns a field, falls back to a default when
    the section is missing, or throws `IllegalStateException` (an `Err`)
    when a required value is missing. */
module DynamicConfig {
  import opened Base
  import opened AppConfig
  import DynamoConfig

  const DefaultFuelLogosBucketName: string := "fuel-company-logos"
  const DefaultAppName: string := "Sweet Potato"

  function Jwt(config: Option<AppConfiguration>): Option<JwtConfiguration> {
    if config.Some? then config.value.jwt else None
  }

  function Aws(config: Option<AppConfiguration>): Option<AwsConfiguration> {
    if config.Some? then config.value.aws else None
  }

  function Mistral(config: Option<AppConfiguration>): Option<MistralConfiguration> {
    if config.Some? then config.value.mistral else None
  }

  /** A required value: present, or the `IllegalStateException` message. */
  function Required(value: Option<string>, message: string): (r: Result<string, string>)
    ensures r.Ok? <==> value.Some?
    ensures r.Ok? ==> r.value == value.value
    ensures r.Err? ==> r.error == message
  {
    if value.Some? then Ok(value.value) else Err(message)
  }

  function GetJwtSecret(config: Option<AppConfiguration>): (r: Result<string, string>)
    ensures r.Ok? <==> Jwt(config).Some? && Jwt(config).value.secret.Some?
    ensures r.Ok? ==> r.value == Jwt(config).value.secret.value
    ensures r.Err? ==> r.error == "JWT secret is required but not configured"
  {
    Required(if Jwt(config).Some? then Jwt(config).value.secret else None,
             "JWT secret is required but not configured")
  }

  /** The conditional mixes the boxed field with a primitive default, so the
      field is unboxed: a JWT section without an expiration throws
      `NullPointerException` instead of returning null. */
  function GetJwtExpiration(config: Option<AppConfiguration>): (r: Result<int, string>)
    ensures Jwt(config).None? ==> r == Ok(DynamoConfig.DefaultJwtExpiration)
    ensures Jwt(config).Some? ==> (r.Ok? <==> Jwt(config).value.expiration.Some?)
    ensures Jwt(config).Some? && r.Ok? ==> r.value == Jwt(config).value.expiration.value
    ensures r.Err? ==> r.error == "NullPointerException"
  {
    if Jwt(config).None? then Ok(DynamoConfig.DefaultJwtExpiration)
    else if Jwt(config).value.expiration.None? then Err("NullPointerException")
    else Ok(Jwt(config).value.expiration.value)
  }

  /** Unboxed in the same way as the expiration. */
  function GetJwtRefreshExpiration(config: Option<AppConfiguration>): (r: Result<int, string>)
    ensures Jwt(config).None? ==> r == Ok(DynamoConfig.DefaultJwtRefreshExpiration)
    ensures Jwt(config).Some? ==> (r.Ok? <==> Jwt(config).value.refreshExpiration.Some?)
    ensures Jwt(config).Some? && r.Ok? ==> r.value == Jwt(config).value.refreshExpiration.value
    ensures r.Err? ==> r.error == "NullPointerException"
  {
    if Jwt(config).None? then Ok(DynamoConfig.DefaultJwtRefreshExpiration)
    else if Jwt(config).value.refreshExpiration.None? then Err("NullPointerException")
    else Ok(Jwt(config).value.refreshExpiration.value)
  }

  function GetAwsAccessKey(config: Option<AppConfiguration>): (r: Result<string, string>)
    ensures r.Ok? <==> Aws(config).Some? && Aws(config).value.accessKey.Some?
    ensures r.Ok? ==> r.value == Aws(config).value.accessKey.value
    ensures r.Err? ==> r.error == "AWS access key is required but not configured"
  {
    Required(if Aws(config).Some? then Aws(config).value.accessKey else None,
             "AWS access key is required but not configured")
  }

  function GetAwsSecretKey(config: Option<AppConfiguration>): (r: Result<string, string>)
    ensures r.Ok? <==> Aws(config).Some? && Aws(config).value.secretKey.Some?
    ensures r.Ok? ==> r.value == Aws(config).value.secretKey.value
    ensures r.Err? ==> r.error == "AWS secret key is required but not configured"
  {
    Required(if Aws(config).Some? then Aws(config).value.secretKey else None,
             "AWS secret key is required but not configured")
  }

  /** With an AWS section, its value, null included; else the default. */
  function GetAwsRegion(config: Option<AppConfiguration>): (r: Option<string>)
    ensures Aws(config).Some? ==> r == Aws(config).value.region
    ensures Aws(config).None? ==> r == Some(DynamoConfig.DefaultAwsRegion)
  {
    if Aws(config).Some? then Aws(config).value.region else Some(DynamoConfig.DefaultAwsRegion)
  }

  /** With an AWS section, its value, null included; else the default. */
  function GetAwsBucketName(config: Option<AppConfiguration>): (r: Option<string>)
    ensures Aws(config).Some? ==> r == Aws(config).value.bucketName
    ensures Aws(config).None? ==> r == Some(DynamoConfig.DefaultBucketName)
  {
    if Aws(config).Some? then Aws(config).value.bucketName else Some(DynamoConfig.DefaultBucketName)
  }

  /** With an AWS section, its value, null included; else the default. */
  function GetAwsFuelLogosBucketName(config: Option<AppConfiguration>): (r: Option<string>)
    ensures Aws(config).Some? ==> r == Aws(config).value.fuelLogosBucketName
    ensures Aws(config).None? ==> r == Some(DefaultFuelLogosBucketName)
  {
    if Aws(config).Some? then Aws(config).value.fuelLogosBucketName else Some(DefaultFuelLogosBucketName)
  }

  function GetSesFromEmail(config: Option<AppConfiguration>): (r: Result<string, string>)
    ensures r.Ok? <==> Aws(config).Some? && Aws(config).value.sesFromEmail.Some?
    ensures r.Ok? ==> r.value == Aws(config).value.sesFromEmail.value
    ensures r.Err? ==> r.error == "SES from email is required but not configured"
  {
    Required(if Aws(config).Some? then Aws(config).value.sesFromEmail else None,
             "SES from email is required but not configured")
  }

  /** The reply-to address (possibly null) when there is an AWS section;
      otherwise the from address is asked for instead. */
  function GetSesReplyToEmail(config: Option<AppConfiguration>): (r: Result<Option<string>, string>)
    ensures Aws(config).Some? ==> r == Ok(Aws(config).value.sesReplyToEmail)
  {
    if Aws(config).Some? then Ok(Aws(config).value.sesReplyToEmail)
    else
      match GetSesFromEmail(config)
      case Ok(email) => Ok(Some(email))
      case Err(e) => Err(e)
  }

  /** With an AWS section, its value, null included; else the default. */
  function GetAppName(config: Option<AppConfiguration>): (r: Option<string>)
    ensures Aws(config).Some? ==> r == Aws(config).value.appName
    ensures Aws(config).None? ==> r == Some(DefaultAppName)
  {
    if Aws(config).Some? then Aws(config).value.appName else Some(DefaultAppName)
  }

  /** With a Mistral section, its value, null included; else the default. */
  function GetMistralApiUrl(config: Option<AppConfiguration>): (r: Option<string>)
    ensures Mistral(config).Some? ==> r == Mistral(config).value.apiUrl
    ensures Mistral(config).None? ==> r == Some(DynamoConfig.DefaultMistralApiUrl)
  {
    if Mistral(config).Some? then Mistral(config).value.apiUrl else Some(DynamoConfig.DefaultMistralApiUrl)
  }

  function GetMistralApiKey(config: Option<AppConfiguration>): (r: Result<string, string>)
    ensures r.Ok? <==> Mistral(config).Some? && Mistral(config).value.apiKey.Some?
    ensures r.Ok? ==> r.value == Mistral(config).value.apiKey.value
    ensures r.Err? ==> r.error == "Mistral API key is required but not configured"
  {
    Required(if Mistral(config).Some? then Mistral(config).value.apiKey else None,
             "Mistral API key is required but not configured")
  }

  // ---------------------------------------------------------------------
  // What the getters give for a missing and for a loaded configuration
  // ---------------------------------------------------------------------

  /** With no configuration every defaulted getter gives its default and
      every required one throws; the reply-to address falls back to the
      from address, so it throws too. */
  lemma NoConfigurationDefaults()
    ensures GetJwtExpiration(None) == Ok(86400000)
    ensures GetJwtRefreshExpiration(None) == Ok(604800000)
    ensures GetAwsRegion(None) == Some("ap-south-1")
    ensures GetAwsBucketName(None) == Some("sweet-potato-receipts")
    ensures GetAwsFuelLogosBucketName(None) == Some("fuel-company-logos")
    ensures GetAppName(None) == Some("Sweet Potato")
    ensures GetMistralApiUrl(None) == Some("https://api.mistral.ai/v1")
    ensures GetJwtSecret(None).Err? && GetAwsAccessKey(None).Err? && GetAwsSecretKey(None).Err?
    ensures GetSesFromEmail(None).Err? && GetMistralApiKey(None).Err?
    ensures GetSesReplyToEmail(None) == Err("SES from email is required but not configured")
  {
  }

  /** Without an AWS section the reply-to getter always throws, whatever
      else the configuration holds. */
  lemma ReplyToWithoutAwsThrows(config: Option<AppConfiguration>)
    requires Aws(config).None?
    ensures GetSesReplyToEmail(config) == Err("SES from email is required but not configured")
  {
  }

  /** For a configuration loaded from the table: the JWT secret is there
      exactly when the table stores a non-null "jwt.secret"; the expirations
      are never null, so their getters never throw; the logo bucket and the application name read as null
      rather than their defaults, and the SES from address always throws,
      because the table loader never sets them. */
  lemma LoadedConfiguration(configs: map<Option<string>, DynamoConfig.ConfigurationItem>)
    ensures var config := Some(DynamoConfig.BuildConfiguration(configs));
            && (GetJwtSecret(config).Ok? <==>
                  Some("jwt.secret") in configs && configs[Some("jwt.secret")].configValue.Some?)
            && GetJwtExpiration(config).Ok? && GetJwtRefreshExpiration(config).Ok?
            && GetAwsFuelLogosBucketName(config).None?
            && GetAppName(config).None?
            && GetSesFromEmail(config).Err?
            && GetSesReplyToEmail(config) == Ok(None)
  {
    DynamoConfig.ExpirationsAlwaysSet(configs);
  }
}
