/** The configuration table of backend/.../service/DynamoDbConfigService.java.
    A table item is a map from attribute names to attribute values; the
    service scans the items of its environment, turns each into a
    `ConfigurationItem` (decrypting encrypted values), keys them by their
    `configKey`, and builds the application configuration from that map with
    per-key defaults. The table's contents, the store's failures and the
    AES decryption are inputs. */
module DynamoConfig {
  import opened Base
  import opened Text
  import opened AppConfig

  /** A DynamoDB `AttributeValue`: its string, number and boolean parts,
      each possibly null. */
  datatype AttributeValue = AttributeValue(s: Option<string>, n: Option<string>, boolValue: Option<bool>)

  type Item = map<string, AttributeValue>

  datatype ConfigurationItem = ConfigurationItem(
    configKey: Option<string>,
    configValue: Option<string>,
    environment: Option<string>,
    encrypted: bool,
    description: Option<string>,
    lastUpdated: Option<int>)

  /** The decryption of a stored value; `None` when it fails. */
  type Decrypt = string -> Option<string>

  const MinLong: int := -0x8000_0000_0000_0000
  const MaxLong: int := 0x7FFF_FFFF_FFFF_FFFF

  const DefaultJwtExpiration: int := 86400000
  const DefaultJwtRefreshExpiration: int := 604800000
  const DefaultAwsRegion: string := "ap-south-1"
  const DefaultBucketName: string := "sweet-potato-receipts"
  const DefaultMistralApiUrl: string := "https://api.mistral.ai/v1"

  // ---------------------------------------------------------------------
  // Long.valueOf
  // ---------------------------------------------------------------------

  predicate AllDigits(s: string) {
    forall i | 0 <= i < |s| :: IsDigit(s[i])
  }

  /** `Long.valueOf(String)`: an optional sign, then one or more decimal
      digits, in the 64-bit range; `None` where Java throws
      `NumberFormatException` (null included). */
  function ParseLong(s: Option<string>): (r: Option<int>)
    ensures r.Some? ==> MinLong <= r.value <= MaxLong
    ensures s.None? || s.value == [] ==> r.None?
  {
    if s.None? || s.value == [] then None
    else
      var t := s.value;
      var digits := if t[0] == '-' || t[0] == '+' then t[1..] else t;
      if digits == [] || !AllDigits(digits) then None
      else
        var magnitude: int := DigitsValue(digits);
        var v := if t[0] == '-' then -magnitude else magnitude;
        if MinLong <= v <= MaxLong then Some(v) else None
  }

  /** `Long.valueOf(String.valueOf(n))` gives back `n`. */
  lemma ParseLongOfString(n: int)
    requires MinLong <= n <= MaxLong
    ensures ParseLong(Some(IntToString(n))) == Some(n)
  {
    var t := IntToString(n);
    if n < 0 {
      assert t[0] == '-';
      assert t[1..] == NatToString(-n);
      NatToStringValue(-n);
    } else {
      assert t == NatToString(n);
      assert IsDigit(t[0]);
      NatToStringValue(n);
    }
  }

  // ---------------------------------------------------------------------
  // Items
  // ---------------------------------------------------------------------

  /** The string part of attribute `name`; `None` when the attribute is
      present but holds no string. The caller checks presence. */
  function StringAttr(item: Item, name: string): Option<string>
    requires name in item
  {
    item[name].s
  }

  /** `mapToConfigurationItem`. A missing key, value or environment
      attribute, a present `encrypted` attribute without a boolean, a
      present `lastUpdated` that is not a Long, and a failed decryption all
      throw. */
  function MapToConfigurationItem(item: Item, decrypt: Decrypt): (r: Result<ConfigurationItem, string>)
    ensures "configKey" !in item || "configValue" !in item || "environment" !in item ==> r.Err?
    ensures "encrypted" in item && item["encrypted"].boolValue.None? ==> r.Err?
    ensures "lastUpdated" in item && ParseLong(item["lastUpdated"].n).None? ==> r.Err?
    ensures r.Ok? ==>
              && "configKey" in item && "configValue" in item && "environment" in item
              && r.value.configKey == item["configKey"].s
              && r.value.environment == item["environment"].s
              // absent means false
              && (r.value.encrypted <==> "encrypted" in item && item["encrypted"].boolValue == Some(true))
              // a plain value is kept, an encrypted one is replaced by its decryption
              && (!r.value.encrypted ==> r.value.configValue == item["configValue"].s)
              && (r.value.encrypted ==>
                    item["configValue"].s.Some? && r.value.configValue == decrypt(item["configValue"].s.value)
                    && r.value.configValue.Some?)
              // absent optional attributes read as null
              && (r.value.description == if "description" in item then item["description"].s else None)
              && (r.value.lastUpdated.Some? <==> "lastUpdated" in item)
              && ("lastUpdated" in item ==> r.value.lastUpdated == ParseLong(item["lastUpdated"].n))
    ensures r.Err? && "configKey" in item && "configValue" in item && "environment" in item
            && !("encrypted" in item && item["encrypted"].boolValue.None?)
            && !("lastUpdated" in item && ParseLong(item["lastUpdated"].n).None?) ==>
              // the only error left is a failed decryption
              && "encrypted" in item && item["encrypted"].boolValue == Some(true)
              && (item["configValue"].s.None? || decrypt(item["configValue"].s.value).None?)
  {
    if "configKey" !in item || "configValue" !in item || "environment" !in item then
      Err("NullPointerException")
    else
      var configKey := StringAttr(item, "configKey");
      var configValue := StringAttr(item, "configValue");
      var environment := StringAttr(item, "environment");
      if "encrypted" in item && item["encrypted"].boolValue.None? then Err("NullPointerException")
      else
        var encrypted := "encrypted" in item && item["encrypted"].boolValue == Some(true);
        var description := if "description" in item then StringAttr(item, "description") else None;
        if "lastUpdated" in item && ParseLong(item["lastUpdated"].n).None? then Err("NumberFormatException")
        else
          var lastUpdated := if "lastUpdated" in item then ParseLong(item["lastUpdated"].n) else None;
          if encrypted && (configValue.None? || decrypt(configValue.value).None?) then
            Err("Failed to decrypt configuration value")
          else
            var value := if encrypted then decrypt(configValue.value) else configValue;
            Ok(ConfigurationItem(configKey, value, environment, encrypted, description, lastUpdated))
  }

  /** The scan's filter: the item's `environment` string is `env`. */
  predicate InEnvironment(item: Item, env: string) {
    "environment" in item && item["environment"].s == Some(env)
  }

  /** The items a scan of `table` for `env` returns, in table order. */
  function Scanned(table: seq<Item>, env: string): (r: seq<Item>)
    ensures forall i | 0 <= i < |r| :: InEnvironment(r[i], env)
    ensures forall i | 0 <= i < |table| && InEnvironment(table[i], env) :: table[i] in r
    ensures forall it | it in r :: it in table
  {
    if table == [] then []
    else
      var rest := Scanned(table[..|table| - 1], env);
      var last := table[|table| - 1];
      assert forall i | 0 <= i < |table| - 1 :: table[i] == table[..|table| - 1][i];
      if InEnvironment(last, env) then rest + [last] else rest
  }

  /** Every item mapped in order; the first failure is the result. */
  function MapItems(items: seq<Item>, decrypt: Decrypt): (r: Result<seq<ConfigurationItem>, string>)
    ensures r.Ok? <==> forall i | 0 <= i < |items| :: MapToConfigurationItem(items[i], decrypt).Ok?
    ensures r.Ok? ==> |r.value| == |items|
                      && forall i | 0 <= i < |items| :: Ok(r.value[i]) == MapToConfigurationItem(items[i], decrypt)
  {
    if items == [] then Ok([])
    else
      var init := items[..|items| - 1];
      assert forall i | 0 <= i < |init| :: init[i] == items[i];
      match MapItems(init, decrypt)
      case Err(e) => Err(e)
      case Ok(done) =>
        match MapToConfigurationItem(items[|items| - 1], decrypt)
        case Err(e) => Err(e)
        case Ok(c) => Ok(done + [c])
  }

  /** The map `configs.put(c.getConfigKey(), c)` builds over `cs`: a later
      item replaces an earlier one with the same key (a null key included). */
  function Collapse(cs: seq<ConfigurationItem>): (r: map<Option<string>, ConfigurationItem>)
    ensures forall k :: k in r <==> exists i | 0 <= i < |cs| :: cs[i].configKey == k
    ensures forall k | k in r :: r[k].configKey == k && r[k] in cs
  {
    if cs == [] then map[]
    else
      var init := cs[..|cs| - 1];
      var last := cs[|cs| - 1];
      assert forall i | 0 <= i < |init| :: init[i] == cs[i];
      Collapse(init)[last.configKey := last]
  }

  /** The value stored under a key is the last item carrying that key. */
  lemma {:induction false} CollapseLastWins(cs: seq<ConfigurationItem>, i: nat)
    requires i < |cs|
    requires forall j | i < j < |cs| :: cs[j].configKey != cs[i].configKey
    ensures cs[i].configKey in Collapse(cs) && Collapse(cs)[cs[i].configKey] == cs[i]
    decreases |cs|
  {
    if i < |cs| - 1 {
      var init := cs[..|cs| - 1];
      assert init[i] == cs[i];
      CollapseLastWins(init, i);
    }
  }

  /** Mapping one more item: a failure fails the whole list, a success is
      appended. */
  lemma MapItemsStep(items: seq<Item>, i: nat, decrypt: Decrypt)
    requires i < |items| && MapItems(items[..i], decrypt).Ok?
    ensures MapToConfigurationItem(items[i], decrypt).Err? ==> MapItems(items, decrypt).Err?
    ensures MapToConfigurationItem(items[i], decrypt).Ok? ==>
              MapItems(items[..i + 1], decrypt)
              == Ok(MapItems(items[..i], decrypt).value + [MapToConfigurationItem(items[i], decrypt).value])
  {
    var pre := items[..i + 1];
    assert pre[..|pre| - 1] == items[..i] && pre[|pre| - 1] == items[i];
  }

  lemma CollapseSnoc(cs: seq<ConfigurationItem>, c: ConfigurationItem)
    ensures Collapse(cs + [c]) == Collapse(cs)[c.configKey := c]
  {
    var all := cs + [c];
    assert all[..|all| - 1] == cs && all[|all| - 1] == c;
  }

  /** `loadAllConfigurations`. The scan's failure (`table` is `Err`) and any
      item that fails to map become one error. */
  method LoadAllConfigurations(table: Result<seq<Item>, string>, env: string, decrypt: Decrypt)
    returns (r: Result<map<Option<string>, ConfigurationItem>, string>)
    ensures r.Ok? <==> table.Ok? && MapItems(Scanned(table.value, env), decrypt).Ok?
    ensures r.Ok? ==> r.value == Collapse(MapItems(Scanned(table.value, env), decrypt).value)
    ensures r.Err? ==> r.error == "Failed to scan configuration table"
  {
    if table.Err? {
      return Err("Failed to scan configuration table");
    }
    var items := Scanned(table.value, env);
    var configs: map<Option<string>, ConfigurationItem> := map[];
    var i := 0;
    assert items[..0] == [];
    while i < |items|
      invariant 0 <= i <= |items|
      invariant MapItems(items[..i], decrypt).Ok?
      invariant configs == Collapse(MapItems(items[..i], decrypt).value)
    {
      MapItemsStep(items, i, decrypt);
      var config := MapToConfigurationItem(items[i], decrypt);
      if config.Err? {
        return Err("Failed to scan configuration table");
      }
      CollapseSnoc(MapItems(items[..i], decrypt).value, config.value);
      configs := configs[config.value.configKey := config.value];
      i := i + 1;
    }
    assert items[..i] == items;
    return Ok(configs);
  }

  // ---------------------------------------------------------------------
  // Building the configuration
  // ---------------------------------------------------------------------

  /** `getConfigValue(configs, key, defaultValue)`: the stored value (which
      may be null) or the default. */
  function ValueOrDefault(configs: map<Option<string>, ConfigurationItem>, key: string, default: string): Option<string> {
    if Some(key) in configs then configs[Some(key)].configValue else Some(default)
  }

  /** `getConfigValue(configs, key)`: the stored value, or null. */
  function ValueOf(configs: map<Option<string>, ConfigurationItem>, key: string): Option<string> {
    if Some(key) in configs then configs[Some(key)].configValue else None
  }

  /** `getConfigValueAsLong`: the stored value read as a Long; the default
      when the key is missing or its value is null or not a Long. */
  function ValueAsLong(configs: map<Option<string>, ConfigurationItem>, key: string, default: int): (r: int)
    requires MinLong <= default <= MaxLong
    ensures MinLong <= r <= MaxLong
    ensures Some(key) !in configs ==> r == default
    ensures Some(key) in configs ==>
              r == (if ParseLong(configs[Some(key)].configValue).Some?
                    then ParseLong(configs[Some(key)].configValue).value else default)
  {
    var value := ValueOrDefault(configs, key, IntToString(default));
    ParseLongOfString(default);
    match ParseLong(value)
    case Some(v) => v
    case None => default
  }

  function BuildJwtConfiguration(configs: map<Option<string>, ConfigurationItem>): (r: JwtConfiguration)
    // the secret as stored, null when missing
    ensures r.secret == (if Some("jwt.secret") in configs then configs[Some("jwt.secret")].configValue else None)
    // both expirations are always set, to 64-bit values, the defaults when missing
    ensures r.expiration.Some? && MinLong <= r.expiration.value <= MaxLong
    ensures r.refreshExpiration.Some? && MinLong <= r.refreshExpiration.value <= MaxLong
    ensures Some("jwt.expiration") !in configs ==> r.expiration == Some(DefaultJwtExpiration)
    ensures Some("jwt.refresh.expiration") !in configs ==> r.refreshExpiration == Some(DefaultJwtRefreshExpiration)
  {
    JwtConfiguration(
      ValueOf(configs, "jwt.secret"),
      Some(ValueAsLong(configs, "jwt.expiration", DefaultJwtExpiration)),
      Some(ValueAsLong(configs, "jwt.refresh.expiration", DefaultJwtRefreshExpiration)))
  }

  /** The four fields the DTO does not declare stay null. */
  function BuildAwsConfiguration(configs: map<Option<string>, ConfigurationItem>): (r: AwsConfiguration)
    // the keys as stored, null when missing
    ensures r.accessKey == (if Some("aws.access.key") in configs then configs[Some("aws.access.key")].configValue else None)
    ensures r.secretKey == (if Some("aws.secret.key") in configs then configs[Some("aws.secret.key")].configValue else None)
    // region and bucket as stored, null included, else their defaults
    ensures r.region == (if Some("aws.region") in configs then configs[Some("aws.region")].configValue
                         else Some(DefaultAwsRegion))
    ensures r.bucketName == (if Some("aws.s3.bucket.name") in configs then configs[Some("aws.s3.bucket.name")].configValue
                             else Some(DefaultBucketName))
    ensures r.fuelLogosBucketName.None? && r.sesFromEmail.None? && r.sesReplyToEmail.None? && r.appName.None?
  {
    AwsConfiguration(
      ValueOf(configs, "aws.access.key"),
      ValueOf(configs, "aws.secret.key"),
      ValueOrDefault(configs, "aws.region", DefaultAwsRegion),
      ValueOrDefault(configs, "aws.s3.bucket.name", DefaultBucketName),
      None, None, None, None)
  }

  function BuildMistralConfiguration(configs: map<Option<string>, ConfigurationItem>): (r: MistralConfiguration)
    ensures r.apiUrl == (if Some("mistral.api.url") in configs then configs[Some("mistral.api.url")].configValue
                         else Some(DefaultMistralApiUrl))
    ensures r.apiKey == (if Some("mistral.api.key") in configs then configs[Some("mistral.api.key")].configValue else None)
  {
    MistralConfiguration(
      ValueOrDefault(configs, "mistral.api.url", DefaultMistralApiUrl),
      ValueOf(configs, "mistral.api.key"))
  }

  function BuildConfiguration(configs: map<Option<string>, ConfigurationItem>): (r: AppConfiguration)
    // every section is present, whatever the table holds
    ensures r.jwt.Some? && r.aws.Some? && r.mistral.Some?
    ensures r.jwt.value.expiration.Some? && r.jwt.value.refreshExpiration.Some?
  {
    AppConfiguration(
      Some(BuildJwtConfiguration(configs)),
      Some(BuildAwsConfiguration(configs)),
      Some(BuildMistralConfiguration(configs)))
  }

  /** With no stored keys every section is present and every defaulted
      field holds its default. */
  lemma EmptyTableDefaults()
    ensures BuildConfiguration(map[]) == AppConfiguration(
              Some(JwtConfiguration(None, Some(86400000), Some(604800000))),
              Some(AwsConfiguration(None, None, Some("ap-south-1"), Some("sweet-potato-receipts"),
                                    None, None, None, None)),
              Some(MistralConfiguration(Some("https://api.mistral.ai/v1"), None)))
  {
  }

  /** A stored value always wins over the default, even a null one; a stored
      expiration is used when it reads as a Long. */
  lemma StoredValuesWin(configs: map<Option<string>, ConfigurationItem>)
    ensures Some("aws.region") in configs ==>
              BuildConfiguration(configs).aws.value.region == configs[Some("aws.region")].configValue
    ensures Some("mistral.api.url") in configs ==>
              BuildConfiguration(configs).mistral.value.apiUrl == configs[Some("mistral.api.url")].configValue
    ensures Some("jwt.expiration") in configs && ParseLong(configs[Some("jwt.expiration")].configValue).Some? ==>
              BuildConfiguration(configs).jwt.value.expiration
              == ParseLong(configs[Some("jwt.expiration")].configValue)
  {
  }

  /** The expirations of a loaded configuration are never null, and a value
      that is not a Long falls back to the default. */
  lemma ExpirationsAlwaysSet(configs: map<Option<string>, ConfigurationItem>)
    ensures BuildConfiguration(configs).jwt.value.expiration.Some?
    ensures BuildConfiguration(configs).jwt.value.refreshExpiration.Some?
    ensures Some("jwt.expiration") in configs && ParseLong(configs[Some("jwt.expiration")].configValue).None? ==>
              BuildConfiguration(configs).jwt.value.expiration == Some(DefaultJwtExpiration)
  {
  }

  /** `loadConfiguration`: every failure below becomes one error. */
  method LoadConfiguration(table: Result<seq<Item>, string>, env: string, decrypt: Decrypt)
    returns (r: Result<AppConfiguration, string>)
    ensures r.Ok? <==> table.Ok? && MapItems(Scanned(table.value, env), decrypt).Ok?
    ensures r.Ok? ==> r.value == BuildConfiguration(Collapse(MapItems(Scanned(table.value, env), decrypt).value))
    ensures r.Err? ==> r.error == "Failed to load application configuration"
  {
    var configs := LoadAllConfigurations(table, env, decrypt);
    if configs.Err? {
      return Err("Failed to load application configuration");
    }
    return Ok(BuildConfiguration(configs.value));
  }

  /** A loaded configuration holds only items of its own environment. */
  lemma LoadedItemsAreOwnEnvironment(table: seq<Item>, env: string, decrypt: Decrypt, k: Option<string>)
    requires MapItems(Scanned(table, env), decrypt).Ok?
    requires k in Collapse(MapItems(Scanned(table, env), decrypt).value)
    ensures Collapse(MapItems(Scanned(table, env), decrypt).value)[k].environment == Some(env)
  {
    var items := Scanned(table, env);
    var cs := MapItems(items, decrypt).value;
    var c := Collapse(cs)[k];
    var i :| 0 <= i < |cs| && cs[i] == c;
    assert InEnvironment(items[i], env);
    assert Ok(cs[i]) == MapToConfigurationItem(items[i], decrypt);
  }

  /** `getConfiguration(configKey)`. `fetched` is the store's answer for the
      (key, environment) pair: an item, no item, or a failure. */
  function GetConfiguration(configKey: string, fetched: Result<Option<Item>, string>, decrypt: Decrypt)
    : (r: Result<Option<ConfigurationItem>, string>)
    // no item, or an empty one, is not found
    ensures fetched.Ok? && (fetched.value.None? || fetched.value.value == map[]) ==> r == Ok(None)
    // every failure carries the key
    ensures r.Err? ==> r.error == "Failed to get configuration: " + configKey
    ensures fetched.Err? ==> r.Err?
    ensures fetched.Ok? && fetched.value.Some? && fetched.value.value != map[] ==>
              (r.Ok? <==> MapToConfigurationItem(fetched.value.value, decrypt).Ok?)
              && (r.Ok? ==> r.value == Some(MapToConfigurationItem(fetched.value.value, decrypt).value))
  {
    match fetched
    case Err(_) => Err("Failed to get configuration: " + configKey)
    case Ok(None) => Ok(None)
    case Ok(Some(item)) =>
      if item == map[] then Ok(None)
      else
        match MapToConfigurationItem(item, decrypt)
        case Err(_) => Err("Failed to get configuration: " + configKey)
        case Ok(c) => Ok(Some(c))
  }
}
