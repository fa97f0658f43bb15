/** The application configuration (backend/.../dto/config/AppConfiguration.java)
    that the DynamoDB loader builds and the configuration properties read.

    The AWS section carries, besides the four fields the DTO declares, the
    four that `DynamicConfigurationProperties` reads from it (the logo
    bucket, the SES addresses and the application name). No builder sets
    them, so a loaded configuration holds them as null. */
module AppConfig {
  import opened Base

  datatype JwtConfiguration = JwtConfiguration(
    secret: Option<string>,
    expiration: Option<int>,
    refreshExpiration: Option<int>)

  datatype AwsConfiguration = AwsConfiguration(
    accessKey: Option<string>,
    secretKey: Option<string>,
    region: Option<string>,
    bucketName: Option<string>,
    fuelLogosBucketName: Option<string>,
    sesFromEmail: Option<string>,
    sesReplyToEmail: Option<string>,
    appName: Option<string>)

  datatype MistralConfiguration = MistralConfiguration(
    apiUrl: Option<string>,
    apiKey: Option<string>)

  datatype AppConfiguration = AppConfiguration(
    jwt: Option<JwtConfiguration>,
    aws: Option<AwsConfiguration>,
    mistral: Option<MistralConfiguration>)
}
