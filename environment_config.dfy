/** `EnvironmentConfig`: the flags and the API base URL that follow from the build environment. */
module Environment {

  datatype AppEnvironment = Development | Staging | Production

  /** `isDebugLoggingEnabled`: verbose logging only in development. */
  function IsDebugLoggingEnabled(env: AppEnvironment): (enabled: bool)
    ensures enabled <==> env == Development
  {
    match env
    case Development => true
    case Staging => false
    case Production => false
  }

  /** `apiBaseURL`: one HTTPS endpoint per environment. */
  function ApiBaseURL(env: AppEnvironment): (url: string)
    ensures |url| > 8 && url[..8] == "https://"
  {
    match env
    case Development => "https://api.dev.nullrider.com"
    case Staging => "https://api.staging.nullrider.com"
    case Production => "https://api.nullrider.com"
  }

  /** `showBetaFeatures`: experimental features everywhere except production. */
  function ShowBetaFeatures(env: AppEnvironment): (shown: bool)
    ensures !shown <==> env == Production
  {
    match env
    case Development => true
    case Staging => true
    case Production => false
  }

  /** No two environments talk to the same server. */
  lemma BaseURLsDistinct(a: AppEnvironment, b: AppEnvironment)
    requires ApiBaseURL(a) == ApiBaseURL(b)
    ensures a == b
  {
  }

  /** Wherever debug logging is on, beta features are shown too. */
  lemma DebugLoggingImpliesBeta(env: AppEnvironment)
    ensures IsDebugLoggingEnabled(env) ==> ShowBetaFeatures(env)
  {
  }
}
