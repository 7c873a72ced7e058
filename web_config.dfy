/**
 * `APISettings`: the web service settings, their defaults and bounds, and the
 * normalisation and consistency checks of `from_env`.
 */
module WebConfig {
  import opened Wrappers
  import opened Text

  /** CORS origins as configured: a list, or a raw comma-separated string from the environment. */
  datatype Origins = OriginList(items: seq<string>) | OriginString(raw: string)

  datatype APISettings = APISettings(
    corsEnabled: bool,
    corsOrigins: Origins,
    corsAllowCredentials: bool,
    corsAllowMethods: seq<string>,
    corsAllowHeaders: seq<string>,
    enableMetrics: bool,
    enableUnversionedRoutes: bool,
    maxBodyMb: int,
    maxRows: int,
    logLevel: string,
    logFormat: string,
    rateLimitEnabled: bool,
    rateLimitPerMinute: int,
    jwtEnabled: bool,
    jwtSecret: Option<string>,
    jwtAlgorithm: string,
    jobPersistenceEnabled: bool,
    jobPersistencePath: string)

  const Defaults := APISettings(
    true, OriginList([]), false, ["GET", "POST", "OPTIONS"], ["Content-Type", "Accept"],
    true, true, 50, 200000, "INFO", "json", false, 60, false, None, "HS256", false,
    "/tmp/datafusion-ml-jobs")

  /** The values found in the `DFML_*` environment variables, already converted to their types. */
  datatype EnvValues = EnvValues(
    corsEnabled: Option<bool>,
    corsOrigins: Option<Origins>,
    corsAllowCredentials: Option<bool>,
    corsAllowMethods: Option<seq<string>>,
    corsAllowHeaders: Option<seq<string>>,
    enableMetrics: Option<bool>,
    enableUnversionedRoutes: Option<bool>,
    maxBodyMb: Option<int>,
    maxRows: Option<int>,
    logLevel: Option<string>,
    logFormat: Option<string>,
    rateLimitEnabled: Option<bool>,
    rateLimitPerMinute: Option<int>,
    jwtEnabled: Option<bool>,
    jwtSecret: Option<Option<string>>,
    jwtAlgorithm: Option<string>,
    jobPersistenceEnabled: Option<bool>,
    jobPersistencePath: Option<string>)

  const NoEnv := EnvValues(None, None, None, None, None, None, None, None, None, None, None,
                           None, None, None, None, None, None, None)

  datatype ConfigError =
    | OutOfRange(fields: set<string>)  // the `ge=1` field constraints
    | CredentialsWithWildcard          // credentials allowed together with origin "*"
    | MissingJwtSecret                 // JWT enabled without a secret

  function Or<T>(value: Option<T>, default: T): T
  {
    if value.Some? then value.value else default
  }

  /** The names of the integer fields below their lower bound of 1. */
  function BelowMinimum(s: APISettings): (r: set<string>)
    ensures r == {} <==> s.maxBodyMb >= 1 && s.maxRows >= 1 && s.rateLimitPerMinute >= 1
  {
    (if s.maxBodyMb < 1 then {"max_body_mb"} else {})
    + (if s.maxRows < 1 then {"max_rows"} else {})
    + (if s.rateLimitPerMinute < 1 then {"rate_limit_per_minute"} else {})
  }

  /** `APISettings()`: every field takes its environment value or its default. */
  function Overlay(env: EnvValues): (s: APISettings)
    ensures env == NoEnv ==> s == Defaults
  {
    APISettings(
      Or(env.corsEnabled, Defaults.corsEnabled),
      Or(env.corsOrigins, Defaults.corsOrigins),
      Or(env.corsAllowCredentials, Defaults.corsAllowCredentials),
      Or(env.corsAllowMethods, Defaults.corsAllowMethods),
      Or(env.corsAllowHeaders, Defaults.corsAllowHeaders),
      Or(env.enableMetrics, Defaults.enableMetrics),
      Or(env.enableUnversionedRoutes, Defaults.enableUnversionedRoutes),
      Or(env.maxBodyMb, Defaults.maxBodyMb),
      Or(env.maxRows, Defaults.maxRows),
      Or(env.logLevel, Defaults.logLevel),
      Or(env.logFormat, Defaults.logFormat),
      Or(env.rateLimitEnabled, Defaults.rateLimitEnabled),
      Or(env.rateLimitPerMinute, Defaults.rateLimitPerMinute),
      Or(env.jwtEnabled, Defaults.jwtEnabled),
      Or(env.jwtSecret, Defaults.jwtSecret),
      Or(env.jwtAlgorithm, Defaults.jwtAlgorithm),
      Or(env.jobPersistenceEnabled, Defaults.jobPersistenceEnabled),
      Or(env.jobPersistencePath, Defaults.jobPersistencePath))
  }

  /** The origin list after normalisation: a raw string becomes its comma list. */
  function NormalizeOrigins(o: Origins): (r: seq<string>)
    ensures o.OriginList? ==> r == o.items
    ensures o.OriginString? ==> r == CommaList(o.raw)
  {
    match o
    case OriginList(items) => items
    case OriginString(raw) => CommaList(raw)
  }

  /** A secret counts as set when it is present and not empty. */
  predicate HasSecret(secret: Option<string>)
  {
    secret.Some? && secret.value != ""
  }

  /**
   * `APISettings.from_env`: construct the settings (rejecting out-of-range integers), turn
   * a raw origin string into its comma list, then reject credentials with the wildcard origin
   * and JWT without a secret, in that order.
   */
  method FromEnv(env: EnvValues) returns (r: Result<APISettings, ConfigError>)
    ensures var s := Overlay(env);
      && (BelowMinimum(s) != {} ==> r == Err(OutOfRange(BelowMinimum(s))))
      && (BelowMinimum(s) == {} && s.corsAllowCredentials && "*" in NormalizeOrigins(s.corsOrigins) ==>
            r == Err(CredentialsWithWildcard))
      && ((BelowMinimum(s) == {} && !(s.corsAllowCredentials && "*" in NormalizeOrigins(s.corsOrigins))
           && s.jwtEnabled && !HasSecret(s.jwtSecret)) ==> r == Err(MissingJwtSecret))
      && (r.Ok? <==> BelowMinimum(s) == {} && !(s.corsAllowCredentials && "*" in NormalizeOrigins(s.corsOrigins))
                     && !(s.jwtEnabled && !HasSecret(s.jwtSecret)))
      && (r.Ok? ==> r.value == s.(corsOrigins := OriginList(NormalizeOrigins(s.corsOrigins))))
    ensures r.Ok? ==>
      && r.value.maxBodyMb >= 1 && r.value.maxRows >= 1 && r.value.rateLimitPerMinute >= 1
      && r.value.corsOrigins.OriginList?
      && !(r.value.corsAllowCredentials && "*" in r.value.corsOrigins.items)
      && (r.value.jwtEnabled ==> HasSecret(r.value.jwtSecret))
  {
    var settings := Overlay(env);
    ghost var constructed := settings;
    var invalid := BelowMinimum(settings);
    if invalid != {} {
      return Err(OutOfRange(invalid));
    }
    if settings.corsOrigins.OriginString? {
      var originsList := CommaList(settings.corsOrigins.raw);
      settings := settings.(corsOrigins := OriginList(originsList));
    }
    assert settings == constructed.(corsOrigins := OriginList(NormalizeOrigins(constructed.corsOrigins)));
    if settings.corsAllowCredentials && "*" in settings.corsOrigins.items {
      return Err(CredentialsWithWildcard);
    }
    if settings.jwtEnabled && !HasSecret(settings.jwtSecret) {
      return Err(MissingJwtSecret);
    }
    r := Ok(settings);
  }

  /** The defaults satisfy every bound and both consistency checks. */
  lemma DefaultsAreConsistent()
    ensures BelowMinimum(Overlay(NoEnv)) == {}
    ensures !(Defaults.corsAllowCredentials && "*" in NormalizeOrigins(Defaults.corsOrigins))
    ensures !(Defaults.jwtEnabled && !HasSecret(Defaults.jwtSecret))
    ensures Defaults.maxBodyMb == 50 && Defaults.maxRows == 200000 && Defaults.rateLimitPerMinute == 60
  {
  }

  /** A wildcard among the raw origins is never accepted together with credentials. */
  lemma WildcardInRawOrigins(raw: string)
    requires "*" in Split(raw, ',')
    ensures "*" in NormalizeOrigins(OriginString(raw))
  {
    var pieces := Split(raw, ',');
    var i :| 0 <= i < |pieces| && pieces[i] == "*";
    StrippedNonBlankKeepsStripped(pieces, i);
  }
}
