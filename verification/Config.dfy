/** The `[auth]` block of the configuration (`server/src/config/validate.rs`,
    `server/src/config/server_config.rs`) and what loading it guarantees to the
    timing and replay checks. */
module Config {
  import opened Prelude
  import Crypto
  import Timing
  import ReplayRuns
  import ReplayTheorems

  const I64_MAX: int := 0x7fff_ffff_ffff_ffff

  type I64 = n: int | -I64_MAX - 1 <= n <= I64_MAX

  /** A TOML scalar: an `i64`, a text together with what `str::parse::<u64>` makes of
      it, or anything else. */
  datatype TomlValue = Integer(n: I64) | Text(asU64: Option<U64>) | OtherValue

  datatype PartialAuth = PartialAuth(
    clockSkew: Option<TomlValue>,
    dpopFreshness: Option<TomlValue>,
    jwksRefresh: Option<TomlValue>,
    discoveryRefresh: Option<TomlValue>,
    onDemandInterval: Option<TomlValue>,
    jtiWindow: Option<TomlValue>,
    maxReplayEntries: Option<TomlValue>)

  datatype AuthConfig = AuthConfig(
    clockSkew: U64,
    dpopFreshness: U64,
    jwksRefresh: U64,
    discoveryRefresh: U64,
    onDemandInterval: U64,
    jtiWindow: U64,
    maxReplayEntries: nat)

  datatype ConfigError =
    | InvalidDuration(key: string)
    | InvalidMaxReplayEntries
    | ReplayWindowTooSmall(window: U64, freshness: U64, skew: U64, required: U64)

  const DEFAULTS: AuthConfig := AuthConfig(60, 30, 3600, 86_400, 30, 90, 100_000)

  const MIN_REPLAY_ENTRIES: nat := 1024

  function ParsePositiveU64(key: string, value: Option<TomlValue>): Result<Option<U64>, ConfigError> {
    match value
    case None => Ok(None)
    case Some(Integer(n)) => if n > 0 then Ok(Some(n)) else Err(InvalidDuration(key))
    case Some(Text(Some(n))) => if n > 0 then Ok(Some(n)) else Err(InvalidDuration(key))
    case Some(_) => Err(InvalidDuration(key))
  }

  /** `usizeMax` is the largest `usize` of the target. */
  function ParseMaxReplayEntries(value: Option<TomlValue>, usizeMax: nat): Result<Option<nat>, ConfigError> {
    match value
    case None => Ok(None)
    case Some(Integer(n)) =>
      if n >= MIN_REPLAY_ENTRIES && n <= usizeMax then Ok(Some(n)) else Err(InvalidMaxReplayEntries)
    case Some(Text(Some(n))) =>
      if n >= MIN_REPLAY_ENTRIES && n <= usizeMax then Ok(Some(n)) else Err(InvalidMaxReplayEntries)
    case Some(_) => Err(InvalidMaxReplayEntries)
  }

  function ParseAuth(partial: Option<PartialAuth>, usizeMax: nat): Result<AuthConfig, ConfigError> {
    match partial
    case None => Ok(DEFAULTS)
    case Some(p) =>
      match ParsePositiveU64("clock_skew_secs", p.clockSkew)
      case Err(e) => Err(e)
      case Ok(skew) =>
      match ParsePositiveU64("dpop_freshness_secs", p.dpopFreshness)
      case Err(e) => Err(e)
      case Ok(freshness) =>
      match ParsePositiveU64("jwks_refresh_secs", p.jwksRefresh)
      case Err(e) => Err(e)
      case Ok(jwks) =>
      match ParsePositiveU64("discovery_refresh_secs", p.discoveryRefresh)
      case Err(e) => Err(e)
      case Ok(discovery) =>
      match ParsePositiveU64("on_demand_refresh_min_interval_secs", p.onDemandInterval)
      case Err(e) => Err(e)
      case Ok(interval) =>
        var s, f := skew.GetOr(DEFAULTS.clockSkew), freshness.GetOr(DEFAULTS.dpopFreshness);
        match CheckedAdd(f, s)
        case None => Err(ReplayWindowTooSmall(0, f, s, U64_MAX))
        case Some(required) =>
          match ParsePositiveU64("jti_replay_window_secs", p.jtiWindow)
          case Err(e) => Err(e)
          case Ok(window) =>
          match ParseMaxReplayEntries(p.maxReplayEntries, usizeMax)
          case Err(e) => Err(e)
          case Ok(entries) =>
            var w := window.GetOr(required);
            if w < required then Err(ReplayWindowTooSmall(w, f, s, required))
            else
              Ok(AuthConfig(s, f, jwks.GetOr(DEFAULTS.jwksRefresh), discovery.GetOr(DEFAULTS.discoveryRefresh),
                            interval.GetOr(DEFAULTS.onDemandInterval), w, entries.GetOr(DEFAULTS.maxReplayEntries)))
  }

  // ---- what a loaded configuration satisfies ----

  predicate ValidAuth(c: AuthConfig) {
    && c.clockSkew > 0 && c.dpopFreshness > 0
    && c.jwksRefresh > 0 && c.discoveryRefresh > 0 && c.onDemandInterval > 0
    && c.dpopFreshness + c.clockSkew <= c.jtiWindow <= U64_MAX
    && c.maxReplayEntries >= MIN_REPLAY_ENTRIES
  }

  /** The number a present duration denotes, if it is an acceptable one. */
  predicate Denotes(value: Option<TomlValue>, n: int) {
    && 0 < n <= U64_MAX
    && (value == Some(Text(Some(n))) || (n <= I64_MAX && value == Some(Integer(n))))
  }

  /** A field was absent and took its default, or was present and denotes the result. */
  predicate Resolves(value: Option<TomlValue>, default: int, n: int) {
    if value.None? then n == default else Denotes(value, n)
  }

  predicate ResolvesEntries(value: Option<TomlValue>, usizeMax: nat, n: int) {
    if value.None? then n == DEFAULTS.maxReplayEntries
    else
      && MIN_REPLAY_ENTRIES <= n <= usizeMax
      && ((n <= U64_MAX && value == Some(Text(Some(n)))) || (n <= I64_MAX && value == Some(Integer(n))))
  }

  /** Loading succeeds exactly with the configurations in which every field resolves and
      the replay window covers freshness plus skew without overflow. */
  lemma ParseAuthIff(p: PartialAuth, usizeMax: nat, c: AuthConfig)
    ensures ParseAuth(Some(p), usizeMax) == Ok(c) <==>
            && Resolves(p.clockSkew, DEFAULTS.clockSkew, c.clockSkew)
            && Resolves(p.dpopFreshness, DEFAULTS.dpopFreshness, c.dpopFreshness)
            && Resolves(p.jwksRefresh, DEFAULTS.jwksRefresh, c.jwksRefresh)
            && Resolves(p.discoveryRefresh, DEFAULTS.discoveryRefresh, c.discoveryRefresh)
            && Resolves(p.onDemandInterval, DEFAULTS.onDemandInterval, c.onDemandInterval)
            && Resolves(p.jtiWindow, c.dpopFreshness + c.clockSkew, c.jtiWindow)
            && ResolvesEntries(p.maxReplayEntries, usizeMax, c.maxReplayEntries)
            && c.dpopFreshness + c.clockSkew <= c.jtiWindow
  {
    ResolvesIff("clock_skew_secs", p.clockSkew, DEFAULTS.clockSkew, c.clockSkew);
    ResolvesIff("dpop_freshness_secs", p.dpopFreshness, DEFAULTS.dpopFreshness, c.dpopFreshness);
    ResolvesIff("jwks_refresh_secs", p.jwksRefresh, DEFAULTS.jwksRefresh, c.jwksRefresh);
    ResolvesIff("discovery_refresh_secs", p.discoveryRefresh, DEFAULTS.discoveryRefresh, c.discoveryRefresh);
    ResolvesIff("on_demand_refresh_min_interval_secs", p.onDemandInterval,
                DEFAULTS.onDemandInterval, c.onDemandInterval);
    if c.dpopFreshness + c.clockSkew <= U64_MAX {
      ResolvesIff("jti_replay_window_secs", p.jtiWindow, c.dpopFreshness + c.clockSkew, c.jtiWindow);
    }
    EntriesIff(p.maxReplayEntries, usizeMax, c.maxReplayEntries);
    hide ParsePositiveU64, ParseMaxReplayEntries, Resolves, ResolvesEntries;
  }

  lemma ResolvesIff(key: string, value: Option<TomlValue>, default: U64, n: U64)
    ensures Resolves(value, default, n) <==>
            ParsePositiveU64(key, value).Ok? && ParsePositiveU64(key, value).value.GetOr(default) == n
  {
  }

  lemma EntriesIff(value: Option<TomlValue>, usizeMax: nat, n: nat)
    ensures ResolvesEntries(value, usizeMax, n) <==>
            ParseMaxReplayEntries(value, usizeMax).Ok?
            && ParseMaxReplayEntries(value, usizeMax).value.GetOr(DEFAULTS.maxReplayEntries) == n
  {
  }

  lemma LoadedIsValid(partial: Option<PartialAuth>, usizeMax: nat, c: AuthConfig)
    requires ParseAuth(partial, usizeMax) == Ok(c)
    ensures ValidAuth(c)
  {
    if partial.Some? {
      ParseAuthIff(partial.value, usizeMax, c);
    }
  }

  /** What is loaded for what is left out, in numbers. */
  lemma LeftOut(p: PartialAuth, usizeMax: nat, c: AuthConfig)
    ensures ParseAuth(None, usizeMax) == Ok(AuthConfig(60, 30, 3600, 86_400, 30, 90, 100_000))
    ensures ParseAuth(Some(p), usizeMax) == Ok(c) ==>
              && (p.clockSkew.None? ==> c.clockSkew == 60)
              && (p.dpopFreshness.None? ==> c.dpopFreshness == 30)
              && (p.jwksRefresh.None? ==> c.jwksRefresh == 3600)
              && (p.discoveryRefresh.None? ==> c.discoveryRefresh == 86_400)
              && (p.onDemandInterval.None? ==> c.onDemandInterval == 30)
              && (p.jtiWindow.None? ==> c.jtiWindow == c.dpopFreshness + c.clockSkew)
              && (p.maxReplayEntries.None? ==> c.maxReplayEntries == 100_000)
  {
    if ParseAuth(Some(p), usizeMax) == Ok(c) {
      ParseAuthIff(p, usizeMax, c);
      hide ParseAuth;
    }
  }

  /** The capacities that can be configured. */
  lemma CapacityIff(value: TomlValue, usizeMax: nat, n: nat)
    ensures ParseMaxReplayEntries(Some(value), usizeMax) == Ok(Some(n)) <==>
            && 1024 <= n <= usizeMax
            && ((n <= U64_MAX && value == Text(Some(n))) || (n <= I64_MAX && value == Integer(n)))
  {
  }

  // ---- what that means for the replay store ----

  function ReplayParams(c: AuthConfig, sha256: Crypto.Hash): ReplayRuns.Params {
    ReplayRuns.Params(c.dpopFreshness, c.clockSkew, c.jtiWindow, c.maxReplayEntries, sha256)
  }

  /** Every loaded configuration makes the freshness test exact. */
  lemma LoadedFreshnessIsExact(c: AuthConfig, iat: U64, now: U64)
    requires ValidAuth(c)
    ensures Timing.Fresh(iat, now, c.dpopFreshness, c.clockSkew)
          == Timing.FreshMeaning(iat, now, c.dpopFreshness, c.clockSkew)
  {
    Timing.FreshIsExactIff(c.dpopFreshness, c.clockSkew);
  }

  /** Among loaded configurations, those that accept every proof at most once. */
  lemma LoadedAtMostOnceIff(c: AuthConfig, sha256: Crypto.Hash)
    requires ValidAuth(c)
    ensures ReplayTheorems.AtMostOnce(ReplayParams(c, sha256)) <==>
            c.jtiWindow > c.dpopFreshness + 2 * c.clockSkew || 2 * c.jtiWindow > ReplayRuns.MAX_SECONDS
  {
    ReplayTheorems.AtMostOnceIff(ReplayParams(c, sha256));
  }

  /** The default window is the enforced minimum, so a configuration that leaves the
      window out, the all-default one included, admits a run in which a proof dated
      ahead is accepted twice. */
  lemma OmittedWindowIsNotAtMostOnce(partial: Option<PartialAuth>, usizeMax: nat, c: AuthConfig, sha256: Crypto.Hash)
    requires ParseAuth(partial, usizeMax) == Ok(c)
    requires partial.Some? ==> partial.value.jtiWindow.None?
    requires 2 * c.jtiWindow <= ReplayRuns.MAX_SECONDS
    ensures c.jtiWindow == c.dpopFreshness + c.clockSkew
    ensures !ReplayTheorems.AtMostOnce(ReplayParams(c, sha256))
  {
    LoadedIsValid(partial, usizeMax, c);
    if partial.Some? {
      ParseAuthIff(partial.value, usizeMax, c);
    }
    LoadedAtMostOnceIff(c, sha256);
  }
}
