/** The service settings and the strings and tables built from them: the
    database and Redis connection URLs, the token-signing data, the OAuth
    provider table and the DEBUG switch. */
module Config {
  import opened Wrappers
  import opened Text

  datatype ClientCredentials = ClientCredentials(clientId: string, clientSecret: string)

  datatype Settings = Settings(
    passDbHost: string, passDbPort: int, passDbName: string, passDbUser: string, passDbPassword: string,
    secretKey: string, algorithm: string,
    accessTokenExpireMinutes: int, refreshTokenExpireDays: int,
    redisHost: string, redisPort: int, redisPassword: string, redisDb: int,
    google: ClientCredentials, github: ClientCredentials, yandex: ClientCredentials, vk: ClientCredentials,
    baseUrl: string)

  const DefaultAlgorithm := "HS256"
  const DefaultAccessTokenExpireMinutes := 15
  const DefaultRefreshTokenExpireDays := 30
  const DefaultRedisHost := "localhost"
  const DefaultRedisPort := 6379
  const DefaultRedisPassword := ""
  const DefaultRedisDb := 0
  const DefaultBaseUrl := "http://localhost:8000"

  /** The settings with every defaulted field at its default; the required
      database and secret fields are given. */
  function WithDefaults(dbHost: string, dbPort: int, dbName: string, dbUser: string, dbPassword: string, secret: string): (s: Settings)
    ensures s.algorithm == "HS256" && s.accessTokenExpireMinutes == 15 && s.refreshTokenExpireDays == 30
    ensures s.redisHost == "localhost" && s.redisPort == 6379 && s.redisPassword == "" && s.redisDb == 0
    ensures s.baseUrl == "http://localhost:8000"
    ensures s.google == s.github == s.yandex == s.vk == ClientCredentials("", "")
  {
    var none := ClientCredentials("", "");
    Settings(dbHost, dbPort, dbName, dbUser, dbPassword, secret, DefaultAlgorithm,
      DefaultAccessTokenExpireMinutes, DefaultRefreshTokenExpireDays,
      DefaultRedisHost, DefaultRedisPort, DefaultRedisPassword, DefaultRedisDb,
      none, none, none, none, DefaultBaseUrl)
  }

  // ---------------------------------------------------------------------------
  // DEBUG

  /** The default of the DEBUG field, computed from the process environment
      when the settings class is defined (unset reads as "False"). */
  predicate DebugDefault(env: Option<string>) {
    var v := Lower(env.GetOr("False"));
    v == "true" || v == "1" || v == "t"
  }

  /** The words pydantic reads as booleans, compared without regard to case. */
  const TrueWords: set<string> := {"1", "on", "t", "true", "y", "yes"}
  const FalseWords: set<string> := {"0", "off", "f", "false", "n", "no"}

  const BoolParsingMessage := "Input should be a valid boolean, unable to interpret input"

  /** pydantic's conversion of a set string to `bool`; a word outside both
      lists is a validation error. */
  function ParseBool(v: string): (r: Result<bool, string>)
    ensures r.Success? <==> Lower(v) in TrueWords + FalseWords
    ensures r.Success? ==> (r.value <==> Lower(v) in TrueWords)
    ensures r.Failure? ==> r.error == BoolParsingMessage
  {
    var w := Lower(v);
    if w in TrueWords then Success(true)
    else if w in FalseWords then Success(false)
    else Failure(BoolParsingMessage)
  }

  /** `Config().DEBUG`: a value set in the environment wins, then one set in
      the `.env` file, and only when neither is set does the default apply. */
  function LoadDebug(env: Option<string>, dotenv: Option<string>): (r: Result<bool, string>)
    ensures env.Some? ==> r == ParseBool(env.value)
    ensures env.None? && dotenv.Some? ==> r == ParseBool(dotenv.value)
  {
    if env.Some? then ParseBool(env.value)
    else if dotenv.Some? then ParseBool(dotenv.value)
    else Success(DebugDefault(env))
  }

  /** With DEBUG set nowhere, debugging is off: the default is only ever
      evaluated on an unset variable, where it is false. */
  lemma DebugUnsetIsOff(env: Option<string>, dotenv: Option<string>)
    ensures !DebugDefault(None)
    ensures LoadDebug(None, None) == Success(false)
    ensures LoadDebug(env, dotenv) == Success(true) ==> env.Some? || dotenv.Some?
  {
    assert Lower("False") == "false";
  }

  /** The default expression and the loader agree wherever the default says
      true; they part on "on", "y" and "yes" (loader true, default false) and
      on any word outside pydantic's lists (loader error, default false). */
  lemma {:induction false} DebugDefaultVersusLoader(v: string, dotenv: Option<string>)
    ensures DebugDefault(Some(v)) ==> LoadDebug(Some(v), dotenv) == Success(true)
    ensures LoadDebug(Some(v), dotenv) == Success(true) && !DebugDefault(Some(v)) <==> Lower(v) in {"on", "y", "yes"}
    ensures LoadDebug(Some(v), dotenv).Failure? ==> !DebugDefault(Some(v))
  {
  }

  /** Both readings ignore letter case. */
  lemma DebugIgnoresCase(v: string, dotenv: Option<string>)
    ensures LoadDebug(Some(v), dotenv) == LoadDebug(Some(Lower(v)), dotenv)
    ensures DebugDefault(Some(v)) == DebugDefault(Some(Lower(v)))
  {
    LowerIdempotent(v);
  }

  /** Values the two readings disagree on. */
  lemma DebugExamples()
    ensures LoadDebug(Some("yes"), None) == Success(true) && !DebugDefault(Some("yes"))
    ensures LoadDebug(Some("TRUE"), None) == Success(true) && DebugDefault(Some("TRUE"))
    ensures LoadDebug(Some("debug"), None).Failure? && !DebugDefault(Some("debug"))
    ensures LoadDebug(None, Some("1")) == Success(true) && !DebugDefault(None)
  {
    assert Lower("yes") == "yes";
    assert Lower("TRUE") == "true";
    assert Lower("debug") == "debug";
    assert Lower("1") == "1";
    assert Lower("False") == "false";
  }

  // ---------------------------------------------------------------------------
  // Connection URLs

  const PassDbScheme := "postgresql+asyncpg://"
  const RedisScheme := "redis://"

  /** `a + sep + b`, the unit the URL builders are made of. */
  function Join(a: string, sep: char, b: string): string {
    a + [sep] + b
  }

  /** `get_pass_db_url`: scheme, then `user:password@host:port/name`. */
  function GetPassDbUrl(s: Settings): string {
    PassDbScheme +
      Join(Join(s.passDbUser, ':', s.passDbPassword), '@',
           Join(s.passDbHost, ':', Join(IntToString(s.passDbPort), '/', s.passDbName)))
  }

  /** `get_redis_url`: scheme, `:password@` only for a non-empty password,
      then `host:port/db`. */
  function GetRedisUrl(s: Settings): string {
    var location := RedisLocation(s);
    RedisScheme + (if s.redisPassword != "" then Join(":" + s.redisPassword, '@', location) else location)
  }

  /** The `host:port/db` part of the Redis URL. */
  function RedisLocation(s: Settings): string {
    Join(s.redisHost, ':', Join(IntToString(s.redisPort), '/', IntToString(s.redisDb)))
  }

  datatype DbTarget = DbTarget(user: string, password: string, host: string, port: int, name: string)
  datatype RedisTarget = RedisTarget(password: string, host: string, port: int, db: int)

  /** Reads a database URL of the shape the builder produces back into its parts. */
  function ParsePassDbUrl(u: string): Option<DbTarget> {
    if !StartsWith(u, PassDbScheme) then None
    else
      match SplitFirst(u[|PassDbScheme|..], '@')
      case None => None
      case Some((credentials, location)) =>
        match SplitFirst(credentials, ':')
        case None => None
        case Some((user, password)) =>
          match SplitFirst(location, ':')
          case None => None
          case Some((host, rest)) =>
            match SplitFirst(rest, '/')
            case None => None
            case Some((port, name)) =>
              match ParseInt(port)
              case None => None
              case Some(p) => Some(DbTarget(user, password, host, p, name))
  }

  /** Reads a Redis URL of the shape the builder produces back into its parts. */
  function ParseRedisUrl(u: string): Option<RedisTarget> {
    if !StartsWith(u, RedisScheme) then None
    else
      var rest := u[|RedisScheme|..];
      var auth: Option<(string, string)> :=
        match SplitFirst(rest, '@')
        case None => Some(("", rest))
        case Some((a, location)) =>
          if |a| > 1 && a[0] == ':' then Some((a[1..], location)) else None;
      match auth
      case None => None
      case Some((password, location)) => ParseRedisLocation(password, location)
  }

  /** Reads the `host:port/db` part of a Redis URL. */
  function ParseRedisLocation(password: string, location: string): Option<RedisTarget> {
    match SplitFirst(location, ':')
    case None => None
    case Some((host, portDb)) =>
      match SplitFirst(portDb, '/')
      case None => None
      case Some((port, db)) =>
        match (ParseInt(port), ParseInt(db))
        case (Some(p), Some(d)) => Some(RedisTarget(password, host, p, d))
        case _ => None
  }

  lemma IntToStringHasNo(i: int, c: char)
    requires c != '-' && !IsAsciiDigit(c)
    ensures c !in IntToString(i)
  {
  }

  /** The database URL carries every setting, provided the user name holds no
      ':' or '@', the password no '@', and the host no ':' (the builder does
      not escape them). */
  lemma {:induction false} PassDbUrlRoundTrip(s: Settings)
    requires ':' !in s.passDbUser && '@' !in s.passDbUser && '@' !in s.passDbPassword && ':' !in s.passDbHost
    ensures ParsePassDbUrl(GetPassDbUrl(s)) ==
      Some(DbTarget(s.passDbUser, s.passDbPassword, s.passDbHost, s.passDbPort, s.passDbName))
  {
    var port := IntToString(s.passDbPort);
    var credentials := Join(s.passDbUser, ':', s.passDbPassword);
    var location := Join(s.passDbHost, ':', Join(port, '/', s.passDbName));
    var u := GetPassDbUrl(s);
    assert u[|PassDbScheme|..] == Join(credentials, '@', location);
    assert '@' !in credentials;
    SplitFirstOf(credentials, '@', location);
    SplitFirstOf(s.passDbUser, ':', s.passDbPassword);
    SplitFirstOf(s.passDbHost, ':', Join(port, '/', s.passDbName));
    IntToStringHasNo(s.passDbPort, '/');
    SplitFirstOf(port, '/', s.passDbName);
    IntToStringRoundTrip(s.passDbPort);
  }

  /** The Redis URL carries every setting, provided the password holds no
      '@' and the host no '@' or ':'. */
  lemma {:induction false} RedisUrlRoundTrip(s: Settings)
    requires '@' !in s.redisPassword && '@' !in s.redisHost && ':' !in s.redisHost
    ensures ParseRedisUrl(GetRedisUrl(s)) == Some(RedisTarget(s.redisPassword, s.redisHost, s.redisPort, s.redisDb))
  {
    var location := RedisLocation(s);
    var u := GetRedisUrl(s);
    RedisLocationHasNoAt(s);
    if s.redisPassword != "" {
      var a := ":" + s.redisPassword;
      assert u[|RedisScheme|..] == Join(a, '@', location);
      SplitFirstOf(a, '@', location);
      assert a[1..] == s.redisPassword;
    } else {
      assert u[|RedisScheme|..] == location;
    }
    RedisLocationRoundTrip(s.redisPassword, s.redisHost, s.redisPort, s.redisDb);
  }

  lemma {:induction false} RedisLocationRoundTrip(password: string, host: string, port: int, db: int)
    requires ':' !in host
    ensures ParseRedisLocation(password, Join(host, ':', Join(IntToString(port), '/', IntToString(db)))) ==
      Some(RedisTarget(password, host, port, db))
  {
    var p := IntToString(port);
    var d := IntToString(db);
    SplitFirstOf(host, ':', Join(p, '/', d));
    IntToStringHasNo(port, '/');
    SplitFirstOf(p, '/', d);
    IntToStringRoundTrip(port);
    IntToStringRoundTrip(db);
  }

  lemma RedisLocationHasNoAt(s: Settings)
    requires '@' !in s.redisHost
    ensures '@' !in RedisLocation(s)
  {
    IntToStringHasNo(s.redisPort, '@');
    IntToStringHasNo(s.redisDb, '@');
  }

  /** The Redis URL contains an '@' exactly when a password is configured,
      and then begins with `redis://:<password>@`. */
  lemma {:induction false} RedisUrlAuthPart(s: Settings)
    requires '@' !in s.redisHost
    ensures '@' in GetRedisUrl(s) <==> s.redisPassword != ""
    ensures s.redisPassword != "" ==> StartsWith(GetRedisUrl(s), RedisScheme + ":" + s.redisPassword + "@")
  {
    RedisLocationHasNoAt(s);
    AuthPartOf(s.redisPassword, RedisLocation(s));
  }

  lemma {:induction false} AuthPartOf(password: string, location: string)
    requires '@' !in location
    ensures var u := RedisScheme + (if password != "" then Join(":" + password, '@', location) else location);
      ('@' in u <==> password != "") &&
      (password != "" ==> StartsWith(u, RedisScheme + ":" + password + "@"))
  {
    var u := RedisScheme + (if password != "" then Join(":" + password, '@', location) else location);
    if password != "" {
      var p := RedisScheme + ":" + password + "@";
      assert u == p + location;
      assert u[..|p|] == p;
      assert u[|p| - 1] == '@';
    } else {
      assert '@' !in RedisScheme;
    }
  }

  // ---------------------------------------------------------------------------
  // Signing data and the OAuth provider table

  /** `get_auth_data`. */
  function GetAuthData(s: Settings): (r: map<string, string>)
    ensures r.Keys == {"secret_key", "algorithm"}
    ensures r["secret_key"] == s.secretKey && r["algorithm"] == s.algorithm
  {
    map["secret_key" := s.secretKey, "algorithm" := s.algorithm]
  }

  datatype ProviderConfig = ProviderConfig(
    clientId: string, clientSecret: string,
    authorizeUrl: string, tokenUrl: string, userinfoUrl: string,
    scope: string, redirectUri: string,
    apiVersion: Option<string>)

  const ProviderNames: set<string> := {"google", "github", "yandex", "vk"}
  const CallbackMount := "/api/v1/AuthService/oauth/"
  const VkApiVersion := "5.131"

  function RedirectUri(s: Settings, provider: string): string {
    s.baseUrl + CallbackMount + provider + "/callback"
  }

  /** `get_oauth_config`. */
  function GetOAuthConfig(s: Settings): map<string, ProviderConfig> {
    map[
      "google" := ProviderConfig(s.google.clientId, s.google.clientSecret,
        "https://accounts.google.com/o/oauth2/auth", "https://oauth2.googleapis.com/token",
        "https://www.googleapis.com/oauth2/v3/userinfo", "email profile",
        RedirectUri(s, "google"), None),
      "github" := ProviderConfig(s.github.clientId, s.github.clientSecret,
        "https://github.com/login/oauth/authorize", "https://github.com/login/oauth/access_token",
        "https://api.github.com/user", "read:user user:email",
        RedirectUri(s, "github"), None),
      "yandex" := ProviderConfig(s.yandex.clientId, s.yandex.clientSecret,
        "https://oauth.yandex.ru/authorize", "https://oauth.yandex.ru/token",
        "https://login.yandex.ru/info", "login:email login:info",
        RedirectUri(s, "yandex"), None),
      "vk" := ProviderConfig(s.vk.clientId, s.vk.clientSecret,
        "https://oauth.vk.com/authorize", "https://oauth.vk.com/access_token",
        "https://api.vk.com/method/users.get", "email",
        RedirectUri(s, "vk"), Some(VkApiVersion))
    ]
  }

  /** The table covers exactly the four providers; each redirect goes to the
      provider's own callback under the base URL, each provider gets its own
      credentials, and only VK names an API version. */
  lemma OAuthConfigShape(s: Settings)
    ensures GetOAuthConfig(s).Keys == ProviderNames
    ensures forall p :: p in ProviderNames ==> GetOAuthConfig(s)[p].redirectUri == RedirectUri(s, p)
    ensures forall p :: p in ProviderNames ==> (GetOAuthConfig(s)[p].apiVersion.Some? <==> p == "vk")
    ensures GetOAuthConfig(s)["vk"].apiVersion == Some(VkApiVersion)
    ensures GetOAuthConfig(s)["google"].clientId == s.google.clientId && GetOAuthConfig(s)["github"].clientId == s.github.clientId
    ensures GetOAuthConfig(s)["yandex"].clientId == s.yandex.clientId && GetOAuthConfig(s)["vk"].clientId == s.vk.clientId
    ensures GetOAuthConfig(s)["google"].clientSecret == s.google.clientSecret && GetOAuthConfig(s)["github"].clientSecret == s.github.clientSecret
    ensures GetOAuthConfig(s)["yandex"].clientSecret == s.yandex.clientSecret && GetOAuthConfig(s)["vk"].clientSecret == s.vk.clientSecret
  {
  }
}
