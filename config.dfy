/** The service's settings: database connection parameters, token signing
    parameters and application metadata, each with the default it takes when
    the environment does not override it, and the database URL built from
    them. The settings are an explicit value handed to whoever needs them. */
module Config {
  import opened Common
  import opened Text

  /** The URL scheme: MySQL reached through the asynchronous driver. */
  const Scheme := "mysql+aiomysql://"

  datatype Settings = Settings(
    dbHost: string := "localhost",
    dbPort: int := 3306,
    dbUser: string := "root",
    dbPassword: string := "",
    dbName: string := "user_service",
    secretKey: string := "your-secret-key-change-in-production",
    algorithm: string := "HS256",
    accessTokenExpireMinutes: int := 30,
    appName: string := "用户服务API",
    appVersion: string := "1.0.0",
    debug: bool := true,
    apiV1Prefix: string := "/api/v1")
  {
    /** `scheme user:password@host:port/name`, each component inserted
        verbatim (nothing is escaped). */
    function DatabaseUrl(): (url: string)
      ensures |url| > |Scheme| + |dbName| && url[..|Scheme|] == Scheme
      ensures url[|url| - |dbName|..] == dbName
    {
      Scheme + (dbUser + ":" + (dbPassword + "@" + (dbHost + ":" + (IntToString(dbPort) + "/" + dbName))))
    }
  }

  /** The settings when no environment variable overrides anything. */
  const Defaults := Settings()

  /** The default configuration signs tokens with HS256, lets them live
      30 minutes, and mounts the API under `/api/v1`. */
  lemma TokenAndApiDefaults()
    ensures Defaults.algorithm == "HS256"
    ensures Defaults.accessTokenExpireMinutes == 30
    ensures Defaults.apiV1Prefix == "/api/v1"
  {
  }

  /** With the defaults the database URL names the local `user_service`
      database on port 3306 as `root` with an empty password. */
  lemma DefaultDatabaseUrl()
    ensures Defaults.DatabaseUrl() == "mysql+aiomysql://root:@localhost:3306/user_service"
    ensures ParseDatabaseUrl(Defaults.DatabaseUrl()) == Some(UrlParts("root", "", "localhost", 3306, "user_service"))
    ensures IntToString(Defaults.dbPort) == "3306"
  {
    DefaultUrlText();
    assert ':' !in "root" && ':' !in "localhost";
    DatabaseUrlRoundTrip(Defaults);
  }

  /** The default URL, assembled joint by joint from the inside out. */
  lemma DefaultUrlText()
    ensures IntToString(Defaults.dbPort) == "3306"
    ensures Defaults.DatabaseUrl() == "mysql+aiomysql://root:@localhost:3306/user_service"
  {
    DefaultPortRendering();
    PortNameJoined();
    HostJoined();
    PasswordJoined();
    UserJoined();
    SchemeJoined();
    assert Scheme == "mysql+aiomysql://";
  }

  lemma PortNameJoined()
    ensures "3306" + "/" + "user_service" == "3306/user_service"
  {
  }

  lemma HostJoined()
    ensures "localhost" + ":" + "3306/user_service" == "localhost:3306/user_service"
  {
  }

  lemma PasswordJoined()
    ensures "" + "@" + "localhost:3306/user_service" == "@localhost:3306/user_service"
  {
    assert "" + "@" == "@";
  }

  lemma UserJoined()
    ensures "root" + ":" + "@localhost:3306/user_service" == "root:@localhost:3306/user_service"
  {
  }

  lemma SchemeJoined()
    ensures "mysql+aiomysql://" + "root:@localhost:3306/user_service" == "mysql+aiomysql://root:@localhost:3306/user_service"
  {
  }

  lemma DefaultPortRendering()
    ensures IntToString(Defaults.dbPort) == "3306"
  {
    assert NatToString(3) == "3";
    assert NatToString(33) == "33";
    assert NatToString(330) == "330";
    assert NatToString(3306) == "3306";
  }

  /** The components a database URL is read back into. */
  datatype UrlParts = UrlParts(user: string, password: string, host: string, port: int, name: string)

  /** Reads `host:port/name` back, splitting at the first `:` and then at
      the first `/`. */
  function ParseHostPortName(s: string): Option<(string, int, string)> {
    match SplitAtFirst(s, ':')
    case None => None
    case Some((host, afterHost)) =>
      match SplitAtFirst(afterHost, '/')
      case None => None
      case Some((port, name)) =>
        match ParseInt(port)
        case None => None
        case Some(p) => Some((host, p, name))
  }

  /** Reads `scheme user:password@host:port/name` back, splitting at the
      first `:`, then the first `@`, then as `ParseHostPortName` does. */
  function ParseDatabaseUrl(url: string): Option<UrlParts> {
    if !(|url| >= |Scheme| && url[..|Scheme|] == Scheme) then None
    else match SplitAtFirst(url[|Scheme|..], ':')
      case None => None
      case Some((user, afterUser)) =>
        match SplitAtFirst(afterUser, '@')
        case None => None
        case Some((password, afterPassword)) =>
          match ParseHostPortName(afterPassword)
          case None => None
          case Some((host, port, name)) => Some(UrlParts(user, password, host, port, name))
  }

  lemma HostPortNameRoundTrip(host: string, port: int, name: string)
    requires ':' !in host
    ensures ParseHostPortName(host + ":" + (IntToString(port) + "/" + name)) == Some((host, port, name))
  {
    var p := IntToString(port);
    IntToStringRoundTrip(port);
    assert '/' !in p by {
      forall k | 0 <= k < |p| ensures p[k] != '/' { }
    }
    SplitAtJoint(host, ':', p + "/" + name);
    SplitAtJoint(p, '/', name);
  }

  /** When the user has no `:`, the password no `@` and the host no `:`,
      the URL determines every component: it reads back to the settings it
      was built from. */
  lemma DatabaseUrlRoundTrip(s: Settings)
    requires ':' !in s.dbUser && '@' !in s.dbPassword && ':' !in s.dbHost
    ensures ParseDatabaseUrl(s.DatabaseUrl()) == Some(UrlParts(s.dbUser, s.dbPassword, s.dbHost, s.dbPort, s.dbName))
  {
    var afterPassword := s.dbHost + ":" + (IntToString(s.dbPort) + "/" + s.dbName);
    var afterUser := s.dbPassword + "@" + afterPassword;
    var rest := s.dbUser + ":" + afterUser;
    assert s.DatabaseUrl() == Scheme + rest;
    assert (Scheme + rest)[..|Scheme|] == Scheme && (Scheme + rest)[|Scheme|..] == rest;
    HostPortNameRoundTrip(s.dbHost, s.dbPort, s.dbName);
    SplitAtJoint(s.dbUser, ':', afterUser);
    SplitAtJoint(s.dbPassword, '@', afterPassword);
  }

  /** Because nothing is escaped, a `:` may move between the end of the
      user name and the start of the password without changing the URL:
      different settings yield the same URL. */
  lemma DatabaseUrlIsNotEscaped(s: Settings, user: string, middle: string, password: string)
    ensures s.(dbUser := user + ":" + middle, dbPassword := password).DatabaseUrl()
         == s.(dbUser := user, dbPassword := middle + ":" + password).DatabaseUrl()
  {
    var tail := "@" + (s.dbHost + ":" + (IntToString(s.dbPort) + "/" + s.dbName));
    assert user + ":" + middle + ":" + (password + tail) == user + ":" + (middle + ":" + password + tail);
  }
}
