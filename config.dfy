/** Application configuration read from the process environment
    (internal/infrastructure/config/config.go). The environment is a map from variable
    names to values, taken after the optional `.env` file has been merged into it. */
module Configuration {
  import opened Common
  import opened Errors

  datatype Config = Config(
    databaseURL: string, jwtSecret: string, port: string, environment: string,
    smtpHost: string, smtpPort: string, smtpUser: string, smtpPass: string, smtpFrom: string,
    logLevel: string, debug: bool)

  type Env = map<string, string>

  /** `os.Getenv`: an unset variable reads as the empty string. */
  function Getenv(env: Env, key: string): (v: string)
    ensures key !in env ==> v == ""
    ensures key in env ==> v == env[key]
  {
    if key in env then env[key] else ""
  }

  /** The first of two variables that is set to a non-empty value, or "". */
  function Fallback(env: Env, primary: string, legacy: string): (v: string)
    ensures Getenv(env, primary) != "" ==> v == Getenv(env, primary)
    ensures Getenv(env, primary) == "" ==> v == Getenv(env, legacy)
  {
    if Getenv(env, primary) != "" then Getenv(env, primary) else Getenv(env, legacy)
  }

  /** A variable's value, or `default` when it is unset or empty. */
  function OrDefault(env: Env, key: string, default: string): (v: string)
    ensures Getenv(env, key) != "" ==> v == Getenv(env, key)
    ensures Getenv(env, key) == "" ==> v == default
  {
    if Getenv(env, key) != "" then Getenv(env, key) else default
  }

  /** `strconv.ParseBool`: the six spellings of each truth value; anything else is an error. */
  function ParseBool(s: string): (r: Option<bool>)
    ensures r == Some(true) <==> s in {"1", "t", "T", "TRUE", "true", "True"}
    ensures r == Some(false) <==> s in {"0", "f", "F", "FALSE", "false", "False"}
  {
    if s in {"1", "t", "T", "TRUE", "true", "True"} then Some(true)
    else if s in {"0", "f", "F", "FALSE", "false", "False"} then Some(false)
    else None
  }

  /** The `DEBUG` flag: an empty or unparsable value leaves debugging off. */
  function DebugFlag(s: string): (debug: bool)
    ensures debug <==> ParseBool(s) == Some(true)
  {
    if s == "" then false
    else match ParseBool(s) case Some(b) => b case None => false
  }

  /** `LoadConfig`: primary variable names win over their legacy names, SMTP settings and
      the server settings take their defaults, and a missing or unparsable `DEBUG` leaves
      debugging off. The error result is always nil. */
  function LoadConfig(env: Env): (r: Result<Config, GoError>)
    ensures r.Success?
    ensures Getenv(env, "DATABASE_URL") != "" ==> r.value.databaseURL == env["DATABASE_URL"]
    ensures Getenv(env, "DATABASE_URL") == "" ==> r.value.databaseURL == Getenv(env, "DB_URL")
    ensures Getenv(env, "JWT_SECRET") != "" ==> r.value.jwtSecret == env["JWT_SECRET"]
    ensures Getenv(env, "JWT_SECRET") == "" ==> r.value.jwtSecret == Getenv(env, "SECRET")
    ensures Getenv(env, "SMTP_HOST") != "" ==> r.value.smtpHost == env["SMTP_HOST"]
    ensures Getenv(env, "SMTP_HOST") == "" ==> r.value.smtpHost == "smtp.gmail.com"
    ensures Getenv(env, "SMTP_PORT") != "" ==> r.value.smtpPort == env["SMTP_PORT"]
    ensures Getenv(env, "SMTP_PORT") == "" ==> r.value.smtpPort == "587"
    ensures Getenv(env, "SMTP_USER") != "" ==> r.value.smtpUser == env["SMTP_USER"]
    ensures Getenv(env, "SMTP_USER") == "" ==> r.value.smtpUser == Getenv(env, "EMAIL_SENDER")
    ensures Getenv(env, "SMTP_PASS") != "" ==> r.value.smtpPass == env["SMTP_PASS"]
    ensures Getenv(env, "SMTP_PASS") == "" ==> r.value.smtpPass == Getenv(env, "EMAIL_PASSWORD")
    ensures Getenv(env, "SMTP_FROM") == "" ==> r.value.smtpFrom == r.value.smtpUser
    ensures Getenv(env, "SMTP_FROM") != "" ==> r.value.smtpFrom == env["SMTP_FROM"]
    ensures Getenv(env, "PORT") != "" ==> r.value.port == env["PORT"]
    ensures Getenv(env, "PORT") == "" ==> r.value.port == "8080"
    ensures Getenv(env, "ENVIRONMENT") != "" ==> r.value.environment == env["ENVIRONMENT"]
    ensures Getenv(env, "ENVIRONMENT") == "" ==> r.value.environment == "development"
    ensures Getenv(env, "LOG_LEVEL") != "" ==> r.value.logLevel == env["LOG_LEVEL"]
    ensures Getenv(env, "LOG_LEVEL") == "" ==> r.value.logLevel == "info"
    ensures r.value.smtpHost != "" && r.value.smtpPort != "" && r.value.port != ""
    ensures r.value.environment != "" && r.value.logLevel != ""
    ensures r.value.debug <==> ParseBool(Getenv(env, "DEBUG")) == Some(true)
  {
    var smtpUser := Fallback(env, "SMTP_USER", "EMAIL_SENDER");
    var debug := DebugFlag(Getenv(env, "DEBUG"));
    Success(Config(
      Fallback(env, "DATABASE_URL", "DB_URL"),
      Fallback(env, "JWT_SECRET", "SECRET"),
      OrDefault(env, "PORT", "8080"),
      OrDefault(env, "ENVIRONMENT", "development"),
      OrDefault(env, "SMTP_HOST", "smtp.gmail.com"),
      OrDefault(env, "SMTP_PORT", "587"),
      smtpUser,
      Fallback(env, "SMTP_PASS", "EMAIL_PASSWORD"),
      OrDefault(env, "SMTP_FROM", smtpUser),
      OrDefault(env, "LOG_LEVEL", "info"),
      debug))
  }

  predicate IsDevelopment(c: Config) {
    c.environment == "development"
  }

  predicate IsProduction(c: Config) {
    c.environment == "production"
  }

  predicate IsTest(c: Config) {
    c.environment == "test"
  }

  /** The three environment tests exclude one another, and a loaded configuration whose
      `ENVIRONMENT` is unset counts as development. */
  lemma EnvironmentKinds(c: Config, env: Env)
    ensures !(IsDevelopment(c) && IsProduction(c))
    ensures !(IsDevelopment(c) && IsTest(c))
    ensures !(IsProduction(c) && IsTest(c))
    ensures Getenv(env, "ENVIRONMENT") == "" ==> IsDevelopment(LoadConfig(env).value)
  {
  }

  /** Setting a variable's primary name decides the value whatever its legacy name holds. */
  lemma {:induction false} PrimaryNamesWin(env: Env, url: string, secret: string)
    requires url != "" && secret != ""
    ensures LoadConfig(env["DATABASE_URL" := url]["JWT_SECRET" := secret]).value.databaseURL == url
    ensures LoadConfig(env["DATABASE_URL" := url]["JWT_SECRET" := secret]).value.jwtSecret == secret
  {
    var e := env["DATABASE_URL" := url]["JWT_SECRET" := secret];
    assert "DATABASE_URL" != "JWT_SECRET";
    assert Getenv(e, "DATABASE_URL") == url;
  }
}
