/**
 * `DatabaseConfig._get_database_url`: which connection URL the environment
 * selects. The environment is a map from variable names to values; a name
 * missing from the map is an unset variable.
 */
module DatabaseUrl {
  /** `os.getenv(key)` is truthy: set and not empty. */
  predicate IsSet(env: map<string, string>, key: string) {
    key in env && env[key] != ""
  }

  /** `os.getenv(key, default)`: the default only when the variable is unset, so an empty value stays empty. */
  function GetEnv(env: map<string, string>, key: string, default: string): string {
    if key in env then env[key] else default
  }

  /** `f"{scheme}://{user}:{password}@{host}:{port}/{name}"`. */
  function ServerUrl(scheme: string, user: string, password: string, host: string, port: string, name: string): string {
    scheme + "://" + user + ":" + password + "@" + host + ":" + port + "/" + name
  }

  /** A server URL starts with its scheme and `://`. */
  lemma ServerUrlScheme(scheme: string, user: string, password: string, host: string, port: string, name: string)
    ensures ServerUrl(scheme, user, password, host, port, name)[..|scheme| + 3] == scheme + "://"
  {
    var rest := user + ":" + password + "@" + host + ":" + port + "/" + name;
    assert ServerUrl(scheme, user, password, host, port, name) == (scheme + "://") + rest;
  }

  function PostgresUrl(env: map<string, string>): string {
    ServerUrl("postgresql", GetEnv(env, "DB_USER", "postgres"), GetEnv(env, "DB_PASSWORD", ""),
              GetEnv(env, "DB_HOST", "localhost"), GetEnv(env, "DB_PORT", "5432"),
              GetEnv(env, "DB_NAME", "trading_dashboard"))
  }

  function MysqlUrl(env: map<string, string>): string {
    ServerUrl("mysql+pymysql", GetEnv(env, "DB_USER", "root"), GetEnv(env, "DB_PASSWORD", ""),
              GetEnv(env, "DB_HOST", "localhost"), GetEnv(env, "DB_PORT", "3306"),
              GetEnv(env, "DB_NAME", "trading_dashboard"))
  }

  function SqliteUrl(env: map<string, string>): string {
    "sqlite:///" + GetEnv(env, "DB_PATH", "database.db")
  }

  /**
   * The first of DATABASE_URL, POSTGRES_URL and MYSQL_URL that is set and not
   * empty wins; otherwise the URL is built from the components for DB_TYPE
   * postgresql or mysql, and any other DB_TYPE (unset included) gets SQLite.
   */
  function SelectUrl(env: map<string, string>): (url: string)
    ensures IsSet(env, "DATABASE_URL") ==> url == env["DATABASE_URL"]
    ensures !IsSet(env, "DATABASE_URL") && IsSet(env, "POSTGRES_URL") ==> url == env["POSTGRES_URL"]
    ensures !IsSet(env, "DATABASE_URL") && !IsSet(env, "POSTGRES_URL") && IsSet(env, "MYSQL_URL")
            ==> url == env["MYSQL_URL"]
    ensures |url| > 0
  {
    if IsSet(env, "DATABASE_URL") then env["DATABASE_URL"]
    else if IsSet(env, "POSTGRES_URL") then env["POSTGRES_URL"]
    else if IsSet(env, "MYSQL_URL") then env["MYSQL_URL"]
    else
      var dbType := GetEnv(env, "DB_TYPE", "sqlite");
      if dbType == "postgresql" then PostgresUrl(env)
      else if dbType == "mysql" then MysqlUrl(env)
      else SqliteUrl(env)
  }

  /** No explicit URL is set. */
  predicate FromComponents(env: map<string, string>) {
    !IsSet(env, "DATABASE_URL") && !IsSet(env, "POSTGRES_URL") && !IsSet(env, "MYSQL_URL")
  }

  /** Once DATABASE_URL is set, no other variable matters. */
  lemma ExplicitUrlWins(env: map<string, string>, env': map<string, string>)
    requires IsSet(env, "DATABASE_URL") && "DATABASE_URL" in env' && env'["DATABASE_URL"] == env["DATABASE_URL"]
    ensures SelectUrl(env) == SelectUrl(env')
  {
  }

  /** An empty explicit URL counts as unset and falls through to the next rule. */
  lemma EmptyUrlFallsThrough(env: map<string, string>)
    requires FromComponents(env) && !("DB_TYPE" in env)
    ensures SelectUrl(env["DATABASE_URL" := ""]) == SelectUrl(env)
  {
  }

  /** Built from components with DB_TYPE postgresql, the URL is the PostgreSQL one. */
  lemma PostgresFromComponents(env: map<string, string>)
    requires FromComponents(env) && GetEnv(env, "DB_TYPE", "sqlite") == "postgresql"
    ensures SelectUrl(env)[..13] == "postgresql://" && SelectUrl(env) == PostgresUrl(env)
  {
    assert SelectUrl(env) == PostgresUrl(env);
    ServerUrlScheme("postgresql", GetEnv(env, "DB_USER", "postgres"), GetEnv(env, "DB_PASSWORD", ""),
                    GetEnv(env, "DB_HOST", "localhost"), GetEnv(env, "DB_PORT", "5432"),
                    GetEnv(env, "DB_NAME", "trading_dashboard"));
  }

  /** Built from components with DB_TYPE mysql, the URL is the MySQL one. */
  lemma MysqlFromComponents(env: map<string, string>)
    requires FromComponents(env) && GetEnv(env, "DB_TYPE", "sqlite") == "mysql"
    ensures SelectUrl(env)[..16] == "mysql+pymysql://" && SelectUrl(env) == MysqlUrl(env)
  {
    assert SelectUrl(env) == MysqlUrl(env);
    ServerUrlScheme("mysql+pymysql", GetEnv(env, "DB_USER", "root"), GetEnv(env, "DB_PASSWORD", ""),
                    GetEnv(env, "DB_HOST", "localhost"), GetEnv(env, "DB_PORT", "3306"),
                    GetEnv(env, "DB_NAME", "trading_dashboard"));
  }

  /** Built from components with any other DB_TYPE, unset included, the URL is the SQLite one. */
  lemma SqliteFromComponents(env: map<string, string>)
    requires FromComponents(env) && GetEnv(env, "DB_TYPE", "sqlite") !in {"postgresql", "mysql"}
    ensures SelectUrl(env)[..10] == "sqlite:///" && SelectUrl(env) == SqliteUrl(env)
  {
  }

  /** An empty environment, or an unknown DB_TYPE, selects the SQLite file `database.db`. */
  lemma DefaultIsSqlite()
    ensures SelectUrl(map[]) == "sqlite:///database.db"
    ensures SelectUrl(map["DB_TYPE" := "oracle"]) == "sqlite:///database.db"
  {
  }

  /** DB_TYPE postgresql alone gives the stock PostgreSQL URL. */
  lemma DefaultPostgres()
    ensures SelectUrl(map["DB_TYPE" := "postgresql"])
            == ServerUrl("postgresql", "postgres", "", "localhost", "5432", "trading_dashboard")
  {
  }

  /** DB_TYPE mysql alone gives the stock MySQL URL. */
  lemma DefaultMysql()
    ensures SelectUrl(map["DB_TYPE" := "mysql"])
            == ServerUrl("mysql+pymysql", "root", "", "localhost", "3306", "trading_dashboard")
  {
  }

  /** A component set to the empty string stays empty; the default replaces only an unset one. */
  lemma EmptyComponentKept()
    ensures SelectUrl(map["DB_TYPE" := "postgresql", "DB_HOST" := ""])
            == ServerUrl("postgresql", "postgres", "", "", "5432", "trading_dashboard")
    ensures SelectUrl(map["DB_PATH" := ""]) == "sqlite:///"
  {
  }
}
