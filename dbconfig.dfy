/**
 * Environment selection and connection settings: `safe_env`,
 * `load_db_config` (with its `lru_cache`), the redacted view it logs and
 * the password-free view `get_db_info` hands to the UI.
 *
 * The file system is a parameter: a map from the path of each file that
 * exists to what `dotenv_values` parses out of it.
 */
module DbConfig {
  import opened Values

  /** The environments the application accepts. */
  const VALID_ENVS: set<string> := {"dev", "prod", "test", "custom"}

  /** `safe_env`: any string goes to a valid environment, unknown ones to "dev". */
  function SafeEnv(env: string): (r: string)
    ensures r in VALID_ENVS
    ensures r == env <==> env in VALID_ENVS
    ensures r != env ==> r == "dev"
  {
    if env in VALID_ENVS then env else "dev"
  }

  lemma SafeEnvIdempotent(env: string)
    ensures SafeEnv(SafeEnv(env)) == SafeEnv(env)
  {
  }

  /** What `dotenv_values` returns for one file. */
  type Dotenv = map<string, string>

  /** The path of every existing env file, with its parsed contents. */
  type FileSystem = map<string, Dotenv>

  /** A connection configuration: a dict whose values are strings or `None`. */
  type Config = map<string, Option<string>>

  const CONFIG_KEYS: set<string> := {"host", "port", "name", "user", "password", "schema"}
  const DISPLAY_KEYS: set<string> := {"host", "port", "name", "user", "schema"}
  const DEFAULT_NAME := "postgres"
  const DEFAULT_SCHEMA := "public"
  const MASK := "****"

  /** Python truthiness of a string-or-None. */
  predicate Truthy(v: Option<string>) { v.Some? && v.value != "" }

  /** `v or default` for a string-or-None `v`. */
  function Or(v: Option<string>, default: string): (r: string)
    ensures Truthy(v) ==> r == v.value
    ensures !Truthy(v) ==> r == default
  {
    if Truthy(v) then v.value else default
  }

  /** `values.get(key)` */
  function Get(values: Dotenv, key: string): Option<string>
  {
    if key in values then Some(values[key]) else None
  }

  /** The file `load_db_config` reads: `.env.{env or "dev"}`. */
  function EnvFileName(env: Option<string>): string
  {
    ".env." + Or(env, "dev")
  }

  /** The settings read for `env`; a missing file contributes nothing. */
  function ConfigValues(env: Option<string>, files: FileSystem): (values: Dotenv)
    ensures EnvFileName(env) !in files ==> values == map[]
    ensures EnvFileName(env) in files ==> values == files[EnvFileName(env)]
  {
    var path := EnvFileName(env);
    if path in files then files[path] else map[]
  }

  /** `load_db_config` without its cache. */
  function LoadDbConfig(env: Option<string>, files: FileSystem): (config: Config)
    ensures config.Keys == CONFIG_KEYS
    ensures Truthy(config["name"]) && Truthy(config["schema"])
  {
    var values := ConfigValues(env, files);
    map[
      "host" := Get(values, "DB_HOST"),
      "port" := Get(values, "DB_PORT"),
      "name" := Some(Or(Get(values, "DB_NAME"), DEFAULT_NAME)),
      "user" := Get(values, "DB_USER"),
      "password" := Get(values, "DB_PASSWORD"),
      "schema" := Some(Or(Get(values, "DB_SCHEMA"), DEFAULT_SCHEMA))
    ]
  }

  /** Which setting supplies each field; `name` and `schema` fall back to a default
      when the setting is missing or empty, the others are copied as they are. */
  lemma LoadDbConfigFields(env: Option<string>, files: FileSystem)
    ensures var values, config := ConfigValues(env, files), LoadDbConfig(env, files);
      && config["host"] == Get(values, "DB_HOST")
      && config["port"] == Get(values, "DB_PORT")
      && config["user"] == Get(values, "DB_USER")
      && config["password"] == Get(values, "DB_PASSWORD")
      && config["name"] == Some(if Truthy(Get(values, "DB_NAME")) then values["DB_NAME"] else DEFAULT_NAME)
      && config["schema"] == Some(if Truthy(Get(values, "DB_SCHEMA")) then values["DB_SCHEMA"] else DEFAULT_SCHEMA)
  {
  }

  /** `None` and `""` both select the "dev" file. */
  lemma EnvDefaultsToDev(env: Option<string>)
    requires env == None || env == Some("")
    ensures EnvFileName(env) == ".env.dev"
  {
  }

  /** Without an env file, every field is `None` but the two defaults. */
  lemma MissingEnvFile(env: Option<string>, files: FileSystem)
    requires EnvFileName(env) !in files
    ensures LoadDbConfig(env, files) == map[
      "host" := None, "port" := None, "name" := Some(DEFAULT_NAME),
      "user" := None, "password" := None, "schema" := Some(DEFAULT_SCHEMA)]
  {
  }

  /** The view of the configuration that is logged: the password replaced by a mask. */
  function SafeConfig(config: Config): (safe: Config)
    ensures safe.Keys == config.Keys
    ensures "password" in config ==> safe["password"] == Some(MASK)
    ensures forall k :: k in config && k != "password" ==> safe[k] == config[k]
  {
    map k | k in config :: if k != "password" then config[k] else Some(MASK)
  }

  /** `get_db_info`'s projection: the five displayable fields, never the password. */
  function DbInfo(config: Config): (info: Config)
    requires DISPLAY_KEYS <= config.Keys
    ensures info.Keys == DISPLAY_KEYS
    ensures "password" !in info
    ensures forall k :: k in info ==> info[k] == config[k]
  {
    map k | k in DISPLAY_KEYS :: config[k]
  }

  /** Settings that agree on everything but the password. */
  ghost predicate SameButPassword(a: Dotenv, b: Dotenv)
  {
    a - {"DB_PASSWORD"} == b - {"DB_PASSWORD"}
  }

  lemma GetSameButPassword(a: Dotenv, b: Dotenv, key: string)
    requires SameButPassword(a, b)
    requires key != "DB_PASSWORD"
    ensures Get(a, key) == Get(b, key)
  {
    assert key in a <==> key in a - {"DB_PASSWORD"};
    assert key in b <==> key in b - {"DB_PASSWORD"};
    if key in a {
      assert a[key] == (a - {"DB_PASSWORD"})[key];
      assert b[key] == (b - {"DB_PASSWORD"})[key];
    }
  }

  /** Nothing the logged view or the UI view shows depends on the password. */
  lemma PasswordNeverShown(env: Option<string>, files1: FileSystem, files2: FileSystem)
    requires SameButPassword(ConfigValues(env, files1), ConfigValues(env, files2))
    ensures SafeConfig(LoadDbConfig(env, files1)) == SafeConfig(LoadDbConfig(env, files2))
    ensures DbInfo(LoadDbConfig(env, files1)) == DbInfo(LoadDbConfig(env, files2))
  {
    var v1, v2 := ConfigValues(env, files1), ConfigValues(env, files2);
    GetSameButPassword(v1, v2, "DB_HOST");
    GetSameButPassword(v1, v2, "DB_PORT");
    GetSameButPassword(v1, v2, "DB_NAME");
    GetSameButPassword(v1, v2, "DB_USER");
    GetSameButPassword(v1, v2, "DB_SCHEMA");
    var c1, c2 := LoadDbConfig(env, files1), LoadDbConfig(env, files2);
    assert forall k :: k in CONFIG_KEYS && k != "password" ==> c1[k] == c2[k];
    assert SafeConfig(c1) == SafeConfig(c2);
    assert DbInfo(c1) == DbInfo(c2);
  }

  /**
   * The `lru_cache` around `load_db_config`: one entry per argument value,
   * filled on the first call and never refreshed, so a later edit of the env
   * file is not seen.
   */
  class ConfigCache {
    var cached: map<Option<string>, Config>

    ghost predicate Valid()
      reads this
    {
      forall env :: env in cached ==> cached[env].Keys == CONFIG_KEYS
    }

    constructor ()
      ensures Valid() && cached == map[]
    {
      cached := map[];
    }

    /** `load_db_config(env)` through the cache. */
    method Load(env: Option<string>, files: FileSystem) returns (config: Config)
      requires Valid()
      modifies this
      ensures Valid()
      ensures config == if env in old(cached) then old(cached)[env] else LoadDbConfig(env, files)
      ensures cached == old(cached)[env := config]
    {
      if env in cached {
        config := cached[env];
      } else {
        config := LoadDbConfig(env, files);
        cached := cached[env := config];
      }
    }

    /** `get_db_info(env)`: the display fields of the cached configuration. */
    method GetDbInfo(env: Option<string>, files: FileSystem) returns (info: Config)
      requires Valid()
      modifies this
      ensures Valid()
      ensures info == DbInfo(if env in old(cached) then old(cached)[env] else LoadDbConfig(env, files))
      ensures cached == old(cached)[env := if env in old(cached) then old(cached)[env] else LoadDbConfig(env, files)]
      ensures env in cached && info == DbInfo(cached[env])
      ensures env in old(cached) ==> cached == old(cached)
    {
      var config := Load(env, files);
      info := DbInfo(config);
    }
  }

  /** The first `get_db_info` of an environment shows the display fields of the
      configuration loaded from the env files, and never the password. */
  method FirstDbInfo(env: Option<string>, files: FileSystem) returns (info: Config)
    ensures info == DbInfo(LoadDbConfig(env, files))
    ensures "password" !in info && info.Keys == DISPLAY_KEYS
  {
    var cache := new ConfigCache();
    info := cache.GetDbInfo(env, files);
  }

  /** A second load of the same environment returns the first result, whatever
      the env files look like by then. */
  method LoadTwice(env: Option<string>, before: FileSystem, after: FileSystem)
    returns (first: Config, second: Config)
    ensures first == LoadDbConfig(env, before)
    ensures second == first
  {
    var cache := new ConfigCache();
    first := cache.Load(env, before);
    second := cache.Load(env, after);
  }
}
