/** Configuration loading of src/config/config.go. The process environment is a
    map from variable name to value; os.Getenv yields "" for an unset variable and
    os.LookupEnv tells unset from set. Each log.Panic is a ConfigError result. */
module Config {
  import opened Wrappers
  import opened Strings

  type Env = map<string, string>

  /** Why loading the configuration stops the process. */
  datatype ConfigError =
    | InvalidBool(key: string, value: string)  // "Invalid value for boolean environment variable key=value"
    | MissingOrEmpty(key: string)             // "Environment variable not fount or is empty ..."

  const TrueSpellings: set<string> := {"TRUE", "true", "True", "T", "t"}
  const FalseSpellings: set<string> := {"FALSE", "false", "False", "F", "f"}

  const DefaultPassword: string := "123456789"
  const DefaultPort: string := "5432"

  /** os.Getenv: the value, or "" when the variable is unset. */
  function Getenv(env: Env, key: string): (value: string)
    ensures key in env ==> value == env[key]
    ensures value == "" <==> key !in env || env[key] == ""
  {
    if key in env then env[key] else ""
  }

  /** GetEnvBool: a strict parse accepting exactly ten spellings. */
  function GetEnvBool(env: Env, key: string): (r: Result<bool, ConfigError>)
    ensures r == Success(true) <==> Getenv(env, key) in TrueSpellings
    ensures r == Success(false) <==> Getenv(env, key) in FalseSpellings
    ensures r.Failure? <==> Getenv(env, key) !in TrueSpellings + FalseSpellings
    ensures r.Failure? ==> r.error == InvalidBool(key, Getenv(env, key))
  {
    var strval := Getenv(env, key);
    match strval
    case "TRUE" | "true" | "True" | "T" | "t" => Success(true)
    case "FALSE" | "false" | "False" | "F" | "f" => Success(false)
    case _ => Failure(InvalidBool(key, strval))
  }

  /** strconv.FormatBool, the canonical spelling of a boolean. */
  function FormatBool(b: bool): string {
    if b then "true" else "false"
  }

  /** A variable set to a formatted boolean reads back as that boolean. */
  lemma GetEnvBoolFormat(env: Env, key: string, b: bool)
    ensures GetEnvBool(env[key := FormatBool(b)], key) == Success(b)
  {
  }

  /** The two sets of spellings are disjoint and ten in all. */
  lemma BoolSpellings()
    ensures TrueSpellings !! FalseSpellings
    ensures |TrueSpellings + FalseSpellings| == 10
  {
  }

  /** GetEnvOrDefault: the default when the variable is unset or empty, its value otherwise. */
  function GetEnvOrDefault(env: Env, key: string, defaultValue: string): (r: string)
    ensures key !in env || env[key] == "" ==> r == defaultValue
    ensures key in env && env[key] != "" ==> r == env[key]
    ensures defaultValue != "" ==> r != ""
  {
    var value := Getenv(env, key);
    if value == "" then defaultValue else value
  }

  /** GetEnvOrPanic: fails when the variable is unset or has length 0, else its value. */
  function GetEnvOrPanic(env: Env, key: string): (r: Result<string, ConfigError>)
    ensures r.Success? <==> key in env && |env[key]| > 0
    ensures r.Success? ==> r.value == env[key]
    ensures r.Failure? ==> r.error == MissingOrEmpty(key)
  {
    if key !in env || |env[key]| == 0 then Failure(MissingOrEmpty(key)) else Success(env[key])
  }

  /** The database settings (config.DbArgs). */
  datatype DbArgs = DbArgs(
    insecure: bool, host: string, user: string, password: string, name: string, port: string,
    maxOpenConn: int, minIdleConn: int)

  /** The settings InitEnv produces from env: the variables read in InitEnv's order,
      the first failure stopping it. */
  function LoadDbArgs(env: Env): (r: Result<DbArgs, ConfigError>)
    ensures r.Success? <==>
              && Getenv(env, "DB_INSECURE") in TrueSpellings + FalseSpellings
              && GetEnvOrPanic(env, "DB_USER").Success?
              && GetEnvOrPanic(env, "DB_NAME").Success?
              && GetEnvOrPanic(env, "DB_HOST").Success?
    ensures r.Success? ==>
              && r.value.insecure == (Getenv(env, "DB_INSECURE") in TrueSpellings)
              && r.value.user == env["DB_USER"] && r.value.name == env["DB_NAME"] && r.value.host == env["DB_HOST"]
              && r.value.password == (if Getenv(env, "DB_PASSWORD") == "" then DefaultPassword else env["DB_PASSWORD"])
              && r.value.port == (if Getenv(env, "DB_PORT") == "" then DefaultPort else env["DB_PORT"])
              && r.value.maxOpenConn == 0 && r.value.minIdleConn == 0
  {
    var insecure :- GetEnvBool(env, "DB_INSECURE");
    var user :- GetEnvOrPanic(env, "DB_USER");
    var password := GetEnvOrDefault(env, "DB_PASSWORD", DefaultPassword);
    var name :- GetEnvOrPanic(env, "DB_NAME");
    var host :- GetEnvOrPanic(env, "DB_HOST");
    var port := GetEnvOrDefault(env, "DB_PORT", DefaultPort);
    Success(DbArgs(insecure, host, user, password, name, port, 0, 0))
  }

  /** The first failing check decides the error: DB_INSECURE, then DB_USER, then DB_NAME, then DB_HOST. */
  lemma LoadDbArgsFirstError(env: Env)
    ensures Getenv(env, "DB_INSECURE") !in TrueSpellings + FalseSpellings ==>
              LoadDbArgs(env) == Failure(InvalidBool("DB_INSECURE", Getenv(env, "DB_INSECURE")))
    ensures Getenv(env, "DB_INSECURE") in TrueSpellings + FalseSpellings && GetEnvOrPanic(env, "DB_USER").Failure? ==>
              LoadDbArgs(env) == Failure(MissingOrEmpty("DB_USER"))
    ensures Getenv(env, "DB_INSECURE") in TrueSpellings + FalseSpellings && GetEnvOrPanic(env, "DB_USER").Success?
              && GetEnvOrPanic(env, "DB_NAME").Failure? ==>
              LoadDbArgs(env) == Failure(MissingOrEmpty("DB_NAME"))
    ensures Getenv(env, "DB_INSECURE") in TrueSpellings + FalseSpellings && GetEnvOrPanic(env, "DB_USER").Success?
              && GetEnvOrPanic(env, "DB_NAME").Success? && GetEnvOrPanic(env, "DB_HOST").Failure? ==>
              LoadDbArgs(env) == Failure(MissingOrEmpty("DB_HOST"))
  {
  }

  /** config.Conf, allocated and filled in by InitEnv. */
  class Conf {
    var appPort: string
    var dbArgs: DbArgs

    /** new(Conf): every field at its zero value. */
    constructor ()
      ensures appPort == "" && dbArgs == DbArgs(false, "", "", "", "", "", 0, 0)
    {
      appPort := "";
      dbArgs := DbArgs(false, "", "", "", "", "", 0, 0);
    }
  }

  /** InitEnv: allocates a Conf and assigns its database fields one by one; a variable
      that fails its check stops it with that error. */
  method InitEnv(env: Env) returns (r: Result<Conf, ConfigError>)
    ensures r.Success? <==> LoadDbArgs(env).Success?
    ensures r.Failure? ==> r.error == LoadDbArgs(env).error
    ensures r.Success? ==> fresh(r.value) && r.value.appPort == "" && r.value.dbArgs == LoadDbArgs(env).value
  {
    var conf := new Conf();
    var insecure := GetEnvBool(env, "DB_INSECURE");
    if insecure.Failure? {
      return Failure(insecure.error);
    }
    conf.dbArgs := conf.dbArgs.(insecure := insecure.value);
    var user := GetEnvOrPanic(env, "DB_USER");
    if user.Failure? {
      return Failure(user.error);
    }
    conf.dbArgs := conf.dbArgs.(user := user.value);
    conf.dbArgs := conf.dbArgs.(password := GetEnvOrDefault(env, "DB_PASSWORD", DefaultPassword));
    var name := GetEnvOrPanic(env, "DB_NAME");
    if name.Failure? {
      return Failure(name.error);
    }
    conf.dbArgs := conf.dbArgs.(name := name.value);
    var host := GetEnvOrPanic(env, "DB_HOST");
    if host.Failure? {
      return Failure(host.error);
    }
    conf.dbArgs := conf.dbArgs.(host := host.value);
    conf.dbArgs := conf.dbArgs.(port := GetEnvOrDefault(env, "DB_PORT", DefaultPort));
    return Success(conf);
  }

  /** The six "key=value" words of the connection string, in GetDNS's order. */
  function DnsWords(args: DbArgs): seq<string> {
    ["host=" + args.host, "user=" + args.user, "password=" + args.password,
     "dbname=" + args.name, "port=" + args.port, "sslmode=disable"]
  }

  /** GetDNS: the libpq keyword/value connection string. */
  function GetDNS(args: DbArgs): (dns: string)
    ensures |dns| > 21 && dns[..5] == "host="
    ensures dns[|dns| - 16..] == " sslmode=disable"
  {
    "host=" + args.host + " user=" + args.user + " password=" + args.password +
    " dbname=" + args.name + " port=" + args.port + " sslmode=disable"
  }

  /** The connection string is its six words joined by single spaces, in that order. */
  lemma GetDNSJoin(args: DbArgs)
    ensures GetDNS(args) == Join(DnsWords(args), ' ')
  {
    var w := DnsWords(args);
    var acc := "host=" + args.host;
    assert Join(w[..1], ' ') == acc;
    JoinStep(w, 1, acc, " user=", args.user);
    acc := acc + " user=" + args.user;
    JoinStep(w, 2, acc, " password=", args.password);
    acc := acc + " password=" + args.password;
    JoinStep(w, 3, acc, " dbname=", args.name);
    acc := acc + " dbname=" + args.name;
    JoinStep(w, 4, acc, " port=", args.port);
    acc := acc + " port=" + args.port;
    JoinStep(w, 5, acc, " sslmode=disable", "");
    assert w[..6] == w;
  }

  /** One more word of the connection string: appending " key=" and a value to the
      first k words joined gives the first k + 1 words joined. */
  lemma JoinStep(w: seq<string>, k: nat, acc: string, key: string, value: string)
    requires 1 <= k < |w| && |key| > 0 && key[0] == ' '
    requires Join(w[..k], ' ') == acc && w[k] == key[1..] + value
    ensures Join(w[..k + 1], ' ') == acc + key + value
  {
    assert w[..k + 1][..k] == w[..k];
    assert key == [' '] + key[1..];
  }

  /** While no field holds a space, splitting the connection string at spaces gives
      back the six words, fields in place, ending with sslmode=disable. */
  lemma GetDNSWords(args: DbArgs)
    requires ' ' !in args.host && ' ' !in args.user && ' ' !in args.password
    requires ' ' !in args.name && ' ' !in args.port
    ensures Split(GetDNS(args), ' ') == DnsWords(args)
    ensures Split(GetDNS(args), ' ')[5] == "sslmode=disable"
  {
    var w := DnsWords(args);
    forall i | 0 <= i < |w| ensures ' ' !in w[i] {
      assert w[i][..|w[i]|] == w[i];
    }
    SplitJoin(w, ' ');
    GetDNSJoin(args);
  }

  /** The server address GetConnector hands to the driver, fmt.Sprintf("%s:%s", host, port). */
  function ConnectorAddr(args: DbArgs): (addr: string)
    ensures addr == Join([args.host, args.port], ':')
  {
    args.host + ":" + args.port
  }

  /** While host and port hold no colon, the address splits back into host and port. */
  lemma ConnectorAddrParts(args: DbArgs)
    requires ':' !in args.host && ':' !in args.port
    ensures Split(ConnectorAddr(args), ':') == [args.host, args.port]
  {
    SplitJoin([args.host, args.port], ':');
  }
}
