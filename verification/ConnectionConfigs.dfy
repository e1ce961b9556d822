/**
 Connection settings, and the two normal forms under which cached connections are found:
 the cache key, and the coarser release key shared by all connections to one server.
 The program prints a normal form as JSON and hashes it; here the normal form itself is the key.
 */
module ConnectionConfigs {
  import opened Text

  /** Settings of a tunnel or proxy, with its password apart. */
  datatype Endpoint = Endpoint(settings: string, password: string)

  const NO_ENDPOINT := Endpoint("", "")

  /** The network fields: exactly those that mean nothing for a file database. */
  datatype Network = Network(
    port: int,
    user: string,
    password: string,
    uri: string,
    hosts: seq<string>,
    topology: string,
    redisSentinelMaster: string,
    redisSentinelUser: string,
    redisSentinelPassword: string,
    mysqlReplicaUser: string,
    mysqlReplicaPassword: string,
    replicaSet: string,
    authSource: string,
    readPreference: string,
    mongoSRV: bool,
    mongoAuthMechanism: string,
    mongoReplicaUser: string,
    mongoReplicaPassword: string)

  const NO_NETWORK := Network(0, "", "", "", [], "", "", "", "", "", "", "", "", "", false, "", "", "")

  /** The fields that say how a connection is used rather than which server it reaches. */
  datatype Usage = Usage(timeout: int, keepAliveEnabled: bool, keepAliveIntervalMinutes: int, savePassword: bool)

  const NO_USAGE := Usage(0, false, 0, false)

  /** `other` stands for the fields that no function here reads or writes. */
  datatype ConnectionConfig = ConnectionConfig(
    id: string,
    dbType: string,
    host: string,
    database: string,
    network: Network,
    usage: Usage,
    useSSH: bool,
    ssh: Endpoint,
    useProxy: bool,
    proxy: Endpoint,
    useHTTPTunnel: bool,
    httpTunnel: Endpoint,
    dsn: string,
    connectionParams: string,
    redisDB: int,
    oceanBaseProtocol: string,
    other: string)

  function LowerChar(c: char): char {
    if 'A' <= c <= 'Z' then c - 'A' + 'a' else c
  }

  function ToLower(s: string): string {
    seq(|s|, i requires 0 <= i < |s| => LowerChar(s[i]))
  }

  function TypeName(dbType: string): string {
    ToLower(TrimSpace(dbType))
  }

  /** The kinds of data source that the cache key treats differently. */
  datatype Family = OceanBase | SharedCatalog | FileDatabase | Plain

  function FamilyOf(name: string): Family {
    if name == "oceanbase" then OceanBase
    else if name == "goldendb" || name == "greatdb" || name == "gdb" || name == "diros" || name == "starrocks"
            || name == "sphinx" then SharedCatalog
    else if name == "sqlite" || name == "duckdb" then FileDatabase
    else Plain
  }

  /** Where the file of a file database is: its host, else its database, else memory. */
  function ResolveFileDatabaseDSN(host: string, database: string): (dsn: string)
    ensures dsn != "" && TrimSpace(dsn) == dsn
  {
    if TrimSpace(host) != "" then
      TrimTwice(host, GoSpace);
      TrimSpace(host)
    else if TrimSpace(database) != "" then
      TrimTwice(database, GoSpace);
      TrimSpace(database)
    else
      assert ":memory:"[0] == ':' && ":memory:"[7] == ':';
      TrimSpec(":memory:", GoSpace);
      ":memory:"
  }

  /** Rewrites the connection parameters of an OceanBase connection; it may look at the whole configuration. */
  type ParamsRewriter = ConnectionConfig -> string

  /** A file database is known by its file alone. */
  function NormalizeForFamily(config: ConnectionConfig, family: Family, rewrite: ParamsRewriter): ConnectionConfig {
    match family
    case OceanBase => config.(connectionParams := rewrite(config), oceanBaseProtocol := "")
    case SharedCatalog => config.(database := "")
    case FileDatabase =>
      config.(
        host := ResolveFileDatabaseDSN(config.host, config.database),
        database := "",
        network := NO_NETWORK,
        connectionParams := "",
        useHTTPTunnel := false,
        httpTunnel := NO_ENDPOINT)
    case Plain => config
  }

  function NormalizeTransport(config: ConnectionConfig): ConnectionConfig {
    config.(
      usage := NO_USAGE,
      ssh := if config.useSSH then config.ssh else NO_ENDPOINT,
      proxy := if config.useProxy then config.proxy else NO_ENDPOINT,
      httpTunnel := if config.useHTTPTunnel then config.httpTunnel else NO_ENDPOINT)
  }

  function NormalizeAs(config: ConnectionConfig, name: string, family: Family, rewrite: ParamsRewriter)
    : ConnectionConfig
  {
    NormalizeTransport(NormalizeForFamily(config.(id := "", dbType := name), family, rewrite))
  }

  function NormalizeCacheKeyConfig(config: ConnectionConfig, rewrite: ParamsRewriter): ConnectionConfig {
    var name := TypeName(config.dbType);
    NormalizeAs(config, name, FamilyOf(name), rewrite)
  }

  function ForgetDatabase(config: ConnectionConfig): ConnectionConfig {
    config.(database := "", redisDB := 0, connectionParams := "")
  }

  function NormalizeConnectionReleaseMatchConfig(config: ConnectionConfig, rewrite: ParamsRewriter): ConnectionConfig {
    ForgetDatabase(NormalizeCacheKeyConfig(config, rewrite))
  }

  lemma LowerKeepsTrimmed(s: string)
    requires IsTrimmed(s, GoSpace)
    ensures TrimSpace(ToLower(s)) == ToLower(s)
  {
    assert forall c :: GoSpace(LowerChar(c)) == GoSpace(c);
    assert IsTrimmed(ToLower(s), GoSpace);
    TrimSpec(ToLower(s), GoSpace);
  }

  /** Lower-casing keeps white space where it is, so a normalized type name is its own normal form. */
  lemma TypeNameIdempotent(dbType: string)
    ensures TypeName(TypeName(dbType)) == TypeName(dbType)
  {
    var once := TypeName(dbType);
    TrimSpec(dbType, GoSpace);
    LowerKeepsTrimmed(TrimSpace(dbType));
    assert forall i :: 0 <= i < |once| ==> LowerChar(once[i]) == once[i];
    assert ToLower(once) == once;
  }

  /** A normalized type is blank only for a blank type. */
  lemma NormalizedTypeBlank(dbType: string)
    ensures (TrimSpace(TypeName(dbType)) == "") == (TrimSpace(dbType) == "")
  {
    TrimSpec(dbType, GoSpace);
    LowerKeepsTrimmed(TrimSpace(dbType));
    assert |TypeName(dbType)| == |TrimSpace(dbType)|;
  }

  lemma NormalizeAsType(config: ConnectionConfig, name: string, family: Family, rewrite: ParamsRewriter)
    ensures NormalizeAs(config, name, family, rewrite).dbType == name
  {
  }

  lemma NormalizedType(config: ConnectionConfig, rewrite: ParamsRewriter)
    ensures NormalizeCacheKeyConfig(config, rewrite).dbType == TypeName(config.dbType)
  {
    var name := TypeName(config.dbType);
    NormalizeAsType(config, name, FamilyOf(name), rewrite);
  }

  lemma DSNStable(host: string, database: string)
    ensures var dsn := ResolveFileDatabaseDSN(host, database); ResolveFileDatabaseDSN(dsn, "") == dsn
  {
  }

  lemma NormalizeAsTwice(config: ConnectionConfig, name: string, family: Family, rewrite: ParamsRewriter)
    ensures var once := NormalizeAs(config, name, family, rewrite);
            ForgetDatabase(NormalizeAs(once, name, family, rewrite)) == ForgetDatabase(once)
  {
    DSNStable(config.host, config.database);
  }

  /**
   The release key of a cached (already normalized) configuration is the release key of the
   configuration it was cached for, file databases included: normalizing once before does not matter.
   */
  lemma ReleaseKeyOfCachedConfig(config: ConnectionConfig, rewrite: ParamsRewriter)
    ensures NormalizeConnectionReleaseMatchConfig(NormalizeCacheKeyConfig(config, rewrite), rewrite)
         == NormalizeConnectionReleaseMatchConfig(config, rewrite)
  {
    var name := TypeName(config.dbType);
    var once := NormalizeCacheKeyConfig(config, rewrite);
    assert TypeName(once.dbType) == name by {
      TypeNameIdempotent(config.dbType);
      NormalizedType(config, rewrite);
    }
    NormalizeAsTwice(config, name, FamilyOf(name), rewrite);
  }
}
