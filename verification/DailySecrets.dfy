/** Connection secrets: where a saved connection keeps them, and the daily store they are moved to. */
module DailySecrets {
  import opened Text
  import opened ConnectionConfigs

  datatype Bundle = Bundle(
    password: string,
    sshPassword: string,
    proxyPassword: string,
    httpTunnelPassword: string,
    mysqlReplicaPassword: string,
    mongoReplicaPassword: string,
    redisSentinelPassword: string,
    opaqueURI: string,
    opaqueDSN: string)

  const NO_SECRETS := Bundle("", "", "", "", "", "", "", "", "")

  /** Which secrets a saved connection is said to have. */
  datatype Flags = Flags(
    primary: bool,
    ssh: bool,
    proxy: bool,
    httpTunnel: bool,
    mysqlReplica: bool,
    mongoReplica: bool,
    redisSentinel: bool,
    uri: bool,
    dsn: bool)

  const NO_FLAGS := Flags(false, false, false, false, false, false, false, false, false)

  datatype SavedConnection = SavedConnection(id: string, config: ConnectionConfig, secretRef: string, flags: Flags)

  predicate Present(secret: string) {
    TrimSpace(secret) != ""
  }

  /** A secret of white space alone is none. */
  lemma PresentMeans(secret: string)
    ensures Present(secret) <==> exists i :: 0 <= i < |secret| && !GoSpace(secret[i])
  {
    TrimsToNothing(secret, GoSpace);
  }

  function FlagsOf(bundle: Bundle): Flags {
    Flags(
      Present(bundle.password), Present(bundle.sshPassword), Present(bundle.proxyPassword),
      Present(bundle.httpTunnelPassword), Present(bundle.mysqlReplicaPassword), Present(bundle.mongoReplicaPassword),
      Present(bundle.redisSentinelPassword), Present(bundle.opaqueURI), Present(bundle.opaqueDSN))
  }

  predicate HasAny(bundle: Bundle) {
    Present(bundle.password) || Present(bundle.sshPassword) || Present(bundle.proxyPassword)
    || Present(bundle.httpTunnelPassword) || Present(bundle.mysqlReplicaPassword)
    || Present(bundle.mongoReplicaPassword) || Present(bundle.redisSentinelPassword)
    || Present(bundle.opaqueURI) || Present(bundle.opaqueDSN)
  }

  predicate SaysHasSecrets(flags: Flags) {
    flags.primary || flags.ssh || flags.proxy || flags.httpTunnel || flags.mysqlReplica || flags.mongoReplica
    || flags.redisSentinel || flags.uri || flags.dsn
  }

  function ExtractConnectionSecretBundle(config: ConnectionConfig): Bundle {
    Bundle(
      config.network.password, config.ssh.password, config.proxy.password, config.httpTunnel.password,
      config.network.mysqlReplicaPassword, config.network.mongoReplicaPassword, config.network.redisSentinelPassword,
      config.network.uri, config.dsn)
  }

  function StripConnectionSecretFields(config: ConnectionConfig): ConnectionConfig {
    config.(
      network := config.network.(password := "", mysqlReplicaPassword := "", mongoReplicaPassword := "",
                                 redisSentinelPassword := "", uri := ""),
      ssh := config.ssh.(password := ""),
      proxy := config.proxy.(password := ""),
      httpTunnel := config.httpTunnel.(password := ""),
      dsn := "")
  }

  /** Putting a bundle back into a configuration: the inverse of taking it out. */
  function WithSecrets(config: ConnectionConfig, bundle: Bundle): ConnectionConfig {
    config.(
      network := config.network.(password := bundle.password, mysqlReplicaPassword := bundle.mysqlReplicaPassword,
                                 mongoReplicaPassword := bundle.mongoReplicaPassword,
                                 redisSentinelPassword := bundle.redisSentinelPassword, uri := bundle.opaqueURI),
      ssh := config.ssh.(password := bundle.sshPassword),
      proxy := config.proxy.(password := bundle.proxyPassword),
      httpTunnel := config.httpTunnel.(password := bundle.httpTunnelPassword),
      dsn := bundle.opaqueDSN)
  }

  /** Extracting and stripping splits a configuration without loss: each field goes to exactly one of the two. */
  lemma SplitIsLossless(config: ConnectionConfig)
    ensures WithSecrets(StripConnectionSecretFields(config), ExtractConnectionSecretBundle(config)) == config
    ensures ExtractConnectionSecretBundle(StripConnectionSecretFields(config)) == NO_SECRETS
    ensures !HasAny(NO_SECRETS)
  {
  }

  /** A bundle has a secret exactly when the flags computed from it say so. */
  lemma FlagsTellSecrets(bundle: Bundle)
    ensures SaysHasSecrets(FlagsOf(bundle)) == HasAny(bundle)
  {
  }

  function Inline(item: SavedConnection): Bundle {
    ExtractConnectionSecretBundle(item.config)
  }

  datatype Loaded = Secrets(bundle: Bundle) | Lost

  /** How the application reads a saved connection's secrets. */
  function LoadSecretBundle(item: SavedConnection, stored: Option<Bundle>): Loaded {
    if HasAny(Inline(item)) then Secrets(Inline(item))
    else if !SaysHasSecrets(item.flags) then Secrets(NO_SECRETS)
    else match stored
      case Some(bundle) => Secrets(bundle)
      case None => Lost
  }

  type DailyStore = map<string, Bundle>

  /** Storing a bundle without secrets deletes. Ids are trimmed. */
  function PutConnection(store: DailyStore, id: string, bundle: Bundle): DailyStore {
    if HasAny(bundle) then store[TrimSpace(id) := bundle] else store - {TrimSpace(id)}
  }

  function DeleteConnection(store: DailyStore, id: string): DailyStore {
    store - {TrimSpace(id)}
  }

  function GetConnection(store: DailyStore, id: string): Option<Bundle> {
    if TrimSpace(id) in store then Some(store[TrimSpace(id)]) else None
  }

  ghost predicate NoEmptyBundles(store: DailyStore) {
    forall id :: id in store ==> HasAny(store[id])
  }

  /** The store's own operations never leave an empty bundle behind. */
  lemma StoreKeepsNoEmptyBundles(store: DailyStore, id: string, bundle: Bundle)
    requires NoEmptyBundles(store)
    ensures NoEmptyBundles(PutConnection(store, id, bundle)) && NoEmptyBundles(DeleteConnection(store, id))
  {
  }
}
