/**
 Which configurations share a cached connection, and which are released together: said of the two configurations
 themselves, field by field and family by family.
 */
module ConnectionKeys {
  import opened Text
  import opened ConnectionConfigs

  // Types.

  predicate SharesCatalog(name: string) {
    name == "goldendb" || name == "greatdb" || name == "gdb" || name == "diros" || name == "starrocks"
    || name == "sphinx"
  }

  predicate IsFileType(name: string) {
    name == "sqlite" || name == "duckdb"
  }

  predicate IsUpper(c: char) {
    'A' <= c <= 'Z'
  }

  /** The name of a type is the trimmed text with each capital letter made small. */
  lemma TypeNameSpec(dbType: string)
    ensures var (name, text) := (TypeName(dbType), TrimSpace(dbType));
            |name| == |text|
            && forall i :: 0 <= i < |name| ==>
                 if IsUpper(text[i]) then name[i] as int - 'a' as int == text[i] as int - 'A' as int
                 else name[i] == text[i]
  {
  }

  lemma FamilyByName(name: string)
    ensures FamilyOf(name).OceanBase? <==> name == "oceanbase"
    ensures FamilyOf(name).SharedCatalog? <==> SharesCatalog(name)
    ensures FamilyOf(name).FileDatabase? <==> IsFileType(name)
  {
    assert "oceanbase"[0] == 'o' && "sqlite"[0] == 's' && "duckdb"[1] == 'u';
    assert "goldendb"[0] == 'g' && "greatdb"[0] == 'g' && "gdb"[0] == 'g' && "diros"[1] == 'i'
        && "starrocks"[1] == 't' && "sphinx"[1] == 'p' && "sqlite"[1] == 'q' && "duckdb"[0] == 'd';
  }

  // What counts.

  /** Tunnels and proxies count when they are switched on. */
  ghost predicate SameTunnels(a: ConnectionConfig, b: ConnectionConfig) {
    a.useSSH == b.useSSH && (a.useSSH ==> a.ssh == b.ssh)
    && a.useProxy == b.useProxy && (a.useProxy ==> a.proxy == b.proxy)
  }

  ghost predicate SameHTTPTunnel(a: ConnectionConfig, b: ConnectionConfig) {
    a.useHTTPTunnel == b.useHTTPTunnel && (a.useHTTPTunnel ==> a.httpTunnel == b.httpTunnel)
  }

  /** The file of a file database: named by the host, or else by the database, or else it is memory. */
  predicate HasFile(config: ConnectionConfig, file: string) {
    if TrimSpace(config.host) != "" then file == TrimSpace(config.host)
    else if TrimSpace(config.database) != "" then file == TrimSpace(config.database)
    else file == ":memory:"
  }

  ghost predicate SameFile(a: ConnectionConfig, b: ConnectionConfig) {
    exists file :: HasFile(a, file) && HasFile(b, file)
  }

  /** The configuration that OceanBase's parameters are rewritten for. */
  function Named(config: ConnectionConfig): ConnectionConfig {
    config.(id := "", dbType := TypeName(config.dbType))
  }

  /** What counts for all types. */
  ghost predicate SameServer(a: ConnectionConfig, b: ConnectionConfig) {
    SameTunnels(a, b) && a.dsn == b.dsn && a.other == b.other
  }

  /** What counts for all types that are reached over a network. */
  ghost predicate SameNetwork(a: ConnectionConfig, b: ConnectionConfig) {
    a.host == b.host && a.network == b.network && SameHTTPTunnel(a, b)
  }

  /**
   Two configurations mean one connection. Their ids and the way they are used never count. The database counts for
   all but the shared catalogs and the file databases; for these last nothing of the network does.
   */
  ghost predicate SameConnection(a: ConnectionConfig, b: ConnectionConfig, rewrite: ParamsRewriter) {
    var name := TypeName(a.dbType);
    name == TypeName(b.dbType) && SameServer(a, b) && a.redisDB == b.redisDB
    && if IsFileType(name) then SameFile(a, b) && a.oceanBaseProtocol == b.oceanBaseProtocol
       else
         SameNetwork(a, b)
         && (SharesCatalog(name) || a.database == b.database)
         && (if name == "oceanbase" then rewrite(Named(a)) == rewrite(Named(b))
             else a.connectionParams == b.connectionParams && a.oceanBaseProtocol == b.oceanBaseProtocol)
  }

  /** Two configurations are released together: the same, whatever their databases, indexes and parameters. */
  ghost predicate SameRelease(a: ConnectionConfig, b: ConnectionConfig) {
    var name := TypeName(a.dbType);
    name == TypeName(b.dbType) && SameServer(a, b)
    && (if IsFileType(name) then SameFile(a, b) else SameNetwork(a, b))
    && (name == "oceanbase" || a.oceanBaseProtocol == b.oceanBaseProtocol)
  }

  lemma FileIsResolved(config: ConnectionConfig, file: string)
    ensures HasFile(config, file) <==> file == ResolveFileDatabaseDSN(config.host, config.database)
  {
  }

  lemma SameFileResolved(a: ConnectionConfig, b: ConnectionConfig)
    ensures SameFile(a, b)
       <==> ResolveFileDatabaseDSN(a.host, a.database) == ResolveFileDatabaseDSN(b.host, b.database)
  {
    FileIsResolved(a, ResolveFileDatabaseDSN(a.host, a.database));
    FileIsResolved(b, ResolveFileDatabaseDSN(a.host, a.database));
    if SameFile(a, b) {
      var file :| HasFile(a, file) && HasFile(b, file);
      FileIsResolved(a, file);
      FileIsResolved(b, file);
    }
  }

  /** One normal form for each family. */
  lemma FileForms(a: ConnectionConfig, b: ConnectionConfig, name: string, rewrite: ParamsRewriter)
    ensures NormalizeAs(a, name, FileDatabase, rewrite) == NormalizeAs(b, name, FileDatabase, rewrite)
       <==> SameServer(a, b) && a.redisDB == b.redisDB && SameFile(a, b) && a.oceanBaseProtocol == b.oceanBaseProtocol
  {
    SameFileResolved(a, b);
  }

  lemma NetworkForms(a: ConnectionConfig, b: ConnectionConfig, name: string, family: Family, rewrite: ParamsRewriter)
    requires !family.FileDatabase?
    ensures NormalizeAs(a, name, family, rewrite) == NormalizeAs(b, name, family, rewrite)
       <==> SameServer(a, b) && a.redisDB == b.redisDB && SameNetwork(a, b)
            && (family.SharedCatalog? || a.database == b.database)
            && (if family.OceanBase? then
                  rewrite(a.(id := "", dbType := name)) == rewrite(b.(id := "", dbType := name))
                else a.connectionParams == b.connectionParams && a.oceanBaseProtocol == b.oceanBaseProtocol)
  {
  }

  lemma KeyHasType(a: ConnectionConfig, b: ConnectionConfig, rewrite: ParamsRewriter)
    requires NormalizeCacheKeyConfig(a, rewrite) == NormalizeCacheKeyConfig(b, rewrite)
    ensures TypeName(a.dbType) == TypeName(b.dbType)
  {
    NormalizedType(a, rewrite);
    NormalizedType(b, rewrite);
  }

  /** Two configurations share a cached connection exactly when they mean one connection. */
  lemma SameKeyExactly(a: ConnectionConfig, b: ConnectionConfig, rewrite: ParamsRewriter)
    ensures NormalizeCacheKeyConfig(a, rewrite) == NormalizeCacheKeyConfig(b, rewrite)
       <==> SameConnection(a, b, rewrite)
  {
    var name := TypeName(a.dbType);
    FamilyByName(name);
    if TypeName(b.dbType) != name {
      if NormalizeCacheKeyConfig(a, rewrite) == NormalizeCacheKeyConfig(b, rewrite) {
        KeyHasType(a, b, rewrite);
      }
    } else if FamilyOf(name).FileDatabase? {
      FileForms(a, b, name, rewrite);
    } else {
      NetworkForms(a, b, name, FamilyOf(name), rewrite);
    }
  }

  lemma FileReleaseForms(a: ConnectionConfig, b: ConnectionConfig, name: string, rewrite: ParamsRewriter)
    ensures ForgetDatabase(NormalizeAs(a, name, FileDatabase, rewrite))
            == ForgetDatabase(NormalizeAs(b, name, FileDatabase, rewrite))
       <==> SameServer(a, b) && SameFile(a, b) && a.oceanBaseProtocol == b.oceanBaseProtocol
  {
    SameFileResolved(a, b);
  }

  lemma NetworkReleaseForms(
      a: ConnectionConfig, b: ConnectionConfig, name: string, family: Family, rewrite: ParamsRewriter)
    requires !family.FileDatabase?
    ensures ForgetDatabase(NormalizeAs(a, name, family, rewrite))
            == ForgetDatabase(NormalizeAs(b, name, family, rewrite))
       <==> SameServer(a, b) && SameNetwork(a, b) && (family.OceanBase? || a.oceanBaseProtocol == b.oceanBaseProtocol)
  {
  }

  lemma ReleaseKeyHasType(a: ConnectionConfig, b: ConnectionConfig, rewrite: ParamsRewriter)
    requires NormalizeConnectionReleaseMatchConfig(a, rewrite) == NormalizeConnectionReleaseMatchConfig(b, rewrite)
    ensures TypeName(a.dbType) == TypeName(b.dbType)
  {
    NormalizedType(a, rewrite);
    NormalizedType(b, rewrite);
    assert forall c: ConnectionConfig :: ForgetDatabase(c).dbType == c.dbType;
  }

  /** Two configurations have one release key exactly when they differ in database, index and parameters at most. */
  lemma SameReleaseKeyExactly(a: ConnectionConfig, b: ConnectionConfig, rewrite: ParamsRewriter)
    ensures NormalizeConnectionReleaseMatchConfig(a, rewrite) == NormalizeConnectionReleaseMatchConfig(b, rewrite)
       <==> SameRelease(a, b)
  {
    var name := TypeName(a.dbType);
    FamilyByName(name);
    if TypeName(b.dbType) != name {
      if NormalizeConnectionReleaseMatchConfig(a, rewrite) == NormalizeConnectionReleaseMatchConfig(b, rewrite) {
        ReleaseKeyHasType(a, b, rewrite);
      }
    } else if FamilyOf(name).FileDatabase? {
      FileReleaseForms(a, b, name, rewrite);
    } else {
      NetworkReleaseForms(a, b, name, FamilyOf(name), rewrite);
    }
  }
}
