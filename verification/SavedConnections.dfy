/**
 Saving connections: the list file and the daily store, and what one save does to the connection it names.
 Secrets that an input neither brings nor clears are those stored before.
 */
module SavedConnections {
  import opened Text
  import opened ConnectionConfigs
  import opened DailySecrets
  import opened DedupedSaves

  /** `shown` is what else the list shows of a connection; `clears` says which secrets the input takes away. */
  datatype Input<C> = Input(id: string, config: ConnectionConfig, clears: Flags, shown: C)

  datatype View<C> = View(saved: SavedConnection, shown: C)

  datatype Repository<C> = Repository(connections: seq<View<C>>, secrets: DailyStore)

  function KeyOf<C>(input: Input<C>): string {
    TrimSpace(input.id)
  }

  /** An input gets its own id, that of its config, or a new one, and its config gets the same. */
  function Normalized<C>(input: Input<C>, newId: string): Input<C> {
    var id :=
      if TrimSpace(input.id) != "" then input.id
      else if TrimSpace(input.config.id) != "" then TrimSpace(input.config.id)
      else newId;
    input.(id := id, config := input.config.(id := id))
  }

  lemma NormalizedHasKey<C>(input: Input<C>, newId: string)
    requires TrimSpace(newId) != ""
    ensures KeyOf(Normalized(input, newId)) != ""
    ensures TrimSpace(input.id) != "" ==> KeyOf(Normalized(input, newId)) == KeyOf(input)
    ensures Normalized(input, newId).config == input.config.(id := Normalized(input, newId).id)
  {
    TrimTwice(input.config.id, GoSpace);
  }

  // Secrets, one by one.

  datatype Field = Primary | Ssh | Proxy | HttpTunnel | MysqlReplica | MongoReplica | RedisSentinel | Uri | Dsn

  function Secret(bundle: Bundle, f: Field): string {
    match f
    case Primary => bundle.password
    case Ssh => bundle.sshPassword
    case Proxy => bundle.proxyPassword
    case HttpTunnel => bundle.httpTunnelPassword
    case MysqlReplica => bundle.mysqlReplicaPassword
    case MongoReplica => bundle.mongoReplicaPassword
    case RedisSentinel => bundle.redisSentinelPassword
    case Uri => bundle.opaqueURI
    case Dsn => bundle.opaqueDSN
  }

  predicate Flag(flags: Flags, f: Field) {
    match f
    case Primary => flags.primary
    case Ssh => flags.ssh
    case Proxy => flags.proxy
    case HttpTunnel => flags.httpTunnel
    case MysqlReplica => flags.mysqlReplica
    case MongoReplica => flags.mongoReplica
    case RedisSentinel => flags.redisSentinel
    case Uri => flags.uri
    case Dsn => flags.dsn
  }

  function Over(base: string, overlay: string): string {
    if Present(overlay) then overlay else base
  }

  function MergeConnectionSecretBundles(base: Bundle, overlay: Bundle): Bundle {
    Bundle(
      Over(base.password, overlay.password), Over(base.sshPassword, overlay.sshPassword),
      Over(base.proxyPassword, overlay.proxyPassword), Over(base.httpTunnelPassword, overlay.httpTunnelPassword),
      Over(base.mysqlReplicaPassword, overlay.mysqlReplicaPassword),
      Over(base.mongoReplicaPassword, overlay.mongoReplicaPassword),
      Over(base.redisSentinelPassword, overlay.redisSentinelPassword), Over(base.opaqueURI, overlay.opaqueURI),
      Over(base.opaqueDSN, overlay.opaqueDSN))
  }

  function Unless(clear: bool, secret: string): string {
    if clear then "" else secret
  }

  function ApplyConnectionSecretClears(bundle: Bundle, clears: Flags): Bundle {
    Bundle(
      Unless(clears.primary, bundle.password), Unless(clears.ssh, bundle.sshPassword),
      Unless(clears.proxy, bundle.proxyPassword), Unless(clears.httpTunnel, bundle.httpTunnelPassword),
      Unless(clears.mysqlReplica, bundle.mysqlReplicaPassword),
      Unless(clears.mongoReplica, bundle.mongoReplicaPassword),
      Unless(clears.redisSentinel, bundle.redisSentinelPassword), Unless(clears.uri, bundle.opaqueURI),
      Unless(clears.dsn, bundle.opaqueDSN))
  }

  // One save.

  function Own<C>(input: Input<C>): Bundle {
    ExtractConnectionSecretBundle(input.config)
  }

  /** The connection under this very id, if the list has one. */
  function ViewOf<C>(connections: seq<View<C>>, id: string): Option<View<C>> {
    if connections == [] then None
    else if connections[0].saved.id == id then Some(connections[0])
    else ViewOf(connections[1..], id)
  }

  /** The secrets to store: the stored ones under the input's, less the cleared ones. They may be unreadable. */
  function Merged<C>(existing: Option<View<C>>, stored: Option<Bundle>, input: Input<C>): Option<Bundle> {
    if existing.None? || !SaysHasSecrets(existing.value.saved.flags) then
      Some(ApplyConnectionSecretClears(Own(input), input.clears))
    else
      match LoadSecretBundle(existing.value.saved, stored)
      case Secrets(bundle) =>
        Some(ApplyConnectionSecretClears(MergeConnectionSecretBundles(bundle, Own(input)), input.clears))
      case Lost => None
  }

  function ViewFor<C>(input: Input<C>, bundle: Bundle): View<C> {
    var config := input.config.(id := KeyOf(input), usage := input.config.usage.(savePassword := false));
    View(SavedConnection(KeyOf(input), StripConnectionSecretFields(config), "", FlagsOf(bundle)), input.shown)
  }

  /** The view takes the place of the one with its id, or the last place. */
  function Placed<C>(connections: seq<View<C>>, view: View<C>): seq<View<C>> {
    if connections == [] then [view]
    else if connections[0].saved.id == view.saved.id then [view] + connections[1..]
    else [connections[0]] + Placed(connections[1..], view)
  }

  /** Saving an input that has a key; it fails, and changes nothing, when stored secrets cannot be read. */
  function SaveInput<C>(r: Repository<C>, input: Input<C>): Option<Repository<C>> {
    var id := KeyOf(input);
    match Merged(ViewOf(r.connections, id), GetConnection(r.secrets, id), input)
    case None => None
    case Some(bundle) =>
      Some(Repository(Placed(r.connections, ViewFor(input, bundle)), PutConnection(r.secrets, id, bundle)))
  }

  // What a save does to one id.

  /** All that there is under one id. */
  datatype Entry<C> = Entry(view: Option<View<C>>, cell: Option<Bundle>)

  function CellOf(secrets: DailyStore, id: string): Option<Bundle> {
    if id in secrets then Some(secrets[id]) else None
  }

  function EntryOf<C>(r: Repository<C>, id: string): Entry<C> {
    Entry(ViewOf(r.connections, id), CellOf(r.secrets, id))
  }

  /** The entry's list item says that there are secrets, but there are none. */
  predicate Broken<C>(e: Entry<C>) {
    e.view.Some? && LoadSecretBundle(e.view.value.saved, e.cell).Lost?
  }

  function SavedBundle<C>(e: Entry<C>, input: Input<C>): Bundle
    requires !Broken(e)
  {
    Merged(e.view, e.cell, input).value
  }

  function SaveEntry<C>(e: Entry<C>, input: Input<C>): Entry<C>
    requires !Broken(e)
  {
    var bundle := SavedBundle(e, input);
    Entry(Some(ViewFor(input, bundle)), if HasAny(bundle) then Some(bundle) else None)
  }

  lemma {:induction false} PlacedViews<C>(connections: seq<View<C>>, view: View<C>, id: string)
    ensures ViewOf(Placed(connections, view), id)
         == if id == view.saved.id then Some(view) else ViewOf(connections, id)
  {
    if connections != [] {
      PlacedViews(connections[1..], view, id);
    }
  }

  /** A save goes through exactly when the entry it names is not broken; then it changes that entry alone. */
  lemma SaveIsLocal<C>(r: Repository<C>, input: Input<C>, id: string)
    ensures var (saved, key) := (SaveInput(r, input), KeyOf(input));
            && (saved.Some? <==> !Broken(EntryOf(r, key)))
            && (saved.Some? ==> EntryOf(saved.value, id)
                                == if id == key then SaveEntry(EntryOf(r, key), input) else EntryOf(r, id))
  {
    var key := KeyOf(input);
    TrimTwice(input.id, GoSpace);
    assert EntryOf(r, key).cell == GetConnection(r.secrets, key);
    if !Broken(EntryOf(r, key)) {
      PlacedViews(r.connections, ViewFor(input, SavedBundle(EntryOf(r, key), input)), id);
    }
  }

  // What one save does to one secret.

  function Solid(secret: string): string {
    Over("", secret)
  }

  /** The secret that the application finds for an entry, or nothing. */
  function Known<C>(e: Entry<C>, f: Field): string {
    if e.view.None? || !SaysHasSecrets(e.view.value.saved.flags) then ""
    else match LoadSecretBundle(e.view.value.saved, e.cell)
      case Secrets(bundle) => Solid(Secret(bundle, f))
      case Lost => ""
  }

  /** What an input says of a secret: nothing, or what it is to be. */
  function Says<C>(input: Input<C>, f: Field): Option<string> {
    if Flag(input.clears, f) then Some("")
    else if Present(Secret(Own(input), f)) then Some(Secret(Own(input), f))
    else None
  }

  lemma MergedSecret(base: Bundle, overlay: Bundle, f: Field)
    ensures Secret(MergeConnectionSecretBundles(base, overlay), f) == Over(Secret(base, f), Secret(overlay, f))
  {
  }

  lemma ClearedSecret(bundle: Bundle, clears: Flags, f: Field)
    ensures Secret(ApplyConnectionSecretClears(bundle, clears), f) == Unless(Flag(clears, f), Secret(bundle, f))
  {
  }

  lemma SavedSecret<C>(e: Entry<C>, input: Input<C>, f: Field)
    requires !Broken(e)
    ensures Solid(Secret(SavedBundle(e, input), f)) == Otherwise(Says(input, f), Known(e, f))
  {
    if e.view.None? || !SaysHasSecrets(e.view.value.saved.flags) {
      ClearedSecret(Own(input), input.clears, f);
    } else {
      var base := LoadSecretBundle(e.view.value.saved, e.cell).bundle;
      ClearedSecret(MergeConnectionSecretBundles(base, Own(input)), input.clears, f);
      MergedSecret(base, Own(input), f);
    }
  }

  lemma SecretsOfBundle(bundle: Bundle)
    ensures HasAny(bundle) <==> exists f :: Solid(Secret(bundle, f)) != ""
  {
    if HasAny(bundle) {
      var f :=
        if Present(bundle.password) then Primary
        else if Present(bundle.sshPassword) then Ssh
        else if Present(bundle.proxyPassword) then Proxy
        else if Present(bundle.httpTunnelPassword) then HttpTunnel
        else if Present(bundle.mysqlReplicaPassword) then MysqlReplica
        else if Present(bundle.mongoReplicaPassword) then MongoReplica
        else if Present(bundle.redisSentinelPassword) then RedisSentinel
        else if Present(bundle.opaqueURI) then Uri
        else Dsn;
      assert Solid(Secret(bundle, f)) != "";
    }
  }

  /**
   A saved connection is the input's: with its secrets put back its configuration is the input's own, under the id it is
   found by, and without leave to save passwords.
   */
  lemma SavedIsTheInput<C>(e: Entry<C>, input: Input<C>)
    requires !Broken(e)
    ensures var view := SaveEntry(e, input).view.value;
            && view.saved.id == TrimSpace(input.id) && view.saved.secretRef == "" && view.shown == input.shown
            && ExtractConnectionSecretBundle(view.saved.config) == NO_SECRETS
            && var config := WithSecrets(view.saved.config, Own(input));
               config.id == TrimSpace(input.id) && !config.usage.savePassword
               && config.(id := input.config.id,
                          usage := config.usage.(savePassword := input.config.usage.savePassword))
                  == input.config
  {
    SplitIsLossless(input.config);
  }

  lemma ViewHasNothingInline<C>(input: Input<C>, bundle: Bundle)
    ensures !HasAny(Inline(ViewFor(input, bundle).saved))
  {
    SplitIsLossless(input.config);
  }

  /**
   After a save each secret is what the input says of it, or what it was; the flags tell which there are, and
   the entry is not broken.
   */
  lemma SaveDecidesSecrets<C>(e: Entry<C>, input: Input<C>, f: Field)
    requires !Broken(e)
    ensures !Broken(SaveEntry(e, input))
    ensures Known(SaveEntry(e, input), f) == Otherwise(Says(input, f), Known(e, f))
    ensures Flag(SaveEntry(e, input).view.value.saved.flags, f) <==> Known(SaveEntry(e, input), f) != ""
  {
    var bundle := SavedBundle(e, input);
    SavedSecret(e, input, f);
    SecretsOfBundle(bundle);
    FlagsTellSecrets(bundle);
    ViewHasNothingInline(input, bundle);
  }

  // Saving, as the program does it: in place.

  predicate IsFirstIndex<C>(connections: seq<View<C>>, id: string, index: nat) {
    index <= |connections| && (forall i :: 0 <= i < index ==> connections[i].saved.id != id)
    && (index < |connections| ==> connections[index].saved.id == id)
  }

  lemma {:induction false} FirstIndexIsFound<C>(connections: seq<View<C>>, id: string, index: nat)
    requires IsFirstIndex(connections, id, index)
    ensures ViewOf(connections, id) == if index < |connections| then Some(connections[index]) else None
  {
    if index > 0 {
      FirstIndexIsFound(connections[1..], id, index - 1);
    }
  }

  lemma {:induction false} PlacedAtFirstIndex<C>(connections: seq<View<C>>, view: View<C>, index: nat)
    requires IsFirstIndex(connections, view.saved.id, index)
    ensures Placed(connections, view)
         == if index < |connections| then connections[index := view] else connections + [view]
  {
    if index > 0 {
      PlacedAtFirstIndex(connections[1..], view, index - 1);
    }
  }

  class SavedConnectionRepository<C> {
    var connections: seq<View<C>>
    var secrets: DailyStore

    ghost function Contents(): Repository<C>
      reads this
    {
      Repository(connections, secrets)
    }

    constructor (r: Repository<C>)
      ensures Contents() == r
    {
      connections, secrets := r.connections, r.secrets;
    }

    /** The index of the first connection with this id, or the length of the list. */
    method IndexOf(id: string) returns (index: nat)
      ensures IsFirstIndex(connections, id, index)
    {
      index := 0;
      while index < |connections| && connections[index].saved.id != id
        invariant index <= |connections|
        invariant forall i :: 0 <= i < index ==> connections[i].saved.id != id
      {
        index := index + 1;
      }
    }

    method Save(given: Input<C>, newId: string) returns (ok: bool)
      modifies this
      ensures var saved := SaveInput(old(Contents()), Normalized(given, newId));
              ok == saved.Some? && Contents() == if ok then saved.value else old(Contents())
    {
      var input := Normalized(given, newId);
      var id := KeyOf(input);
      var index := IndexOf(id);
      FirstIndexIsFound(connections, id, index);
      var existing := if index < |connections| then Some(connections[index]) else None;
      var bundle := Own(input);
      if existing.Some? && SaysHasSecrets(existing.value.saved.flags) {
        match LoadSecretBundle(existing.value.saved, GetConnection(secrets, id)) {
          case Lost => return false;
          case Secrets(stored) => bundle := MergeConnectionSecretBundles(stored, bundle);
        }
      }
      bundle := ApplyConnectionSecretClears(bundle, input.clears);
      secrets := if HasAny(bundle) then PutConnection(secrets, id, bundle) else DeleteConnection(secrets, id);
      var view := ViewFor(input, bundle);
      PlacedAtFirstIndex(connections, view, index);
      connections := if index < |connections| then connections[index := view] else connections + [view];
      ok := true;
    }
  }
}
