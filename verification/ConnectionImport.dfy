/**
 Importing connections: only the last input for each id is saved. Saving merges secrets with those stored, so
 leaving out the earlier inputs may lose some of theirs; and a save that fails ends the import.
 */
module ConnectionImport {
  import opened Text
  import opened ConnectionConfigs
  import opened DailySecrets
  import opened ImportDedupe
  import opened DedupedSaves
  import opened SavedConnections

  // When two entries are the same to the application.

  ghost predicate SameSecrets(a: Bundle, b: Bundle) {
    forall f :: Solid(Secret(a, f)) == Solid(Secret(b, f))
  }

  /** The same list item and the same secrets, where a blank secret is none. */
  ghost predicate SameEntry<C>(a: Entry<C>, b: Entry<C>) {
    a.view == b.view && a.cell.Some? == b.cell.Some? && (a.cell.Some? ==> SameSecrets(a.cell.value, b.cell.value))
  }

  lemma SolidTells(secret: string)
    ensures Present(secret) <==> Solid(secret) != ""
  {
  }

  lemma SameSecretsSameFlags(a: Bundle, b: Bundle)
    requires SameSecrets(a, b)
    ensures FlagsOf(a) == FlagsOf(b) && HasAny(a) == HasAny(b)
  {
    forall f ensures Present(Secret(a, f)) == Present(Secret(b, f)) {
      SolidTells(Secret(a, f));
      SolidTells(Secret(b, f));
    }
    FlagsBySecrets(a, b);
    FlagsTellSecrets(a);
    FlagsTellSecrets(b);
  }

  lemma FlagsBySecrets(a: Bundle, b: Bundle)
    requires forall f :: Present(Secret(a, f)) == Present(Secret(b, f))
    ensures FlagsOf(a) == FlagsOf(b)
  {
    assert Present(Secret(a, Primary)) == Present(Secret(b, Primary));
    assert Present(Secret(a, Ssh)) == Present(Secret(b, Ssh));
    assert Present(Secret(a, Proxy)) == Present(Secret(b, Proxy));
    assert Present(Secret(a, HttpTunnel)) == Present(Secret(b, HttpTunnel));
    assert Present(Secret(a, MysqlReplica)) == Present(Secret(b, MysqlReplica));
    assert Present(Secret(a, MongoReplica)) == Present(Secret(b, MongoReplica));
    assert Present(Secret(a, RedisSentinel)) == Present(Secret(b, RedisSentinel));
    assert Present(Secret(a, Uri)) == Present(Secret(b, Uri));
    assert Present(Secret(a, Dsn)) == Present(Secret(b, Dsn));
  }

  /** What the application finds after a save is what the save stored. */
  lemma KnownIsSaved<C>(e: Entry<C>, input: Input<C>, f: Field)
    requires !Broken(e)
    ensures Known(SaveEntry(e, input), f) == Solid(Secret(SavedBundle(e, input), f))
  {
    SaveDecidesSecrets(e, input, f);
    SavedSecret(e, input, f);
  }

  lemma SavedEntriesAgreeExactly<C>(a: Entry<C>, b: Entry<C>, input: Input<C>)
    requires !Broken(a) && !Broken(b)
    ensures SameEntry(SaveEntry(a, input), SaveEntry(b, input))
            <==> forall f :: Known(SaveEntry(a, input), f) == Known(SaveEntry(b, input), f)
  {
    var (x, y) := (SavedBundle(a, input), SavedBundle(b, input));
    forall f
      ensures Known(SaveEntry(a, input), f) == Solid(Secret(x, f))
      ensures Known(SaveEntry(b, input), f) == Solid(Secret(y, f))
    {
      KnownIsSaved(a, input, f);
      KnownIsSaved(b, input, f);
    }
    if SameSecrets(x, y) {
      SameSecretsSameFlags(x, y);
    } else if !HasAny(x) && !HasAny(y) {
      SecretsOfBundle(x);
      SecretsOfBundle(y);
    }
  }

  // Saved connections are such a store.

  function Applied<C>(e: Entry<C>, input: Input<C>): Entry<C> {
    if Broken(e) then e else SaveEntry(e, input)
  }

  ghost function Saves<C>(): Saving<Repository<C>, Input<C>, Entry<C>, Field> {
    Saving(KeyOf, SaveInput, EntryOf, Applied, Broken, Known, Says, SameEntry)
  }

  lemma SavesOneConnection<C(!new)>()
    ensures SavesOneEntry(Saves<C>())
  {
    forall r: Repository<C>, input: Input<C>
      ensures SaveInput(r, input).Some? <==> !Broken(EntryOf(r, KeyOf(input)))
    {
      SaveIsLocal(r, input, "");
    }
    forall r: Repository<C>, input: Input<C>, id: string | SaveInput(r, input).Some?
      ensures EntryOf(SaveInput(r, input).value, id)
           == if id == KeyOf(input) then Applied(EntryOf(r, id), input) else EntryOf(r, id)
    {
      SaveIsLocal(r, input, id);
    }
  }

  lemma DecidesSecrets<C(!new)>()
    ensures DecidesFields(Saves<C>())
  {
    forall e: Entry<C>, input: Input<C> | !Broken(e) ensures !Broken(Applied(e, input)) {
      SaveDecidesSecrets(e, input, Primary);
    }
    forall e: Entry<C>, input: Input<C>, f: Field | !Broken(e)
      ensures Known(Applied(e, input), f) == Otherwise(Says(input, f), Known(e, f))
    {
      SaveDecidesSecrets(e, input, f);
    }
  }

  lemma SameBySecrets<C(!new)>()
    ensures SameByFields(Saves<C>())
  {
    forall a: Entry<C>, b: Entry<C>, input: Input<C> | !Broken(a) && !Broken(b)
      ensures SameEntry(Applied(a, input), Applied(b, input))
              <==> forall f :: Known(Applied(a, input), f) == Known(Applied(b, input), f)
    {
      SavedEntriesAgreeExactly(a, b, input);
    }
  }

  lemma SavesAreLawful<C(!new)>()
    ensures Lawful(Saves<C>())
  {
    SavesOneConnection<C>();
    DecidesSecrets<C>();
    SameBySecrets<C>();
  }

  /**
   Saving only the last input for each id goes through exactly when saving them all in order does, and it leaves
   the same connections with the same secrets if and only if there is no secret that the last input for an id
   does not mention while an earlier one changes it.
   */
  lemma ImportIsLosslessExactly<C(!new)>(r: Repository<C>, inputs: seq<Input<C>>)
    requires AllKeyed(inputs, KeyOf)
    ensures var (s, kept) := (Saves<C>(), Deduped(inputs, KeyOf));
            && SaveAll(r, kept, s).ok == SaveAll(r, inputs, s).ok
            && (SaveAll(r, inputs, s).ok ==>
                  (SameStore(SaveAll(r, kept, s).store, SaveAll(r, inputs, s).store, s)
                   <==> forall id, f :: NothingOnlyEarlier(EntryOf(r, id), inputs, s, id, f)))
  {
    SavesAreLawful<C>();
    DedupeIsLosslessExactly(r, inputs, Saves<C>());
  }

  // Packages and legacy lists: an input clears every secret that it does not bring.

  function Missing(bundle: Bundle): Flags {
    Flags(
      !Present(bundle.password), !Present(bundle.sshPassword), !Present(bundle.proxyPassword),
      !Present(bundle.httpTunnelPassword), !Present(bundle.mysqlReplicaPassword),
      !Present(bundle.mongoReplicaPassword), !Present(bundle.redisSentinelPassword), !Present(bundle.opaqueURI),
      !Present(bundle.opaqueDSN))
  }

  function ClearingMissing<C>(input: Input<C>): Input<C> {
    input.(clears := Missing(Own(input)))
  }

  lemma ClearingSaysAll<C>(input: Input<C>, f: Field)
    ensures Says(ClearingMissing(input), f).Some?
  {
  }

  ghost predicate AllClearMissing<C>(inputs: seq<Input<C>>) {
    forall i :: 0 <= i < |inputs| ==> inputs[i] == ClearingMissing(inputs[i])
  }

  lemma NothingIsOnlyEarlier<C>(e: Entry<C>, inputs: seq<Input<C>>, id: string, f: Field)
    requires AllClearMissing(inputs)
    ensures NothingOnlyEarlier(e, inputs, Saves<C>(), id, f)
  {
    if LastWith(inputs, KeyOf, |inputs|, id).Some? {
      var p := FindLastIndex(inputs, KeyOf, |inputs|, id);
      ClearingSaysAll(inputs[p], f);
    }
  }

  /** For inputs that clear what they do not bring, deduping loses nothing. */
  lemma PackagesAreLossless<C(!new)>(r: Repository<C>, inputs: seq<Input<C>>)
    requires AllKeyed(inputs, KeyOf) && AllClearMissing(inputs)
    ensures var (s, kept) := (Saves<C>(), Deduped(inputs, KeyOf));
            && SaveAll(r, kept, s).ok == SaveAll(r, inputs, s).ok
            && (SaveAll(r, inputs, s).ok ==> SameStore(SaveAll(r, kept, s).store, SaveAll(r, inputs, s).store, s))
  {
    forall id: string, f: Field ensures NothingOnlyEarlier(EntryOf(r, id), inputs, Saves<C>(), id, f) {
      NothingIsOnlyEarlier(EntryOf(r, id), inputs, id, f);
    }
    ImportIsLosslessExactly(r, inputs);
  }

  lemma NoFlagNoSecret(f: Field)
    ensures !Flag(NO_FLAGS, f) && Secret(NO_SECRETS, f) == ""
  {
  }

  /** Inputs of which no two have the same id are all imported, whatever they say of secrets. */
  lemma DistinctInputsAreAllSaved<C(!new)>(r: Repository<C>, inputs: seq<Input<C>>)
    requires DistinctKeys(inputs, KeyOf)
    ensures SaveAll(r, Deduped(inputs, KeyOf), Saves<C>()) == SaveAll(r, inputs, Saves<C>())
  {
    KeptWholeExactly(inputs, KeyOf);
  }

  /** An input that neither brings nor clears secrets makes the import lose those that an earlier one brings. */
  lemma EarlierSecretIsLost<C(!new)>(first: Input<C>, last: Input<C>, f: Field)
    requires KeyOf(first) == KeyOf(last) != "" && last.clears == NO_FLAGS && Own(last) == NO_SECRETS
    requires !Flag(first.clears, f) && Present(Secret(Own(first), f))
    ensures var (r, s, inputs) := (Repository([], map[]), Saves<C>(), [first, last]);
            && Known(EntryOf(SaveAll(r, inputs, s).store, KeyOf(last)), f) == Secret(Own(first), f) != ""
            && Known(EntryOf(SaveAll(r, Deduped(inputs, KeyOf), s).store, KeyOf(last)), f) == ""
  {
    var r: Repository<C> := Repository([], map[]);
    SavesAreLawful<C>();
    NoFlagNoSecret(f);
    assert EntryOf(r, KeyOf(last)) == Entry(None, None);
    EarlierIsMissed(r, first, last, Saves<C>(), f);
  }

  // The import, and what is undone when it fails.

  /**
   A failed import puts the list file back, and the old system store. The daily store, where the saves before the
   failing one have written, stays as they left it.
   */
  ghost function Imported<C>(r: Repository<C>, inputs: seq<Input<C>>): Repository<C> {
    var saved := SaveAll(r, Deduped(inputs, KeyOf), Saves<C>());
    if saved.ok then saved.store else r.(secrets := saved.store.secrets)
  }

  function NormalizedAll<C>(inputs: seq<Input<C>>, newIds: nat -> string): (all: seq<Input<C>>)
    ensures |all| == |inputs|
  {
    seq(|inputs|, i requires 0 <= i < |inputs| => Normalized(inputs[i], newIds(i)))
  }

  lemma NormalizedTwice<C>(input: Input<C>, newId: string, other: string)
    requires TrimSpace(newId) != ""
    ensures Normalized(Normalized(input, newId), other) == Normalized(input, newId)
  {
    NormalizedHasKey(input, newId);
  }

  lemma NormalizedKept<C>(inputs: seq<Input<C>>, newIds: nat -> string, i: nat)
    requires forall k: nat :: TrimSpace(newIds(k)) != ""
    requires i < |Deduped(NormalizedAll(inputs, newIds), KeyOf)|
    ensures var x := Deduped(NormalizedAll(inputs, newIds), KeyOf)[i]; Normalized(x, "") == x
  {
    var all := NormalizedAll(inputs, newIds);
    var x := Deduped(all, KeyOf)[i];
    KeptAreInputs(all, KeyOf, |all|, x);
    var j :| 0 <= j < |all| && all[j] == x && IsKept(all, KeyOf, j);
    NormalizedTwice(inputs[j], newIds(j), "");
  }

  lemma NextSave<C>(r: Repository<C>, kept: seq<Input<C>>, i: nat)
    requires i < |kept| && SaveFirst(r, kept, Saves<C>(), i).ok
    ensures var before := SaveFirst(r, kept, Saves<C>(), i).store;
            var saved := SaveInput(before, kept[i]);
            SaveFirst(r, kept, Saves<C>(), i + 1)
            == Progress(if saved.Some? then saved.value else before, saved.Some?)
  {
  }

  method SaveEach<C>(repo: SavedConnectionRepository<C>, kept: seq<Input<C>>) returns (ok: bool)
    requires forall i :: 0 <= i < |kept| ==> Normalized(kept[i], "") == kept[i]
    modifies repo
    ensures SaveAll(old(repo.Contents()), kept, Saves<C>()) == Progress(repo.Contents(), ok)
  {
    ok := true;
    ghost var (r, s) := (repo.Contents(), Saves<C>());
    for i := 0 to |kept|
      invariant SaveFirst(r, kept, s, i) == Progress(repo.Contents(), true)
    {
      NextSave(r, kept, i);
      ok := repo.Save(kept[i], "");
      if !ok {
        StoppedEarly(r, kept, s, i + 1, |kept|);
        return;
      }
    }
    ok := true;
  }

  method ImportSavedConnectionsAtomically<C(!new)>(
      repo: SavedConnectionRepository<C>, inputs: seq<Input<C>>, newIds: nat -> string) returns (ok: bool)
    requires forall k: nat :: TrimSpace(newIds(k)) != ""
    modifies repo
    ensures ok <==> SaveAll(old(repo.Contents()), Deduped(NormalizedAll(inputs, newIds), KeyOf), Saves<C>()).ok
    ensures repo.Contents() == Imported(old(repo.Contents()), NormalizedAll(inputs, newIds))
  {
    var normalized := NormalizedAll(inputs, newIds);
    var kept := DedupeImportedSavedConnectionInputs(normalized, KeyOf);
    forall i | 0 <= i < |kept| ensures Normalized(kept[i], "") == kept[i] {
      NormalizedKept(inputs, newIds, i);
    }
    var snapshot := repo.connections;
    ok := SaveEach(repo, kept);
    if !ok {
      repo.connections := snapshot;
    }
  }

  lemma {:induction false} StoppedEarly<R, I, E, F>(r: R, inputs: seq<I>, s: Saving<R, I, E, F>, m: nat, n: nat)
    requires m <= n <= |inputs| && !SaveFirst(r, inputs, s, m).ok
    ensures SaveFirst(r, inputs, s, n) == SaveFirst(r, inputs, s, m)
  {
    if m < n {
      StoppedEarly(r, inputs, s, m, n - 1);
    }
  }

  function StoredOf<C>(e: Entry<C>): Option<Bundle> {
    e.cell
  }

  lemma SameCells<C>(a: Repository<C>, b: Repository<C>)
    requires SameParts(a, b, Saves<C>(), StoredOf)
    ensures a.secrets == b.secrets
  {
    forall id: string ensures CellOf(a.secrets, id) == CellOf(b.secrets, id) {
      assert StoredOf(EntryOf(a, id)) == StoredOf(EntryOf(b, id));
    }
    forall id ensures id in a.secrets <==> id in b.secrets {
      assert CellOf(a.secrets, id) == CellOf(b.secrets, id);
    }
    forall id | id in a.secrets ensures a.secrets[id] == b.secrets[id] {
      assert CellOf(a.secrets, id) == CellOf(b.secrets, id);
    }
  }

  // When a save leaves the stored secrets alone, by what the input says and what is stored.

  predicate ListedWithSecrets<C>(e: Entry<C>) {
    e.view.Some? && SaysHasSecrets(e.view.value.saved.flags)
  }

  /** A bundle with some secret that has, in every field, what the input says, or else what `base` has. */
  ghost predicate IsOutcome<C>(c: Bundle, input: Input<C>, base: Bundle) {
    HasAny(c) && forall f :: Secret(c, f) == Otherwise(Says(input, f), Secret(base, f))
  }

  /** The input clears every secret in `base` and brings none. */
  ghost predicate LeavesNone<C>(input: Input<C>, base: Bundle) {
    forall f :: !Present(Otherwise(Says(input, f), Secret(base, f)))
  }

  /**
   The input leaves what is stored. For a connection listed with secrets, none of them in the list item itself, that
   means: whatever the input says of a secret is what is stored of it. For a connection with secrets in its list item,
   these with the input's changes are already what is stored; or nothing is, and the input clears them all. For one that
   is not listed, or listed without secrets, the input's own secrets are what is stored; or nothing is, and it has none.
   */
  ghost predicate LeavesStored<C>(e: Entry<C>, input: Input<C>) {
    if ListedWithSecrets(e) && !HasAny(Inline(e.view.value.saved)) then
      e.cell.Some? && HasAny(e.cell.value)
      && forall f :: Says(input, f).Some? ==> Says(input, f).value == Secret(e.cell.value, f)
    else
      var base := if ListedWithSecrets(e) then Inline(e.view.value.saved) else Own(input);
      match e.cell
      case Some(c) => IsOutcome(c, input, base)
      case None => LeavesNone(input, base)
  }

  /** What a save stores of a secret on which the input says nothing. */
  function Base<C>(e: Entry<C>, input: Input<C>): Bundle
    requires !Broken(e)
  {
    if ListedWithSecrets(e) then LoadSecretBundle(e.view.value.saved, e.cell).bundle else Own(input)
  }

  lemma SavedField<C>(e: Entry<C>, input: Input<C>, f: Field)
    requires !Broken(e)
    ensures Secret(SavedBundle(e, input), f) == Otherwise(Says(input, f), Secret(Base(e, input), f))
  {
    var base := Base(e, input);
    if ListedWithSecrets(e) {
      ClearedSecret(MergeConnectionSecretBundles(base, Own(input)), input.clears, f);
      MergedSecret(base, Own(input), f);
    } else {
      ClearedSecret(Own(input), input.clears, f);
    }
  }

  lemma SameFields(a: Bundle, b: Bundle)
    requires forall f :: Secret(a, f) == Secret(b, f)
    ensures a == b
  {
    assert Secret(a, Primary) == Secret(b, Primary) && Secret(a, Ssh) == Secret(b, Ssh);
    assert Secret(a, Proxy) == Secret(b, Proxy) && Secret(a, HttpTunnel) == Secret(b, HttpTunnel);
    assert Secret(a, MysqlReplica) == Secret(b, MysqlReplica);
    assert Secret(a, MongoReplica) == Secret(b, MongoReplica);
    assert Secret(a, RedisSentinel) == Secret(b, RedisSentinel);
    assert Secret(a, Uri) == Secret(b, Uri) && Secret(a, Dsn) == Secret(b, Dsn);
  }

  lemma OutcomeIsSaved<C>(e: Entry<C>, input: Input<C>, c: Bundle)
    requires !Broken(e)
    ensures IsOutcome(c, input, Base(e, input)) <==> HasAny(c) && c == SavedBundle(e, input)
  {
    var saved := SavedBundle(e, input);
    forall f ensures Secret(saved, f) == Otherwise(Says(input, f), Secret(Base(e, input), f)) {
      SavedField(e, input, f);
    }
    if IsOutcome(c, input, Base(e, input)) {
      SameFields(c, saved);
    }
  }

  lemma NoneIsSaved<C>(e: Entry<C>, input: Input<C>)
    requires !Broken(e)
    ensures LeavesNone(input, Base(e, input)) <==> !HasAny(SavedBundle(e, input))
  {
    var saved := SavedBundle(e, input);
    forall f
      ensures Secret(saved, f) == Otherwise(Says(input, f), Secret(Base(e, input), f))
      ensures Present(Secret(saved, f)) <==> Solid(Secret(saved, f)) != ""
    {
      SavedField(e, input, f);
      SolidTells(Secret(saved, f));
    }
    SecretsOfBundle(saved);
  }

  /** In the ordinary case only what the input says has to be compared. */
  lemma OnlySaidCounts<C>(c: Bundle, input: Input<C>)
    ensures IsOutcome(c, input, c)
       <==> HasAny(c) && forall f :: Says(input, f).Some? ==> Says(input, f).value == Secret(c, f)
  {
    forall f ensures Secret(c, f) == Otherwise(Says(input, f), Secret(c, f))
                <==> (Says(input, f).Some? ==> Says(input, f).value == Secret(c, f)) {
    }
  }

  lemma LeavesStoredExactly<C>(e: Entry<C>, input: Input<C>)
    requires !Broken(e)
    ensures LeavesStored(e, input) <==> SaveEntry(e, input).cell == e.cell
  {
    NoneIsSaved(e, input);
    if e.cell.Some? {
      OutcomeIsSaved(e, input, e.cell.value);
      OnlySaidCounts(e.cell.value, input);
    }
  }

  /**
   A failed import is undone if and only if every input before the first one whose connection is broken leaves what
   is stored for its own connection: the secrets that the others change are not put back.
   */
  lemma FailedImportIsUndoneExactly<C(!new)>(r: Repository<C>, inputs: seq<Input<C>>)
    requires AllKeyed(inputs, KeyOf) && !SaveAll(r, Deduped(inputs, KeyOf), Saves<C>()).ok
    ensures var kept := Deduped(inputs, KeyOf);
            Imported(r, inputs) == r
            <==> forall i :: 0 <= i < |kept| && IsSavedBeforeStop(r, kept, Saves<C>(), i) ==>
                   LeavesStored(EntryOf(r, KeyOf(kept[i])), kept[i])
  {
    var (kept, s) := (Deduped(inputs, KeyOf), Saves<C>());
    SavesAreLawful<C>();
    KeptKeysAreDistinct(inputs, KeyOf, |inputs|);
    forall i | 0 <= i < |kept| ensures KeyOf(kept[i]) != "" {
      KeptAreInputs(inputs, KeyOf, |inputs|, kept[i]);
    }
    StoppedSavesLeaveExactly(r, kept, s, StoredOf);
    if SameParts(SaveAll(r, kept, s).store, r, s, StoredOf) {
      SameCells(SaveAll(r, kept, s).store, r);
    }
    forall i | 0 <= i < |kept| && IsSavedBeforeStop(r, kept, s, i)
      ensures LeavesPart(r, kept[i], s, StoredOf) <==> LeavesStored(EntryOf(r, KeyOf(kept[i])), kept[i])
    {
      SavedLeavesExactly(r, kept, i);
    }
  }

  lemma SavedLeavesExactly<C>(r: Repository<C>, kept: seq<Input<C>>, i: nat)
    requires i < |kept| && IsSavedBeforeStop(r, kept, Saves<C>(), i)
    ensures LeavesPart(r, kept[i], Saves<C>(), StoredOf) <==> LeavesStored(EntryOf(r, KeyOf(kept[i])), kept[i])
  {
    assert !Broken(EntryOf(r, KeyOf(kept[i])));
    LeavesStoredExactly(EntryOf(r, KeyOf(kept[i])), kept[i]);
  }

  lemma ClearingAllStoresNothing<C>(e: Entry<C>, input: Input<C>)
    requires !Broken(e) && input == ClearingMissing(input) && Own(input) == NO_SECRETS
    ensures SaveEntry(e, input).cell == None
  {
    var bundle := SavedBundle(e, input);
    forall f ensures Solid(Secret(bundle, f)) == "" {
      ClearingSaysAll(input, f);
      SavedSecret(e, input, f);
      NoFlagNoSecret(f);
    }
    SecretsOfBundle(bundle);
  }

  /** What an import of two inputs does when it fails at the second. */
  lemma FailingAtSecond<C(!new)>(r: Repository<C>, first: Input<C>, failing: Input<C>)
    requires KeyOf(first) != "" && KeyOf(failing) != "" && KeyOf(first) != KeyOf(failing)
    requires !Broken(EntryOf(r, KeyOf(first))) && Broken(EntryOf(r, KeyOf(failing)))
    ensures !SaveAll(r, Deduped([first, failing], KeyOf), Saves<C>()).ok
    ensures EntryOf(Imported(r, [first, failing]), KeyOf(first))
         == EntryOf(r, KeyOf(first)).(cell := SaveEntry(EntryOf(r, KeyOf(first)), first).cell)
  {
    SavesAreLawful<C>();
    StopsAtSecond(r, first, failing, Saves<C>());
  }

  /**
   Such an import loses secrets: the first input takes away what is stored for a connection, the second fails, and
   the list that is put back still says that the first connection has secrets.
   */
  lemma FailedImportLosesSecrets<C(!new)>(r: Repository<C>, first: Input<C>, failing: Input<C>)
    requires KeyOf(first) != "" && KeyOf(failing) != "" && KeyOf(first) != KeyOf(failing)
    requires first == ClearingMissing(first) && Own(first) == NO_SECRETS
    requires var e := EntryOf(r, KeyOf(first));
             !Broken(e) && e.view.Some? && SaysHasSecrets(e.view.value.saved.flags)
             && !HasAny(Inline(e.view.value.saved))
    requires Broken(EntryOf(r, KeyOf(failing)))
    ensures Broken(EntryOf(Imported(r, [first, failing]), KeyOf(first)))
  {
    FailingAtSecond(r, first, failing);
    ClearingAllStoresNothing(EntryOf(r, KeyOf(first)), first);
  }
}
