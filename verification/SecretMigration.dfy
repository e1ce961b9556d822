/**
 Moving connection secrets to the daily store. The store is written item by item and the items file only
 at the end, so a run may be cut short with the two out of step; running again must repair that.
 */
module SecretMigration {
  import opened Text
  import opened ConnectionConfigs
  import opened DailySecrets
  import opened RestartableLoop

  datatype LegacyConnection = LegacyConnection(id: string, config: ConnectionConfig)

  /** What the old system store answers for a reference. `Absent` is also the answer of an unavailable store. */
  datatype OldSecret = Readable(bundle: Bundle) | Absent | Broken

  /** The sources that the migration only reads. */
  datatype Sources = Sources(legacy: seq<LegacyConnection>, readOldStore: bool, oldStore: string -> OldSecret)

  datatype Resolution = Found(bundle: Bundle) | NotFound | Unreadable

  function FindLegacyConnectionSecretBundle(items: seq<LegacyConnection>, id: string): Bundle {
    var targetID := TrimSpace(id);
    if targetID == "" || items == [] then NO_SECRETS
    else if TrimSpace(items[0].id) == targetID then ExtractConnectionSecretBundle(items[0].config)
    else FindLegacyConnectionSecretBundle(items[1..], id)
  }

  /** The first legacy entry with the id, white space around it aside. */
  ghost predicate IsLegacyEntry(items: seq<LegacyConnection>, id: string, i: nat) {
    i < |items| && TrimSpace(id) != "" && TrimSpace(items[i].id) == TrimSpace(id)
    && forall k :: 0 <= k < i ==> TrimSpace(items[k].id) != TrimSpace(id)
  }

  /** The secrets of that entry, and none without one. */
  ghost function LegacySecrets(items: seq<LegacyConnection>, id: string): Bundle {
    if exists i: nat :: IsLegacyEntry(items, id, i) then
      var i: nat :| IsLegacyEntry(items, id, i);
      ExtractConnectionSecretBundle(items[i].config)
    else NO_SECRETS
  }

  lemma LegacyEntryIsOne(items: seq<LegacyConnection>, id: string, i: nat, j: nat)
    requires IsLegacyEntry(items, id, i) && IsLegacyEntry(items, id, j)
    ensures i == j
  {
  }

  lemma {:induction false} LegacyLookupFrom(items: seq<LegacyConnection>, id: string, n: nat)
    requires n <= |items| && TrimSpace(id) != "" && forall k :: 0 <= k < n ==> TrimSpace(items[k].id) != TrimSpace(id)
    ensures FindLegacyConnectionSecretBundle(items[n..], id) == LegacySecrets(items, id)
    decreases |items| - n
  {
    if n < |items| && TrimSpace(items[n].id) == TrimSpace(id) {
      assert IsLegacyEntry(items, id, n);
      forall i: nat | IsLegacyEntry(items, id, i) ensures i == n {
        LegacyEntryIsOne(items, id, i, n);
      }
    } else if n < |items| {
      LegacyLookupFrom(items, id, n + 1);
      assert items[n..][1..] == items[n + 1..];
    }
  }

  /** The lookup gives the secrets of the first legacy entry with the item's id, and none for a blank id. */
  lemma LegacyLookup(items: seq<LegacyConnection>, id: string)
    ensures FindLegacyConnectionSecretBundle(items, id) == LegacySecrets(items, id)
  {
    if TrimSpace(id) != "" {
      LegacyLookupFrom(items, id, 0);
      assert items[0..] == items;
    }
  }

  /** Where a secret comes from when neither the item nor the daily store has it. */
  function Fallback(item: SavedConnection, src: Sources): Resolution {
    var legacy := FindLegacyConnectionSecretBundle(src.legacy, item.id);
    if HasAny(legacy) then Found(legacy)
    else if !src.readOldStore || TrimSpace(item.secretRef) == "" then NotFound
    else match src.oldStore(TrimSpace(item.secretRef))
      case Readable(bundle) => Found(bundle)
      case Absent => NotFound
      case Broken => Unreadable
  }

  function ResolveMigrationConnectionBundle(item: SavedConnection, stored: Option<Bundle>, src: Sources): Resolution {
    if HasAny(Inline(item)) then Found(Inline(item))
    else match stored
      case Some(bundle) => Found(bundle)
      case None => Fallback(item, src)
  }

  function Cleaned(item: SavedConnection, bundle: Bundle): SavedConnection {
    item.(config := StripConnectionSecretFields(item.config), secretRef := "", flags := FlagsOf(bundle))
  }

  /** The item has a trace of a secret in its flags or its reference. */
  predicate MentionsSecret(item: SavedConnection) {
    SaysHasSecrets(item.flags) || TrimSpace(item.secretRef) != ""
  }

  function WithoutSecret(item: SavedConnection, stored: Option<Bundle>): Decision<SavedConnection, Bundle> {
    if !HasAny(Inline(item)) && !MentionsSecret(item) then Go(item, stored) else Go(Cleaned(item, NO_SECRETS), None)
  }

  /** What the migration does with one item, given what the daily store has under its id. */
  function Decide(item: SavedConnection, stored: Option<Bundle>, src: Sources): Decision<SavedConnection, Bundle> {
    match ResolveMigrationConnectionBundle(item, stored, src)
    case Unreadable => Stop
    case NotFound => WithoutSecret(item, stored)
    case Found(bundle) =>
      if HasAny(bundle) then Go(Cleaned(item, bundle), Some(bundle)) else WithoutSecret(item, stored)
  }

  function MigrationLoop(src: Sources): Loop<SavedConnection, Bundle> {
    Loop((item: SavedConnection) => TrimSpace(item.id),
         (item: SavedConnection, stored: Option<Bundle>) => Decide(item, stored, src))
  }

  datatype State = State(items: seq<SavedConnection>, store: DailyStore)

  /** An uninterrupted run: the items file is rewritten only when the loop has gone through. */
  function Migrate(s: State, src: Sources): (State, bool) {
    var pass := Process(s.items, s.store, MigrationLoop(src));
    (State(if pass.complete then pass.items else s.items, pass.store), pass.complete)
  }

  /** A run cut short after `n` items: the store is ahead of the items file. */
  function Interrupted(s: State, src: Sources, n: nat): State
    requires n <= |s.items|
  {
    s.(store := CutShort(s.items, s.store, MigrationLoop(src), n))
  }

  ghost predicate DistinctIds(items: seq<SavedConnection>) {
    forall i, j :: 0 <= i < j < |items| ==> TrimSpace(items[i].id) != TrimSpace(items[j].id)
  }

  /** What the old system store answers for the item, if it is asked at all. */
  ghost function OldAnswer(item: SavedConnection, src: Sources): OldSecret {
    if src.readOldStore && TrimSpace(item.secretRef) != "" then src.oldStore(TrimSpace(item.secretRef)) else Absent
  }

  /** Neither the item nor the daily store has anything, and a source behind them has a secret, or cannot be read. */
  ghost predicate HasOtherSource(item: SavedConnection, src: Sources) {
    var answer := OldAnswer(item, src);
    HasAny(LegacySecrets(src.legacy, item.id)) || answer.Broken? || (answer.Readable? && HasAny(answer.bundle))
  }

  /**
   An empty bundle in the daily store hides the item's other sources: the first run believes the
   empty bundle and deletes it, a second one looks behind it.
   */
  ghost predicate Hidden(item: SavedConnection, stored: Option<Bundle>, src: Sources) {
    !HasAny(Inline(item)) && MentionsSecret(item) && stored.Some? && !HasAny(stored.value)
    && HasOtherSource(item, src)
  }

  /** Behind the item and the daily store there are the legacy entry, and then the old system store. */
  lemma FallbackMeans(item: SavedConnection, src: Sources)
    ensures var (fallback, legacy, answer) :=
              (Fallback(item, src), LegacySecrets(src.legacy, item.id), OldAnswer(item, src));
            if HasAny(legacy) then fallback == Found(legacy)
            else match answer
              case Readable(bundle) => fallback == Found(bundle)
              case Absent => fallback == NotFound
              case Broken => fallback == Unreadable
  {
    LegacyLookup(src.legacy, item.id);
  }

  ghost predicate NothingHiddenBefore(s: State, src: Sources, n: nat) {
    forall i :: 0 <= i < n && i < |s.items| ==> !Hidden(s.items[i], GetConnection(s.store, s.items[i].id), src)
  }

  /** How many items a migration goes through: all of them, or those before the first unreadable source. */
  function ItemsReached(s: State, src: Sources): nat {
    Reached(s.items, s.store, MigrationLoop(src))
  }

  /** The item's secret is in the old system store alone, and cannot be read there. */
  ghost predicate IsUnreadable(item: SavedConnection, store: DailyStore, src: Sources) {
    !HasAny(Inline(item)) && TrimSpace(item.id) !in store && !HasAny(LegacySecrets(src.legacy, item.id))
    && OldAnswer(item, src).Broken?
  }

  ghost predicate IsReadable(item: SavedConnection, store: DailyStore, src: Sources) {
    !IsUnreadable(item, store, src)
  }

  /** How many items come before the first one whose source cannot be read, as things stand before the migration. */
  ghost function ReadableItems(s: State, src: Sources): nat {
    Leading(s.items, (item: SavedConnection) => IsReadable(item, s.store, src))
  }

  /** Nothing is hidden from an item before the first one whose source cannot be read. */
  ghost predicate NothingHidden(s: State, src: Sources) {
    NothingHiddenBefore(s, src, ReadableItems(s, src))
  }

  lemma StopsWhenUnreadable(item: SavedConnection, store: DailyStore, src: Sources)
    ensures DecideIn(item, store, MigrationLoop(src)).Stop? <==> !IsReadable(item, store, src)
  {
    FallbackMeans(item, src);
  }

  /** A migration goes through exactly the items before the first one whose source cannot be read. */
  lemma ReachesReadableItems(s: State, src: Sources)
    requires DistinctIds(s.items)
    ensures ItemsReached(s, src) == ReadableItems(s, src)
    ensures Migrate(s, src).1 <==> forall i :: 0 <= i < |s.items| ==> IsReadable(s.items[i], s.store, src)
  {
    var (loop, n) := (MigrationLoop(src), ReadableItems(s, src));
    DistinctIdsAreKeys(s.items, src);
    ReachedIsFirstStop(s.items, s.store, loop);
    forall i | 0 <= i < |s.items|
      ensures DecideIn(s.items[i], s.store, loop).Stop? <==> !IsReadable(s.items[i], s.store, src)
    {
      StopsWhenUnreadable(s.items[i], s.store, src);
    }
  }

  lemma NothingHiddenAtAll(s: State, src: Sources)
    requires DistinctIds(s.items) && NothingHidden(s, src) && Migrate(s, src).1
    ensures NothingHiddenBefore(s, src, |s.items|)
  {
    ReachesReadableItems(s, src);
  }

  lemma NoEmptyBundlesHideNothing(s: State, src: Sources)
    requires NoEmptyBundles(s.store)
    ensures NothingHiddenBefore(s, src, |s.items|) && NothingHidden(s, src)
  {
  }

  lemma FoundSettles(item: SavedConnection, stored: Option<Bundle>, src: Sources)
    requires var found := ResolveMigrationConnectionBundle(item, stored, src); found.Found? && HasAny(found.bundle)
    ensures Decide(item, stored, src).Go?
    ensures Decide(item, Decide(item, stored, src).cell, src) == Decide(item, stored, src)
    ensures !Hidden(item, stored, src)
  {
    var bundle := ResolveMigrationConnectionBundle(item, stored, src).bundle;
    assert ResolveMigrationConnectionBundle(item, Some(bundle), src) == Found(bundle);
  }

  lemma WithoutSettles(item: SavedConnection, stored: Option<Bundle>, src: Sources)
    requires var found := ResolveMigrationConnectionBundle(item, stored, src);
             found.NotFound? || (found.Found? && !HasAny(found.bundle))
    requires !Hidden(item, stored, src)
    ensures Decide(item, stored, src) == WithoutSecret(item, stored)
    ensures Decide(item, Decide(item, stored, src).cell, src) == Decide(item, stored, src)
  {
    FallbackMeans(item, src);
    assert !HasAny(Inline(item));
  }

  /** A hidden item comes out differently the second time, if it comes out at all. */
  lemma HiddenReappears(item: SavedConnection, stored: Option<Bundle>, src: Sources)
    requires Hidden(item, stored, src)
    ensures Decide(item, stored, src) == Go(Cleaned(item, NO_SECRETS), None)
    ensures Decide(item, None, src) != Go(Cleaned(item, NO_SECRETS), None)
  {
    FallbackMeans(item, src);
    var fallback := Fallback(item, src);
    assert ResolveMigrationConnectionBundle(item, None, src) == fallback;
    if fallback.Found? {
      FlagsTellSecrets(fallback.bundle);
      FlagsTellSecrets(NO_SECRETS);
      assert Cleaned(item, fallback.bundle).flags != Cleaned(item, NO_SECRETS).flags;
    }
  }

  /** Migrating an item settles it exactly when nothing was hidden from it. */
  lemma SettlingUnlessHidden(item: SavedConnection, stored: Option<Bundle>, src: Sources)
    ensures Settling(item, stored, MigrationLoop(src)) <==> !Hidden(item, stored, src)
  {
    var found := ResolveMigrationConnectionBundle(item, stored, src);
    if found.Found? && HasAny(found.bundle) {
      FoundSettles(item, stored, src);
    } else if Hidden(item, stored, src) {
      HiddenReappears(item, stored, src);
    } else if !found.Unreadable? {
      WithoutSettles(item, stored, src);
    }
  }

  lemma SettlingUnlessHiddenBefore(s: State, src: Sources, n: nat)
    requires n <= |s.items|
    ensures AllSettling(s.items[..n], s.store, MigrationLoop(src)) <==> NothingHiddenBefore(s, src, n)
  {
    var loop := MigrationLoop(src);
    forall i | 0 <= i < n
      ensures Settling(s.items[..n][i], Cell(s.store, loop.keyOf(s.items[..n][i])), loop)
              <==> !Hidden(s.items[i], GetConnection(s.store, s.items[i].id), src)
    {
      SettlingUnlessHidden(s.items[i], GetConnection(s.store, s.items[i].id), src);
    }
  }

  lemma ReachedSettlesUnlessHidden(s: State, src: Sources)
    requires DistinctIds(s.items)
    ensures SettlingWhileReached(s.items, s.store, MigrationLoop(src)) <==> NothingHidden(s, src)
  {
    ReachesReadableItems(s, src);
    SettlingUnlessHiddenBefore(s, src, ItemsReached(s, src));
  }

  /**
   However often a run is cut short, the run that is not, whether it goes through or stops at an unreadable
   source, ends as the first would have.
   */
  lemma RestartsConverge(s: State, src: Sources, cuts: seq<nat>)
    requires DistinctIds(s.items) && NothingHidden(s, src)
    requires forall k :: 0 <= k < |cuts| ==> cuts[k] <= |s.items|
    ensures Migrate(s.(store := AfterCuts(s.items, s.store, MigrationLoop(src), cuts)), src) == Migrate(s, src)
  {
    ReachedSettlesUnlessHidden(s, src);
    ManyCutsConverge(s.items, s.store, MigrationLoop(src), cuts);
  }

  /**
   Exactly when restarts are harmless, also for a migration that stops at an unreadable source: after every cut
   the loop goes as far again, to the same outcomes and the same store, if and only if no empty stored bundle
   hides another source of the secret of an item before the stop.
   */
  lemma LoopConvergesExactlyWhenNothingHidden(s: State, src: Sources)
    requires DistinctIds(s.items)
    ensures var loop := MigrationLoop(src);
            (forall n: nat :: n <= |s.items| ==>
               Process(s.items, CutShort(s.items, s.store, loop, n), loop) == Process(s.items, s.store, loop))
            <==> NothingHidden(s, src)
  {
    DistinctIdsAreKeys(s.items, src);
    ReachedSettlesUnlessHidden(s, src);
    ConvergesExactlyWhenSettling(s.items, s.store, MigrationLoop(src));
  }

  lemma DistinctIdsAreKeys(items: seq<SavedConnection>, src: Sources)
    requires DistinctIds(items)
    ensures DistinctKeys(items, MigrationLoop(src))
  {
  }

  /** For a migration that goes through, that is the same as ending in the same files and the same store. */
  lemma ConvergesExactlyWhenNothingHidden(s: State, src: Sources)
    requires DistinctIds(s.items) && Migrate(s, src).1
    ensures (forall n: nat :: n <= |s.items| ==> Migrate(Interrupted(s, src, n), src) == Migrate(s, src))
            <==> NothingHidden(s, src)
    ensures ItemsReached(s, src) == |s.items|
  {
    var loop := MigrationLoop(src);
    LoopConvergesExactlyWhenNothingHidden(s, src);
    forall n: nat | n <= |s.items|
      ensures Migrate(Interrupted(s, src, n), src) == Migrate(s, src)
              <==> Process(s.items, CutShort(s.items, s.store, loop, n), loop) == Process(s.items, s.store, loop)
    {
      SamePassSameMigration(s, src, Interrupted(s, src, n).store);
    }
  }

  lemma SamePassSameMigration(s: State, src: Sources, store: DailyStore)
    requires Migrate(s, src).1
    ensures Migrate(s.(store := store), src) == Migrate(s, src)
            <==> Process(s.items, store, MigrationLoop(src)) == Process(s.items, s.store, MigrationLoop(src))
  {
  }

  /**
   The secrets that an item has before the migration: its own; else those stored for it, if there is a cell; else those
   of the legacy entry with its id; else those of the old system store under its reference.
   */
  ghost function EffectiveSecrets(item: SavedConnection, stored: Option<Bundle>, src: Sources): Bundle {
    var (legacy, answer) := (LegacySecrets(src.legacy, item.id), OldAnswer(item, src));
    if HasAny(Inline(item)) then Inline(item)
    else if stored.Some? then OrNone(stored.value)
    else if HasAny(legacy) then legacy
    else if answer.Readable? then OrNone(answer.bundle)
    else NO_SECRETS
  }

  function OrNone(bundle: Bundle): Bundle {
    if HasAny(bundle) then bundle else NO_SECRETS
  }

  /** The program's chain of sources finds these. */
  lemma ResolvesEffective(item: SavedConnection, stored: Option<Bundle>, src: Sources)
    ensures var found := ResolveMigrationConnectionBundle(item, stored, src);
            EffectiveSecrets(item, stored, src)
            == if found.Found? && HasAny(found.bundle) then found.bundle else NO_SECRETS
  {
    FallbackMeans(item, src);
  }

  /**
   What one item keeps and what it loses: its secrets can be read as before, but nothing of them is in the item
   itself.
   */
  ghost predicate MigratedWell(item: SavedConnection, stored: Option<Bundle>, result: SavedConnection,
                               cell: Option<Bundle>, src: Sources) {
    LoadSecretBundle(result, cell) == Secrets(EffectiveSecrets(item, stored, src))
    && !HasAny(Inline(result))
    && TrimSpace(result.secretRef) == ""
    && result.id == item.id
    && StripConnectionSecretFields(result.config) == StripConnectionSecretFields(item.config)
    && (cell.Some? && MentionsSecret(result) ==> result.flags == FlagsOf(cell.value))
  }

  lemma CleanedIsClean(item: SavedConnection, bundle: Bundle)
    ensures Inline(Cleaned(item, bundle)) == NO_SECRETS && !HasAny(NO_SECRETS)
    ensures TrimSpace(Cleaned(item, bundle).secretRef) == ""
    ensures MentionsSecret(Cleaned(item, bundle)) == HasAny(bundle)
    ensures StripConnectionSecretFields(Cleaned(item, bundle).config) == Cleaned(item, bundle).config
    ensures Cleaned(Cleaned(item, bundle), bundle) == Cleaned(item, bundle)
  {
    SplitIsLossless(item.config);
    FlagsTellSecrets(bundle);
  }

  lemma CleanedMigratedWell(item: SavedConnection, stored: Option<Bundle>, cell: Option<Bundle>, src: Sources)
    requires var effective := EffectiveSecrets(item, stored, src);
             cell == if HasAny(effective) then Some(effective) else None
    ensures MigratedWell(item, stored, Cleaned(item, EffectiveSecrets(item, stored, src)), cell, src)
  {
    var effective := EffectiveSecrets(item, stored, src);
    CleanedIsClean(item, effective);
    FlagsTellSecrets(effective);
    if !HasAny(effective) {
      assert effective == NO_SECRETS;
    }
  }

  lemma ItemMigratedWell(item: SavedConnection, stored: Option<Bundle>, src: Sources)
    requires Decide(item, stored, src).Go?
    ensures var d := Decide(item, stored, src); MigratedWell(item, stored, d.item, d.cell, src)
  {
    var found := ResolveMigrationConnectionBundle(item, stored, src);
    ResolvesEffective(item, stored, src);
    if (found.Found? && HasAny(found.bundle)) || HasAny(Inline(item)) || MentionsSecret(item) {
      assert !HasAny(NO_SECRETS);
      CleanedMigratedWell(item, stored, Decide(item, stored, src).cell, src);
    }
  }

  lemma CleanedOutcomeSettled(item: SavedConnection, bundle: Bundle, src: Sources)
    requires HasAny(bundle)
    ensures Decide(Cleaned(item, bundle), Some(bundle), src) == Go(Cleaned(item, bundle), Some(bundle))
  {
    CleanedIsClean(item, bundle);
    assert ResolveMigrationConnectionBundle(Cleaned(item, bundle), Some(bundle), src) == Found(bundle);
  }

  lemma EmptiedOutcomeSettled(item: SavedConnection, src: Sources)
    requires !HasAny(FindLegacyConnectionSecretBundle(src.legacy, item.id))
    ensures Decide(Cleaned(item, NO_SECRETS), None, src) == Go(Cleaned(item, NO_SECRETS), None)
  {
    CleanedIsClean(item, NO_SECRETS);
    assert Fallback(Cleaned(item, NO_SECRETS), src).NotFound?;
  }

  lemma ItemOutcomeSettled(item: SavedConnection, stored: Option<Bundle>, src: Sources)
    requires Decide(item, stored, src).Go? && !Hidden(item, stored, src)
    ensures var d := Decide(item, stored, src); Decide(d.item, d.cell, src) == Go(d.item, d.cell)
  {
    var found := ResolveMigrationConnectionBundle(item, stored, src);
    if found.Found? && HasAny(found.bundle) {
      CleanedOutcomeSettled(item, found.bundle, src);
    } else if MentionsSecret(item) {
      LegacyLookup(src.legacy, item.id);
      assert !HasAny(Inline(item));
      EmptiedOutcomeSettled(item, src);
    }
  }

  /**
   A migration that goes through preserves every connection's effective secrets as the application
   reads them, takes the inline secret and the old reference out of every item, and changes nothing else of it.
   */
  lemma MigrationPreservesSecrets(s: State, src: Sources, i: nat)
    requires DistinctIds(s.items) && Migrate(s, src).1 && i < |s.items|
    ensures var after := Migrate(s, src).0;
            |after.items| == |s.items|
            && MigratedWell(s.items[i], GetConnection(s.store, s.items[i].id),
                            after.items[i], GetConnection(after.store, s.items[i].id), src)
  {
    ProcessItem(s.items, s.store, MigrationLoop(src), i);
    ItemMigratedWell(s.items[i], GetConnection(s.store, s.items[i].id), src);
  }

  lemma OutcomeStays(item: SavedConnection, store: DailyStore, src: Sources)
    requires !Hidden(item, GetConnection(store, item.id), src)
    ensures var (loop, d) := (MigrationLoop(src), DecideIn(item, store, MigrationLoop(src)));
            d.Go? ==> loop.keyOf(d.item) == loop.keyOf(item) && Settled(d.item, d.item, d.cell, loop)
  {
    var stored := GetConnection(store, item.id);
    if Decide(item, stored, src).Go? {
      ItemOutcomeSettled(item, stored, src);
      ItemMigratedWell(item, stored, src);
    }
  }

  /** After a migration that went through, migrating again changes neither the items nor the store. */
  lemma SecondMigrationChangesNothing(s: State, src: Sources)
    requires DistinctIds(s.items) && NothingHidden(s, src) && Migrate(s, src).1
    ensures Migrate(Migrate(s, src).0, src) == (Migrate(s, src).0, true)
  {
    var loop := MigrationLoop(src);
    NothingHiddenAtAll(s, src);
    forall i | 0 <= i < |s.items|
      ensures var d := DecideIn(s.items[i], s.store, loop);
              d.Go? ==> loop.keyOf(d.item) == loop.keyOf(s.items[i]) && Settled(d.item, d.item, d.cell, loop)
    {
      OutcomeStays(s.items[i], s.store, src);
    }
    SecondPassChangesNothing(s.items, s.store, loop);
  }

  /**
   Writing a cell is what the daily store's own put and delete operations do, since only bundles with a secret are
   written.
   */
  lemma CellsAreStoreOperations(store: DailyStore, id: string, bundle: Bundle)
    requires HasAny(bundle)
    ensures SetCell(store, TrimSpace(id), Some(bundle)) == PutConnection(store, id, bundle)
    ensures SetCell(store, TrimSpace(id), None) == DeleteConnection(store, id)
    ensures GetConnection(store, id) == Cell(store, TrimSpace(id))
  {
  }

  /** The repository's migration, in a process that lives for `lifetime` items: the places where it may be cut short. */
  method MigrateSavedConnectionSecrets(files: ItemFiles<SavedConnection, Bundle>, src: Sources, lifetime: nat)
    returns (end: End)
    modifies files
    ensures var before := State(old(files.items), old(files.store));
            var after := State(files.items, files.store);
            match end
            case Killed => lifetime <= |before.items| && after == Interrupted(before, src, lifetime)
            case Failed => Migrate(before, src) == (after, false)
            case Done => Migrate(before, src) == (after, true)
  {
    end := files.Run(MigrationLoop(src), lifetime);
  }
}
