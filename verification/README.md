# A verified model of the database workbench's stateful core

This project models the parts of the workbench whose correctness depends on state that outlives one call, and
proves what they keep. It is written in Dafny; `dafny verify dfyconfig.toml` checks all of it. The modules fall
into seven groups.

**The shared connection cache.** `ConnectionConfigs` has the configurations and the two normalizations that make cache
keys and release keys; `ConnectionKeys` says which configurations have equal keys. `ConnectionCache` has the cache as
an object, one method for each region of code that runs under the mutex, and a function for what each region does.
`CacheProtocol` puts these regions together with the driver calls made between them: a thread is somewhere inside one
call, and the runs of the machine are all interleavings of any number of callers and the keep-alive loop. What a
driver, the network, a stored secret or the clock answers is free. On these runs rest `CacheLedger` (every driver
instance is in exactly one place and is closed at most once), `CacheKeepAlive` (no entry stays marked in flight),
`CacheRelease` (a release takes exactly the entries it should), `DialAccounting` (what one get-or-dial call may cost),
`DialOutcomes` (how dialling goes on), `CacheLookups` (what it returns) and `CacheShutdown` (what a shutdown leaves
open when calls are still in progress).

**The secret migration.** `DailySecrets` has the secrets of a connection and the daily store. `RestartableLoop` is a
loop that writes a store item by item, writes its items only at the end, and may be killed in between; it proves
exactly when running again repairs every cut. `SecretMigration` is that loop with the program's precedence of sources.
The pass writes one store cell and one item at a time, so a cut "after any step" is a cut after some number of items.

**Query plans.** `PlanResults` numbers nodes and draws edges. `OraclePlan`, `OracleRoundTrip` and `OracleTable`
recover a tree from the indentation of a text table, and print and parse any forest back. `PlanFlattening` flattens a
nested plan while leaving out steps that carry no information (MySQL) or none at all (PostgreSQL), and `PlanWarnings`
says what its warnings stand for.

**The driver agent.** `AgentLog` says which sequences of driver events are legal. `AgentSessions` is the agent's state
over whole runs of requests, `AgentResponses` what it answers, and `AgentRuntimes` the object that carries it.
`AgentStream` writes the batched row
stream, `AgentStreamClient` reads it at the other end of the pipe.

**The front end's store.** `DebouncedStorage` is the persistence layer with its timers, and `DebouncedPromises` says what
its promises mean; `Arrangements`, `SidebarOrder`, `SidebarActions`, `SidebarTags`, `SidebarReorder` and
`SidebarUntrimmed` are the order of the sidebar, and `SidebarRuns` all actions on it. `Tabs` has the open tabs, and
`QueryTabs` those that a session starts from. `Permutations` has what moving one element of a list does.

**Saving and importing connections.** `SavedConnections` saves one connection, merging secrets with the stored ones.
`ImportDedupe` keeps the last input for each id. `DedupedSaves` says for any such store what leaving out the earlier
inputs loses and what saves that stop half-way have done, and `ConnectionImport` is that for connections.

**Smaller algorithms.** `Utf8`, `Utf8Codes`, `MixedEncoding` and `MixedOutput` (UTF-8, and the repair of texts in mixed
encodings, with what it leaves and what it takes), `HostPort` (parsing and
printing addresses), `SuggestionSort` (the in-place stable sort). `Text` has the strings: trimming and decimal numbers.

Where the program does not do what one would expect of it, the model does what the program does, and a lemma says
exactly when the expected property holds:

- Restarts of the migration converge, whether it goes through or stops at an unreadable source, if and only if no empty
  stored bundle hides another source of the secret of an item before the first one whose source cannot be read
  (`SecretMigration.LoopConvergesExactlyWhenNothingHidden`, `SecretMigration.ConvergesExactlyWhenNothingHidden`).
- A shutdown does not stop calls in progress. Once all is at rest again, an instance is still open if and only if a call
  installed it after the shutdown and no later call took it out of the cache, by a failed check of its driver, a failed
  ping or keep-alive, an invalidation, a release or another shutdown (`CacheShutdown.LeftOpenAfterShutdown`, with a
  leaking run in `CacheShutdown.ShutdownMayLeak`).
- The agent closes every connection exactly once if and only if it was established: an instance whose Connect failed
  is never closed (`AgentSessions.NothingIsLeftOpen`, with a concrete run in `AgentSessions.FailedConnectIsNeverClosed`).
- A row stream is read to its end if and only if the client can decode it, there are columns or no rows, and the
  consumer takes the columns and every row (`AgentStreamClient.StreamReachesClient`). Otherwise messages stay in the
  pipe, and since the client compares no ids, they are the whole answer to its next streamed query
  (`AgentStreamClient.LeftoversComeFirst`).
- A call keeps the debounced storage in agreement with a direct one on a name if and only if it does not lose an
  unsaved write of that name: a failing base write loses it, and so does a call for another name
  (`DebouncedStorage.StepAgreesExactly`).
- With a storage that confirms a write at once, as the browser's does, a promise is settled as kept only when its value
  or a newer one has been written, or a removal superseded it (`DebouncedPromises.SettledPromisesAreKept`). The layer
  takes any storage, though; with one that confirms later, promises are settled too early exactly when a flush ends
  while a newer write is pending whose promise waits (`DebouncedPromises.StepSettlesEarlyExactly`).
- Importing only the last input for each id leaves what importing all of them in order would leave if and only if no
  secret is mentioned by an earlier input and not by the last one, unless it is the one stored
  (`ConnectionImport.ImportIsLosslessExactly`). All present callers meet that: packages and legacy lists clear what they
  do not bring (`ConnectionImport.PackagesAreLossless`), and imports from other programs give each connection a fresh id
  (`ConnectionImport.DistinctInputsAreAllSaved`). For other inputs the import function may lose a secret
  (`ConnectionImport.EarlierSecretIsLost`).
- A failed import puts the list of connections back, but not the daily store: it is undone if and only if no input
  before the first one whose connection is broken says of a secret anything else than what is stored of it
  (`ConnectionImport.FailedImportIsUndoneExactly`; `ConnectionImport.LeavesStored` has the rarer cases, such as secrets
  in the list). Otherwise a connection may be left without the secrets that the list says it has
  (`ConnectionImport.FailedImportLosesSecrets`).
- An address survives printing and parsing if and only if the trimmed host has no square bracket
  (`HostPort.RoundTripExactlyWithoutBrackets`).
- A text is repaired to more than its ill-formed bytes replaced if and only if some suspect run reads better decoded
  (`MixedEncoding.RepairOnlyImproves`).
- The default port of an address matters if and only if host and port cannot be split
  (`HostPort.DefaultPortMattersExactly`).
- Activating a tab keeps the store consistent if and only if the id is that of an open tab, or there are neither
  (`Tabs.SetActiveNeedsOpenTab`, with a run in `Tabs.ActivatingUnknownTab`); adding a tab and most closing actions
  repair the store (`Tabs.RepairedIsConsistent`).
- A session starts with distinct tab ids and an open active tab if and only if no persisted tab that needs a suffix has
  with it the persisted id of an earlier one, as the third of "a-3", "a" and "a" does
  (`QueryTabs.StartIsConsistentExactly`, `QueryTabs.SuffixMayClash`). Tabs persisted by a consistent session come back as
  they were (`QueryTabs.DistinctIdsComeBack`).
- Of all actions on the sidebar, these alone leave a tag out of the order of its token (`SidebarRuns.StepGoodExactly`):
  adding a tag when a tag stands behind the first connection (`SidebarRuns.AddedTagIsMisplaced`), and removing a tag or
  moving a root token under an id with blanks around it. The last two come only from direct calls of the store's actions,
  since the front end builds trimmed ids; for moving, the input is `" tag:b"` before `"tag:a"`
  (`SidebarUntrimmed.UntrimmedSourceDisagreesExactly`, `SidebarUntrimmed.UntrimmedSourceMisplacesTags`).
- The stored order of the sidebar lacks a connection exactly after adding a new one that is in no tag, and after moving
  one into a tag that there is not or under an id with blanks (`SidebarRuns.StepListsExactly`). The next action that
  resolves the order mends that.

## Model

| member | source | states |
|---|---|---|
| `ConnectionConfigs.NormalizeAsTwice` | internal/app/app.go:349-416 | For a fixed type, normalizing a normalized configuration for release gives what releasing the original gives, file databases included. |
| `ConnectionConfigs.ReleaseKeyOfCachedConfig` | internal/app/app.go:437-443 | The release key of a cached (already normalized) configuration is the release key of the original one. |
| `ConnectionKeys.SameKeyExactly` | internal/app/app.go:341-416 | Two configurations share a cached connection if and only if they agree on the type name and on every field that counts for its family: ids, use and switched-off tunnels never count; the database counts for all but the shared catalogs; of a file database only the file counts, and what is no network field. |
| `ConnectionKeys.SameReleaseKeyExactly` | internal/app/app.go:437-443 | Two configurations are released together if and only if they agree on all that counts but the database, the Redis index and the connection parameters. |
| `ConnectionKeys.TypeNameSpec` | internal/app/app.go:352 | A type name is the trimmed text in small letters. |
| `ConnectionCache.SharedCache.DropUnsupported` | internal/app/app.go:890-902 | Under the mutex, a cached instance of an unsupported driver is closed and its entry deleted; nothing else changes. |
| `ConnectionCache.SharedCache.UpdateSettings` | internal/app/app.go:908-921 | Keep-alive settings are updated only if the entry still holds the instance that was read; disabling clears the in-flight mark; the caller goes on with the current entry. |
| `ConnectionCache.SharedCache.RecordPing` | internal/app/app.go:940-947 | A successful ping is recorded only on the entry that still holds the pinged instance. |
| `ConnectionCache.SharedCache.CloseAfterFailedPing` | internal/app/app.go:956-964 | After a failed ping the instance is closed and deleted only if it is still the cached one. |
| `ConnectionCache.SharedCache.CacheOrReuse` | internal/app/app.go:1006-1023 | A dialled instance is installed if its key is free; otherwise the cache is unchanged and the cached instance is the one to return. |
| `ConnectionCache.SharedCache.Invalidate` | internal/app/app.go:562-579 | Invalidating closes and deletes the entry of one key, reports whether there was one, and leaves the others alone. |
| `ConnectionCache.SharedCache.TakeMatching` | internal/app/app.go:469-483 | The loop takes exactly the matching entries out, each once, and leaves all others unchanged. |
| `ConnectionCache.SharedCache.CollectDueTargets` | internal/app/app_keepalive.go:108-135 | The loop marks exactly the due entries in flight and collects exactly their targets, each once. |
| `ConnectionCache.SharedCache.MarkKeepAliveSuccess` | internal/app/app_keepalive.go:137-153 | A finished keep-alive clears the mark and records the ping only on the entry that still holds the instance. |
| `ConnectionCache.SharedCache.TakeAfterFailedKeepAlive` | internal/app/app_keepalive.go:155-175 | After a failed keep-alive the entry is deleted, and its instance handed out for closing, only if it is still the cached one. |
| `ConnectionCache.CloseEach` | internal/app/app.go:306-310 | The loop over a cache closes every cached instance exactly once. |
| `ConnectionCache.SharedCache.CloseAll` | internal/app/app.go:304-311 | Shutdown closes every cached instance once and empties the cache. |
| `CacheLedger.LedgerAlways` | internal/app/app.go:873-1027 | In every state of every interleaving, each instance created so far is accounted for exactly once, and the cache holds no instance under two keys. |
| `CacheLedger.EveryInstanceInOnePlace` | internal/app/app.go:554-580 | Every instance ever created is cached under one key, held by one call in progress, or closed, and never two of these; Close is called on it at most once. |
| `CacheLedger.NothingLeaksAtRest` | internal/app/app.go:300-316 | When no call holds an instance, every instance is either cached or closed exactly once. |
| `CacheLookups.FailedPingIsNeverReturned` | internal/app/app.go:948-968 | In every interleaving, a call whose ping fails never returns the instance that it pinged, and once it has gone on, nobody finds that instance in the cache again. |
| `CacheLookups.SucceededPingIsReturned` | internal/app/app.go:936-947 | A call whose ping succeeds returns the instance that it pinged at its next step; it records the ping on the entry that still holds the instance, and closes and deletes nothing. |
| `CacheLookups.UnpingedExactlyWhenRecent` | internal/app/app.go:928-937 | A call uses a cached instance without a ping exactly when none is forced and the last one is less than half a minute ago. |
| `CacheLookups.ReturnedIsVouchedFor` | internal/app/app.go:873-1027 | Whatever a call returns, one of its own steps vouched for: a ping that succeeded or was not needed, a connect that succeeded, or the cache, which held it under the key just dialled. |
| `CacheLookups.UnsupportedFails` | internal/app/app.go:880-903 | A call for an unsupported driver fails, and what was cached under its key is closed and deleted. |
| `CacheLookups.LookupFindsCached` | internal/app/app.go:904-908 | A call for a supported driver finds exactly what is cached under its key when it looks. |
| `CacheLookups.SettingsReachTheEntry` | internal/app/app.go:908-921 | New keep-alive settings reach exactly the entry that holds the instance read; switched off, they end its turn. |
| `CacheShutdown.StepCaches` | internal/app/app.go:464-579 | After any step of any call an instance is cached exactly if the step installs it, or it was cached and the step is not one of those that delete its entry. |
| `CacheShutdown.LeftOpenAfterShutdown` | internal/app/app.go:300-316 | Once all is at rest after a shutdown, an instance is still open exactly if a call installed it after the shutdown and no later step deleted its entry; every other instance has been closed exactly once. |
| `CacheShutdown.QuietShutdownClosesEverything` | internal/app/app.go:300-316 | When no call installs an instance after the shutdown, every instance is closed exactly once. |
| `CacheShutdown.ShutdownMayLeak` | internal/app/app.go:1006-1023 | A concrete run: a call that is connecting during the shutdown installs its instance afterwards, and all comes to rest with that instance open. |
| `CacheShutdown.LateInstanceMayStillBeClosed` | internal/app/app.go:554-580 | A concrete run in which an instance installed after the shutdown is closed by a later call, so installing alone does not decide. |
| `CacheKeepAlive.InFlightAlwaysOnList` | internal/app/app_keepalive.go:88-106 | In every state of every interleaving, an entry marked in flight has its key and instance among the targets that the current tick has not finished. |
| `CacheKeepAlive.NextTickCollectsOverdue` | internal/app/app_keepalive.go:108-135 | Between ticks no entry is in flight, so the next tick collects exactly the entries that are enabled, have a positive interval, and were last pinged at least that long ago or never. |
| `CacheKeepAlive.PingDecidesNext` | internal/app/app_keepalive.go:88-106 | What becomes of a target is decided by whether its ping succeeds. |
| `CacheKeepAlive.SuccessIsRecorded` | internal/app/app_keepalive.go:137-153 | A successful keep-alive clears the mark and records the time on the entry that still holds the instance, and nothing else changes. |
| `CacheKeepAlive.FailureEvicts` | internal/app/app_keepalive.go:155-175 | A failed one deletes the entry if it still holds the instance, and exactly then the instance is closed next. |
| `CacheKeepAlive.TickMakesProgress` | internal/app/app_keepalive.go:88-106 | Every step of a tick takes it closer to its end. |
| `CacheRelease.AlwaysWellKeyed` | internal/app/app.go:1016-1022 | In every run, a cached entry stands under the key of its own configuration. |
| `CacheRelease.ConnectionKeyingIsLawful` | internal/app/app.go:430-443 | The application's keys meet what the release relies on: the release key of a cache key is that of the configuration, and a cache key shows whether there is a type. |
| `CacheRelease.ReleaseIsExact` | internal/app/app.go:464-494 | Releasing a configuration with a type removes every cached entry with its release key, leaves all others unchanged, and returns how many it removed. |
| `CacheRelease.ReleasesSameServer` | internal/app/app.go:464-494 | With the application's keys, a release takes exactly the connections that agree with the released configuration on all that counts but database, index and parameters, if it has a type. |
| `CacheRelease.ReleaseReportsCount` | internal/app/app.go:464-494 | A release reports how many entries went, and goes on to close exactly their instances. |
| `DialAccounting.AlwaysAccounted` | internal/app/app.go:986-1026 | In every interleaving, every call stays within its budget of attempts, and each instance it created is closed, in its hands, or the one it cached. |
| `DialAccounting.CallAccounting` | internal/app/app.go:1029-1049 | One get-or-dial call creates at most eight instances, at most two when it began after the startup window, starts over only after releasing a cached connection, and closes all it created but the one it caches and returns. |
| `DialOutcomes.AttemptGoesOn` | internal/app/app.go:1120-1150 | Each attempt makes a new instance; what the driver says decides whether it is connected, refused, or not made at all. |
| `DialOutcomes.RetriesExactly` | internal/app/app.go:1150-1165 | A refused attempt is closed, and tried again exactly when it was one of the first three, the refusal was transient, and the application started no more than twenty seconds ago. |
| `DialOutcomes.MakesRoomExactly` | internal/app/app.go:1029-1033 | A failed round makes room exactly when it is the first and the server refused it for want of connections; any other is final. |
| `DialOutcomes.StartsOverExactly` | internal/app/app.go:1034-1049 | A call that has made room starts over exactly when some cached connection was to the same server as the configuration refused. |
| `DialOutcomes.InstallsOrGivesWay` | internal/app/app.go:1006-1026 | A connected instance is cached under the key it was dialled for, as just pinged, if nothing is there; else it is closed and the cached one returned. |
| `DialAccounting.DriverLog.ConnectWithStartupRetry` | internal/app/app.go:1120-1175 | The retry loop stops at the first attempt that does not call for another and closes every instance it made except the one that connected, in order of creation. |
| `DailySecrets.SplitIsLossless` | internal/app/daily_secret_persistence.go:14-68 | Extracting and stripping divide a configuration without loss: putting the bundle back gives the configuration, and a stripped one has no secret left. |
| `DailySecrets.FlagsTellSecrets` | internal/app/saved_connections.go:368-383 | The flags computed from a bundle say that there is a secret exactly when there is one. |
| `DailySecrets.PresentMeans` | internal/app/saved_connections.go:57-67 | A secret is present exactly when it has a character that is not white space. |
| `DailySecrets.StoreKeepsNoEmptyBundles` | internal/dailysecret/store.go:129-157 | The daily store's own operations never leave an empty bundle behind. |
| `RestartableLoop.ProcessInTwoParts` | internal/app/daily_secret_migration.go:60-91 | A pass over a list is a pass over its front and then one over the rest, with the store the front left. |
| `RestartableLoop.StoppedPassIsPrefix` | internal/app/daily_secret_migration.go:62-64 | A pass that stops at an item leaves the store as a pass over the items before it does. |
| `RestartableLoop.ManyCutsConverge` | internal/app/daily_secret_migration.go:49-97 | With distinct keys, and items that settle as far as the pass goes, however often a pass is cut short, a further pass ends as one uninterrupted pass, with the same items, store and place of giving up. |
| `RestartableLoop.ConvergesExactlyWhenSettling` | internal/app/daily_secret_migration.go:60-96 | A pass, whether it goes through or gives up, is repeatable after every cut if and only if deciding every item that it reaches again on its own outcome in the store gives the same outcome. |
| `RestartableLoop.ItemFiles.Run` | internal/app/daily_secret_migration.go:49-97 | The loop, killed after any number of items, also after the last one and before the items are written, leaves the old items and the store cut short there; going through or stopping at an error it leaves exactly what the pass says. |
| `SecretMigration.SettlingUnlessHidden` | internal/app/daily_secret_migration.go:99-133 | Migrating an item settles it exactly when no empty stored bundle hid another source of its secret. |
| `SecretMigration.NoEmptyBundlesHideNothing` | internal/dailysecret/store.go:134-136 | A store without empty bundles hides nothing. |
| `SecretMigration.LegacyLookup` | internal/app/daily_secret_migration.go:211-223 | The legacy secrets of an item are those of the first legacy entry with its trimmed id, and none if there is no such entry or the id is blank. |
| `SecretMigration.ResolvesEffective` | internal/app/daily_secret_migration.go:99-133 | The chain of sources finds the inline secrets, else the stored ones, else those of that legacy entry, else those of the old system store under the trimmed reference. |
| `SecretMigration.ReachesReadableItems` | internal/app/daily_secret_migration.go:60-64 | With distinct ids, a migration goes through exactly the items before the first one whose source cannot be read as things stand before it. |
| `SecretMigration.RestartsConverge` | internal/app/daily_secret_migration.go:49-97 | With distinct ids and nothing hidden before the first unreadable source, a migration cut short any number of times and run again ends as one uninterrupted run, also when that stops at the source. |
| `SecretMigration.LoopConvergesExactlyWhenNothingHidden` | internal/app/daily_secret_migration.go:60-91 | For every migration, also one that stops: after every cut the loop goes as far again, to the same items and the same store, if and only if nothing is hidden from an item before the first unreadable source. |
| `SecretMigration.ConvergesExactlyWhenNothingHidden` | internal/app/daily_secret_migration.go:99-133 | A migration that goes through reaches every item, and ends in the same files and store after every cut if and only if nothing is hidden. |
| `SecretMigration.MigrationPreservesSecrets` | internal/app/daily_secret_migration.go:65-89 | A migration that goes through keeps every connection's effective secrets, given source by source, as the application reads them, takes inline secrets and old references out of every item, and changes nothing else of it. |
| `SecretMigration.SecondMigrationChangesNothing` | internal/app/daily_secret_migration.go:93-96 | A second full run changes neither the items nor the store. |
| `SecretMigration.CellsAreStoreOperations` | internal/app/saved_connections.go:294-300 | Writing a cell of the loop's store is what the daily store's put and delete do. |
| `SecretMigration.MigrateSavedConnectionSecrets` | internal/app/daily_secret_migration.go:49-97 | The migration as an object in place: killed after any item, the last one included, failed, or done, files and store are what the specification says. |
| `PlanResults.PlanResult.AppendChild` | internal/app/explain_parse_common.go:31-41 | A node is appended under the next id, with one edge from its parent if it has one; numbering and edges stay well formed. |
| `PlanResults.OneEdgePerChild` | internal/app/explain_parse_common.go:31-41 | There is exactly one edge for each node with a parent and none for the others, and every edge goes from an earlier node to a later one. |
| `OraclePlan.NearestSpec` | internal/app/explain_parse_oracle.go:147-154 | The parent of a row is the nearest earlier accepted row with strictly smaller indentation, and there is none if no earlier row is indented less. |
| `OraclePlan.PopTo` | internal/app/explain_parse_oracle.go:147-150 | The pop-while loop leaves that row on top of the stack, or an empty stack. |
| `OraclePlan.AppendRow` | internal/app/explain_parse_oracle.go:147-156 | One turn of the loop appends the row's node under that parent and pushes the row. |
| `OraclePlan.ParseOracleRows` | internal/app/explain_parse_oracle.go:92-157 | The parser's nodes are the accepted rows in order, each under its nearest earlier row with smaller indentation. |
| `OracleRoundTrip.NearestIsParent` | internal/app/explain_parse_oracle.go:85-156 | Wherever a forest is printed in preorder with indentation growing with depth, the nearest smaller indentation before a row is its parent's. |
| `OracleRoundTrip.PrintedForestIsRecovered` | internal/app/explain_parse_oracle.go:85-157 | Parsing a printed forest gives exactly its nodes in preorder with exactly its parents. |
| `OracleRoundTrip.ParentsDetermineForest` | internal/app/explain_parse_oracle.go:85-157 | Two forests with the same operations and parents are the same, so the parse loses nothing. |
| `OracleTable.PrintedRowIsAccepted` | internal/app/explain_parse_oracle.go:240-251 | A printed row is accepted and read back exactly, with any padding of the two cells, predicate marks, blanks around the line, further columns, and wherever the two columns are. |
| `OracleTable.AcceptedExactly` | internal/app/explain_parse_oracle.go:92-106 | Of any rows, exactly those are taken whose id cell shows a number that is not negative, behind marks and blanks; the row is the trimmed operation with its indentation. |
| `OracleTable.IdIsParsed` | internal/app/explain_parse_oracle.go:280-292 | An id is read back behind any blanks and predicate marks and before any blanks. |
| `OracleTable.OperationIsParsed` | internal/app/explain_parse_oracle.go:330-340 | The operation cell, padded with any blanks behind, gives back the operation and how far it is indented. |
| `OracleTable.SplitJoin` | internal/app/explain_parse_oracle.go:240-251 | Splitting a row at its bars gives back the cells, empty ones included. |
| `OracleTable.BarsAreOptional` | internal/app/explain_parse_oracle.go:240-251 | The cells are the same without one or both of the outer bars, if the row begins and ends with text. |
| `OracleTable.PrintedTableIsRead` | internal/app/explain_parse_oracle.go:92-108 | All lines of a printed table, in whatever layout each, are accepted and give exactly the printed rows. |
| `OracleTable.PrintedTableGivesForest` | internal/app/explain_parse_oracle.go:85-157 | Printing any forest as table text, in any layout, and parsing the text gives exactly its nodes and parents. |
| `OracleTable.XplanLinePrintsRow` | internal/app/explain_parse_oracle_test.go:13-16 | The layout of the plan tables, with the id aligned on the right and the operation padded to the width of its column, is such a layout. |
| `PlanFlattening.ParseStep` | internal/app/explain_parse_mysql.go:289-304 | The recursive parser appends exactly what the flattening specifies and a warning for every malformed step, in order. |
| `PlanFlattening.FlatteningPreservesTree` | internal/app/explain_parse_mysql.go:289-323 | Exactly the kept steps become nodes, each once, in preorder, and the parent of each is its nearest kept ancestor in the input. |
| `PlanFlattening.FlattenFaithful` | internal/app/explain_parse_mysql.go:296-303 | At every point of the traversal, every emitted node stands for a kept step, has its fields, and has its nearest kept ancestor as parent. |
| `PlanFlattening.FlattenComplete` | internal/app/explain_parse_mysql.go:289-304 | After a step is done, every kept step at or below it has been emitted. |
| `PlanWarnings.WarningsAreMalformed` | internal/app/explain_parse_mysql.go:289-304 | There is one warning for each malformed place of the plan, with its reason, in preorder, and no other. |
| `PlanFlattening.EmptyExactlyWhenNothingKept` | internal/app/explain_parse_mysql.go:218-220 | The result is empty exactly when no step is kept. |
| `PlanFlattening.ShownExactly` | internal/app/explain_parse_mysql.go:306-323 | A step is shown exactly when its operation, access type, table or index has a character that is not white space, or when it is the whole plan. |
| `PlanFlattening.MySQLPlanIsEmptyExactly` | internal/app/explain_parse_mysql.go:306-323 | Nothing is shown exactly of a malformed root, and of a root with inputs when none of the four fields of any step says anything. |
| `PlanFlattening.ParseMySQLJSONExplainV2` | internal/app/explain_parse_mysql.go:203-222 | The parse fails exactly in these two cases, and else gives exactly the flattening. |
| `PlanFlattening.ParsePostgresPlans` | internal/app/explain_parse_postgres.go:79-93 | All plans of the list are flattened into one result, without leaving out any step. |
| `PlanFlattening.PostgresKeepsEveryStep` | internal/app/explain_parse_postgres.go:128-195 | Every step becomes a node; plans are roots, and every other step is a child of the step it is an input of. |
| `AgentLog.SessionsClosedOnce` | cmd/optional-driver-agent/main.go:488-502 | In a legal log every session is open or has been closed exactly once. |
| `AgentLog.InstancesClosedOnce` | cmd/optional-driver-agent/main.go:515-520 | In a legal log every established connection is live or has been closed exactly once, and no other instance is closed. |
| `AgentLog.SessionsClosedFirst` | cmd/optional-driver-agent/main.go:504-522 | When a connection is closed, every session opened on it has been closed before, and none is opened on it later. |
| `AgentLog.IdsAreNotReused` | cmd/optional-driver-agent/main.go:469-473 | In a legal log no session id is given out twice. |
| `AgentSessions.AlwaysConsistent` | cmd/optional-driver-agent/main.go:170-230 | In every run of requests the log is legal, the table leads exactly to the open sessions, and all of them are on the live connection. |
| `AgentSessions.NoConnectionNoSessions` | cmd/optional-driver-agent/main.go:504-522 | Without a connection there are no sessions and no id resolves. |
| `AgentSessions.StaleIdsLeadNowhere` | cmd/optional-driver-agent/main.go:475-486 | Across reconnects too, an id resolves to the session opened under it on the live connection or to none, and no other session ever had it. |
| `AgentSessions.EverySessionIsAccountedFor` | cmd/optional-driver-agent/main.go:488-502 | At any time a session is in the table and not closed, or not in the table and closed exactly once. |
| `AgentSessions.SessionsAreClosedBeforeTheirConnection` | cmd/optional-driver-agent/main.go:504-522 | In every run, sessions are closed before the connection they came from. |
| `AgentSessions.NothingIsLeftOpen` | cmd/optional-driver-agent/main.go:163 | After the final close every session has been closed exactly once, and an instance exactly once if its Connect succeeded and never if it failed. |
| `AgentSessions.FailedConnectIsNeverClosed` | cmd/optional-driver-agent/main.go:179-187 | A concrete run in which an instance is made and never closed. |
| `AgentResponses.RunsWhereItShould` | cmd/optional-driver-agent/main.go:232-268 | In every run, a request under an id runs on the session opened under that id on the live connection and not closed since; with a blank id it runs on the live connection; in all other cases it fails. |
| `AgentResponses.RunLeavesAlone` | cmd/optional-driver-agent/main.go:232-268 | Running changes neither the connection nor the table; a streamed query may open and close a session of its own. |
| `AgentResponses.OpensOnLiveConnection` | cmd/optional-driver-agent/main.go:203-224 | Opening a session succeeds exactly on a live connection whose driver supports it and does it; the id is numbered after all sessions opened before and is new; a failure changes nothing. |
| `AgentResponses.OpenedSessionAnswers` | cmd/optional-driver-agent/main.go:203-236 | A request under the id just given runs on the session just opened. |
| `AgentResponses.ClosesUsableSession` | cmd/optional-driver-agent/main.go:488-502 | Closing by id closes exactly the session that a request under the id would run on, and reports what the driver reports; without one it fails and closes nothing. |
| `AgentResponses.ClosedIdFails` | cmd/optional-driver-agent/main.go:475-502 | After that, requests under the id fail. |
| `AgentResponses.ConnectsLast` | cmd/optional-driver-agent/main.go:175-188 | A connect succeeds exactly with a configuration and an instance that is made and connected; that one then is the only live connection, and none is after a failure. |
| `AgentResponses.ClosesEverything` | cmd/optional-driver-agent/main.go:189-195 | A close request leaves nothing live, and fails exactly when an open session or the connection fails to close. |
| `AgentRuntimes.AgentRuntime.NextID` | cmd/optional-driver-agent/main.go:469-473 | The id is printed from the next number, and only the counter changes. |
| `AgentRuntimes.AgentRuntime.Session` | cmd/optional-driver-agent/main.go:475-486 | A session id is resolved: blank to none, a missing or nil session to an error. |
| `AgentRuntimes.AgentRuntime.CloseSession` | cmd/optional-driver-agent/main.go:488-502 | Closing a session deletes its entry, closes it, and reports a blank or unknown id or a failing close. |
| `AgentRuntimes.AgentRuntime.CloseEverything` | cmd/optional-driver-agent/main.go:504-522 | The loop closes every session, in whatever order the map is walked, and then the connection, and reports whether any close failed. |
| `AgentRuntimes.AgentRuntime.HandleConnectRequest` | cmd/optional-driver-agent/main.go:175-188 | A connect request closes everything first and installs the new instance only if its Connect succeeded. |
| `AgentRuntimes.AgentRuntime.HandleCloseRequest` | cmd/optional-driver-agent/main.go:189-195 | A close request closes everything when there is a connection and reports a failing close. |
| `AgentRuntimes.AgentRuntime.HandleOpenSessionRequest` | cmd/optional-driver-agent/main.go:203-224 | A session is opened only on a live connection that supports it, and entered under a new id. |
| `AgentRuntimes.AgentRuntime.HandleOtherRequest` | cmd/optional-driver-agent/main.go:232-268 | Any other request runs on its session, or on the connection, and fails for an unknown session without touching the table. |
| `AgentStream.AgentStreamResponseWriter.SetColumns` | cmd/optional-driver-agent/main.go:382-390 | Announcing columns writes one columns message. |
| `AgentStream.AgentStreamResponseWriter.ConsumeRow` | cmd/optional-driver-agent/main.go:392-401 | A row by name is put into column order, missing columns as nil; without columns it is refused. |
| `AgentStream.AgentStreamResponseWriter.ConsumeRowValues` | cmd/optional-driver-agent/main.go:403-411 | A row is buffered, and a full buffer of 64 rows is written as one chunk. |
| `AgentStream.AgentStreamResponseWriter.FlushRows` | cmd/optional-driver-agent/main.go:413-425 | The buffered rows are written as one chunk, and the buffer is empty. |
| `AgentStream.AgentStreamResponseWriter.Finish` | cmd/optional-driver-agent/main.go:427-429 | After finishing, the output is the header and the chunks of all rows consumed. |
| `AgentStream.HandleStreamRequest` | cmd/optional-driver-agent/main.go:431-467 | A request is refused with one failure, or writes exactly the transcript of its stream. |
| `AgentStream.RowsInTranscript` | cmd/optional-driver-agent/main.go:403-429 | The concatenated chunks are exactly the rows consumed, in order, also when the stream fails. |
| `AgentStream.TranscriptIsWellFormed` | cmd/optional-driver-agent/main.go:367-467 | All messages carry the request's id; columns come first, if at all; exactly the last message is terminal; no chunk is empty and all but the last hold exactly 64 rows. |
| `AgentStreamClient.HandOver` | internal/db/optional_driver_agent_impl.go:354-373 | The rows of a batch go to the consumer in order, up to the first one that it refuses. |
| `AgentStreamClient.CallStreamQuery` | internal/db/optional_driver_agent_impl.go:326-391 | The reading loop does what its specification says, with lines and batches that cannot be decoded and a consumer that may refuse the columns or any row. |
| `AgentStreamClient.StreamReachesClient` | internal/db/optional_driver_agent_impl.go:326-391 | Whatever follows in the pipe, the client takes all messages of its request if and only if it can decode them, there are columns or no rows, and the consumer takes the columns and every row; then it has handed on exactly the rows consumed, in order, and ends as the driver ended. Otherwise it has handed on a front part of them and stops before the end of its messages. |
| `AgentStreamClient.LeftoversComeFirst` | internal/db/optional_driver_agent_impl.go:336-345 | The next call on the pipe, with any reader, reads only messages that are left over, all with the id of the old request, and stops no later than at the last of them. |
| `DebouncedStorage.DebouncedPersistStorage.Set` | frontend/src/store.ts:273-286 | A set call replaces the pending write, replaces the timer and adds one promise. |
| `DebouncedStorage.DebouncedPersistStorage.Settle` | frontend/src/store.ts:227-237 | All waiting promises are settled in order, and none waits any more. |
| `DebouncedStorage.DebouncedPersistStorage.Flush` | frontend/src/store.ts:239-257 | A flush disarms the timer, takes the pending write and makes the base write; with nothing to write or a failing base it settles at once. |
| `DebouncedStorage.DebouncedPersistStorage.Finish` | frontend/src/store.ts:251-252 | When the base write is confirmed, the waiting promises are settled. |
| `DebouncedStorage.DebouncedPersistStorage.Remove` | frontend/src/store.ts:287-295 | Removing drops the pending write and the timer, settles, and removes from the base. |
| `DebouncedStorage.AlwaysSound` | frontend/src/store.ts:211-297 | In every run a write is pending exactly when one timer is armed, promises are settled once and in order, and while one waits a write is pending or a flush is running. |
| `DebouncedStorage.StepAgreesExactly` | frontend/src/store.ts:239-295 | A step keeps the agreement with the direct storage on a name exactly when it does not lose an unsaved write of it. |
| `DebouncedStorage.AgreesWithDirect` | frontend/src/store.ts:211-297 | In every run that loses nothing of a name, the pending write over the base holds what the direct storage holds. |
| `DebouncedStorage.RefinesDirectStorage` | frontend/src/store.ts:211-297 | For one name over a storage that does not fail, the content equals the direct storage's whenever no write is pending, and no promise waits once nothing is pending and no flush is running. |
| `DebouncedPromises.DecidedMeans` | frontend/src/store.ts:239-295 | A call counts as decided exactly when it was made before an event that wrote the pending value or removed. |
| `DebouncedPromises.SettledPromisesAreKept` | frontend/src/store.ts:239-257 | With a storage that confirms at once, no promise is settled as kept before its call is decided. |
| `DebouncedPromises.StepSettlesEarlyExactly` | frontend/src/store.ts:250-252 | In any run, also over a storage that confirms late, a step settles a promise too early if and only if it ends a flush while a newer write is pending whose promise waits. |
| `DebouncedPromises.PromiseSettledEarly` | frontend/src/store.ts:250-286 | A concrete run over a storage that confirms late, in which a promise is settled while its write is still pending. |
| `DebouncedPromises.OrphansPendingExactly` | frontend/src/store.ts:227-257 | A step leaves a write pending with no promise waiting if and only if it ends a flush and a write was pending before it. |
| `Arrangements.ArrangeSpec` | frontend/src/store.ts:1112-1142 | An arrangement has no repetitions and exactly the members of the list arranged. |
| `Arrangements.ArrangeTwice` | frontend/src/store.ts:1203-1219 | Arranging twice by one order is arranging once. |
| `SidebarOrder.SanitizeSidebarRootOrder` | frontend/src/store.ts:1076-1091 | The loop keeps the trimmed entries that are tokens, each at its first place. |
| `SidebarActions.SanitizedExactly` | frontend/src/store.ts:1069-1091 | What is kept are exactly the entries that, trimmed, are the prefix for a tag or a connection with something behind it. |
| `SidebarOrder.ResolveSidebarRootOrderTokens` | frontend/src/store.ts:1112-1142 | The two loops give the default tokens arranged by the saved order. |
| `SidebarActions.ResolvedListsDefaultTokens` | frontend/src/store.ts:1093-1142 | For every input, the resolved order lists exactly the default tokens, each once. |
| `SidebarActions.ResolvedKeepsSavedOrder` | frontend/src/store.ts:1129-1139 | Saved tokens keep their saved order ahead of the missing ones, which keep their default order. |
| `SidebarActions.ResolvingTwice` | frontend/src/store.ts:1112-1142 | Resolving is idempotent when no tag or connection has a blank id. |
| `SidebarTags.OrderConnectionTagsBySidebarRootOrder` | frontend/src/store.ts:1203-1219 | The loop over the order picks tags out of the map, and what is left follows. |
| `SidebarTags.TagsInOrderPermute` | frontend/src/store.ts:1203-1219 | The ordered tags are a permutation of the tags. |
| `SidebarTags.TagsFollowTokens` | frontend/src/store.ts:1203-1219 | The tokens of the ordered tags are the tokens of the tags, arranged by the order. |
| `SidebarReorder.MovePutsSourceAtTarget` | frontend/src/store.ts:1178-1201 | A moved token ends right before or right behind its target, or last when the target is not in the order; all others keep their order. |
| `SidebarReorder.InsertBeforeUngroupedSpec` | frontend/src/store.ts:1144-1160 | A new token goes between the tags and the first connection; all others keep their order, and nothing is repeated. |
| `SidebarReorder.InsertAfterSpec` | frontend/src/store.ts:1162-1176 | A token goes right behind its anchor, or to the end without one; all others keep their order, and nothing is repeated. |
| `SidebarReorder.ReorderTagsIsConsistent` | frontend/src/store.ts:2795-2818 | After reordering tags by any ids, the tags are a permutation of the old ones, in exactly the order of their tokens in the new order. |
| `SidebarReorder.ReorderSidebarRootPermutes` | frontend/src/store.ts:2819-2842 | Moving a root token, whatever it is, leaves a permutation of the tags. |
| `SidebarReorder.ReorderSidebarRootIsConsistent` | frontend/src/store.ts:2819-2842 | After moving a root token without blanks around it, the tags are in exactly the order of their tokens in the new order. |
| `SidebarUntrimmed.UntrimmedSourceDisagreesExactly` | frontend/src/store.ts:2819-2842 | For any other token they are not, if and only if the trimmed token is moved past the token of another tag. |
| `SidebarUntrimmed.UntrimmedSourceMisplacesTags` | frontend/src/store.ts:2819-2842 | A concrete input for which they are not. |
| `SidebarReorder.ReorderSidebarRootMoves` | frontend/src/store.ts:2819-2842 | When the moved token is in the sidebar, the new order is exactly the moved one. |
| `SidebarRuns.StepGoodExactly` | frontend/src/store.ts:2569-2842 | Each action on connections, tags and the order keeps the order free of repetitions and the tags in the order of their tokens, if and only if it is not one of three: adding a tag when a tag stands behind the first connection, and removing a tag or moving a token under an untrimmed id in certain places. |
| `SidebarRuns.AlwaysGood` | frontend/src/store.ts:2532-2842 | In every run of actions without these the tags stand in the order of their tokens. |
| `SidebarRuns.AddedTagIsMisplaced` | frontend/src/store.ts:2601-2621 | A concrete sidebar, with a connection before a tag, in which adding a tag puts the tags out of the order of their tokens. |
| `SidebarRuns.StepListsExactly` | frontend/src/store.ts:2532-2842 | Each action keeps the stored order a list of exactly the tags and the connections in no tag, unless it adds a new connection that is in no tag, or moves one into a missing tag or under an untrimmed id. |
| `SidebarRuns.PutNextToSpec` | frontend/src/store.ts:2728-2741 | A dragged connection goes right before or right behind its target, or to the end without it; the others keep their order. |
| `SidebarRuns.DraggedIntoTag` | frontend/src/store.ts:2716-2750 | Dragged into a tag, a connection stands next to its target there and is in no other tag. |
| `SidebarRuns.DraggedOut` | frontend/src/store.ts:2753-2793 | Dragged out of all tags, a connection stands next to its target among those in no tag, which come first. |
| `Tabs.AlwaysConsistent` | frontend/src/store.ts:2844-3251 | In every run from a consistent store, tab ids stay distinct, and no tab is active exactly when none is open; else the active one is open. |
| `QueryTabs.SanitizeQueryTabs` | frontend/src/store.ts:1694-1758 | The loop over the persisted tabs keeps the first twenty that are query tabs with something in them, each under its id, or under its id with its number when that is taken. |
| `QueryTabs.StartIsConsistentExactly` | frontend/src/store.ts:1772-1778 | A session starts with distinct ids and an open active tab, whatever was remembered as active, if and only if no tab kept that needs a suffix has with it the persisted id of an earlier one. |
| `QueryTabs.RememberedIsActive` | frontend/src/store.ts:1772-1778 | The tab remembered as active is active again if it is there, and else the first one. |
| `QueryTabs.SessionsAreConsistent` | frontend/src/store.ts:2844-3251 | From such a start, every run keeps ids distinct and the active tab open. |
| `QueryTabs.DistinctIdsComeBack` | frontend/src/store.ts:1722-1727 | Tabs persisted with distinct ids come back under these ids, up to twenty. |
| `QueryTabs.SuffixMayClash` | frontend/src/store.ts:1722-1727 | A concrete list of three persisted tabs of which two come back with the same id. |
| `Tabs.SetActiveNeedsOpenTab` | frontend/src/store.ts:3243-3251 | Activating keeps this exactly when the id is that of a tab open before the call, or it is none and no tab is open. |
| `Tabs.ActivatingUnknownTab` | frontend/src/store.ts:3243-3251 | A concrete run from the empty store after which the active id is not that of an open tab. |
| `Tabs.RepairedIsConsistent` | frontend/src/store.ts:2844-3178 | Whatever was active, the store is consistent after adding a tab, closing all, closing the active one, closing around an open one, and closing by a connection or database that is given. |
| `Tabs.MoveTabSpec` | frontend/src/store.ts:3180-3196 | Moving is a permutation that puts the source at its target's old index and keeps the order of the rest. |
| `Tabs.AddTabShowsIncoming` | frontend/src/store.ts:2844-2952 | After adding, the active tab is of the kind, on the connection and with every property asked for, and at most one tab is new. |
| `Tabs.AddTabReusesExactly` | frontend/src/store.ts:2844-2952 | A tab is added only if none is open with its id, for the same table of the same connection and database, or for its saved query; else one of these is shown, the one with its id first, and no other tab is touched. |
| `Tabs.AddTabKeepsTheRest` | frontend/src/store.ts:2844-2952 | A tab shown again takes the kind and the connection asked for, and keeps what is not asked for. |
| `Tabs.AddTabProperties` | frontend/src/store.ts:2844-2952 | A property of the tab shown is the one asked for, else for a query the default of queries, else the one it had. |
| `Tabs.UpdateReachesOne` | frontend/src/store.ts:2954-3043 | An update reaches the tab with the trimmed id, keeps the id, and leaves all others. |
| `Tabs.ClosesExactly` | frontend/src/store.ts:3045-3178 | Each closing action closes exactly the tabs it names; the others stay, in their order. |
| `Tabs.ClosingKeepsActive` | frontend/src/store.ts:3045-3178 | An active tab that is still open stays active; a closed one is replaced by the tab named by the call when closing to one side, and else by the last tab. |
| `Utf8.ToValidUTF8Spec` | internal/app/error_text.go:33 | Replacing ill-formed bytes gives well-formed UTF-8 (section 4 of RFC 3629) and leaves well-formed text alone. |
| `Utf8.ToValidUTF8Join` | internal/app/error_text.go:33 | At any place where the decoder steps, it may be done on both sides, if the second side knows whether a run of ill-formed bytes goes on. |
| `Utf8.JoinsFreshExactly` | internal/app/error_text.go:33 | The second side may be done afresh if and only if no run of ill-formed bytes goes on across the border. |
| `Utf8Codes.EncodedIsRead` | internal/app/error_text.go:51 | What is written for a code point, in one to four bytes (section 3 of RFC 3629), is read back, whatever follows. |
| `Utf8Codes.ReadIsWritten` | internal/app/error_text.go:51 | What is read as a character is the way its code point is written. |
| `Utf8Codes.CharacterExactly` | internal/app/error_text.go:51 | A character is read exactly where some code point is written. |
| `MixedEncoding.ScoreDecodedText` | internal/app/error_text.go:83-101 | The loop's score is the sum over the runes. |
| `MixedEncoding.NormalizeMixedEncodingText` | internal/app/error_text.go:19-68 | The loop's output is the rendering of the text's segments. |
| `MixedEncoding.TextIsCut` | internal/app/error_text.go:49-66 | The segments partition the text in order into single plain characters and maximal suspect runs. |
| `MixedEncoding.NormalizedIsWellFormed` | internal/app/error_text.go:19-68 | The output is well-formed for every byte string, whatever the decoder yields. |
| `MixedEncoding.RepairOnlyImproves` | internal/app/error_text.go:28-47 | If no suspect run reads better decoded, only ill-formed bytes are replaced and well-formed text is unchanged; otherwise the output scores strictly higher than that. |
| `MixedEncoding.CleanTextIsUnchanged` | internal/app/error_text.go:49-63 | Well-formed text without suspect characters is returned unchanged. |
| `MixedOutput.OtherTextStays` | internal/app/error_text.go:71-81 | Well-formed text without U+FFFD, U+00C0 to U+02FF and the four scripts comes back as it was. |
| `MixedOutput.HanIsTaken` | internal/app/error_text.go:33-38 | A run of bad bytes and such characters that decodes to Han characters alone is written decoded. |
| `MixedOutput.ReplacementsAreNotTaken` | internal/app/error_text.go:33-42 | Bad bytes that decode to replacement characters alone are written as one of these. |
| `MixedOutput.MojibakeIsTakenExactly` | internal/app/error_text.go:33-42 | Bad bytes that decode to mojibake alone are written decoded exactly when that is one character. |
| `MixedOutput.PrintableIsTaken` | internal/app/error_text.go:33-42 | Bad bytes that decode to other printable characters alone are written decoded. |
| `MixedOutput.UnprintableIsTakenExactly` | internal/app/error_text.go:33-42 | Bad bytes that decode to characters that cannot be printed are written decoded exactly when these are two at most. |
| `MixedOutput.UnreadableIsReplaced` | internal/app/error_text.go:40-45 | A run that does not decode, or not to well-formed text, has its bad bytes replaced. |
| `MixedOutput.TakenExactlyByMerit` | internal/app/error_text.go:83-101 | Any other reading is taken exactly when it has more merit, counting four for a Han character, one for a printable one, and against it two, three and six for unprintable ones, mojibake and replacement characters. |
| `HostPort.RoundTripExactlyWithoutBrackets` | internal/app/db_proxy.go:153-208 | For every port from 1 to 65535 and every default port, parsing a formatted address gives back the trimmed host and the port exactly when the host has no square bracket. |
| `HostPort.ParsedPortIsValid` | internal/app/db_proxy.go:153-200 | The port of a parsed address is from 1 to 65535, or it is the positive default. |
| `HostPort.DefaultPortMattersExactly` | internal/app/db_proxy.go:153-200 | For every text, two positive defaults give different addresses if and only if the text is not blank, cannot be split into host and port, and is not made of brackets alone. |
| `HostPort.NoDefaultNeedsPort` | internal/app/db_proxy.go:153-200 | Without a positive default an address is found exactly where the text splits into a host and a valid port, and that is the address. |
| `HostPort.BareHostGetsDefaultPort` | internal/app/db_proxy.go:173-199 | A host without brackets is taken whole, with the positive default port, exactly when it does not have exactly one colon. |
| `HostPort.OneColonNeedsPort` | internal/app/db_proxy.go:180-188 | With exactly one colon and no bracket, what stands behind the colon must be a valid port, whatever the default. |
| `HostPort.SplitHostHasNoBrackets` | internal/app/db_proxy.go:160 | A host that was split off has no brackets. |
| `ImportDedupe.LastIndexes` | internal/app/connection_package_transfer.go:153-160 | The map holds the last index of every key that is not blank. |
| `ImportDedupe.DedupeImportedSavedConnectionInputs` | internal/app/connection_package_transfer.go:148-171 | The result is the inputs without a key and the last input for each key, in order. |
| `ImportDedupe.DedupedTwice` | internal/app/connection_package_transfer.go:148-171 | Deduping is idempotent. |
| `ImportDedupe.KeptWholeExactly` | internal/app/connection_package_transfer.go:148-171 | All inputs are kept exactly when no two have the same key. |
| `ImportDedupe.UnkeyedStay` | internal/app/connection_package_transfer.go:163-169 | All inputs without a key stay, in order. |
| `ImportDedupe.DedupedHasLast` | internal/app/connection_package_transfer.go:148-171 | For each key, the last kept input is the last input. |
| `SavedConnections.SaveIsLocal` | internal/app/saved_connections.go:223-279 | A save fails exactly when the list says that the connection has secrets and there are none to read; otherwise it changes the list item and the stored secrets of its own id and nothing else. |
| `SavedConnections.SaveDecidesSecrets` | internal/app/saved_connections.go:69-131 | After a save every secret is what the input brings, nothing if the input clears it, and else what it was before; the flags tell which there are. |
| `SavedConnections.SavedIsTheInput` | internal/app/saved_connections.go:151-183 | What is saved is the input: putting its secrets back gives its configuration, under the trimmed id and without leave to save passwords. |
| `SavedConnections.SavedConnectionRepository.Save` | internal/app/saved_connections.go:223-279 | Saving in place, with the search of the list, the merge, the clears and the two files, is that save. |
| `DedupedSaves.SavesGoThroughExactly` | internal/app/connection_package_transfer.go:196-206 | A sequence of saves goes through exactly when none of the connections it names is broken before the first of them. |
| `DedupedSaves.DedupeIsLosslessExactly` | internal/app/connection_package_transfer.go:190-206 | For every store whose saves change one entry and decide some of its fields: saving only the last input for each id goes through when saving all does, and leaves the same entries if and only if no field is mentioned by an earlier input, otherwise than it is stored, and not by the last one. |
| `ConnectionImport.ImportIsLosslessExactly` | internal/app/connection_package_transfer.go:190-206 | That for connections: the same list items under every id with the same secrets, if and only if no secret is mentioned by an earlier input only. |
| `ConnectionImport.PackagesAreLossless` | internal/app/connection_package_transfer.go:110-121 | For inputs that clear every secret they do not bring, deduping loses nothing. |
| `ConnectionImport.DistinctInputsAreAllSaved` | internal/app/connection_package_transfer.go:281-305 | Inputs of which no two have the same id, as in imports from other programs, are all saved. |
| `ConnectionImport.EarlierSecretIsLost` | internal/app/connection_package_transfer.go:184-208 | Of two inputs for a new connection, of which the second neither brings nor clears secrets, the import function loses the secrets of the first; no present caller passes such inputs. |
| `SavedConnections.NormalizedHasKey` | internal/app/connection_package_transfer.go:173-182 | A normalized input has a key, and keeps its own if it had one. |
| `ConnectionImport.ImportSavedConnectionsAtomically` | internal/app/connection_package_transfer.go:184-208 | The import in place: it succeeds exactly when all saves of the kept inputs do, and then leaves what they leave; otherwise the list is the old one and the daily store is what the saves before the failing one made of it. |
| `DedupedSaves.StoppedSavesLeaveExactly` | internal/app/connection_package_transfer.go:196-206 | Saves that stop leave a part of every entry alone if and only if each save before the stop does. |
| `ConnectionImport.LeavesStoredExactly` | internal/app/saved_connections.go:239-262 | A save leaves what is stored for its connection exactly if, for a connection listed with secrets and none in the list item, whatever the input says of a secret is what is stored; there are similar conditions on input and store for the others. |
| `ConnectionImport.FailedImportIsUndoneExactly` | internal/app/connection_package_transfer.go:396-415 | A failed import leaves everything as it was if and only if each input before the first one whose connection is broken meets that condition. |
| `ConnectionImport.FailedImportLosesSecrets` | internal/app/connection_package_transfer.go:196-206 | A family of failing imports after which the list says that a connection has secrets and the daily store has none. |
| `SuggestionSort.SinkInto` | internal/app/explain_rules.go:102-110 | The inner loop sinks one element into the sorted front by swaps and leaves the rest alone. |
| `SuggestionSort.SortInPlace` | internal/app/explain_rules.go:101-111 | The array ends as the stable insertion of its elements in order. |
| `SuggestionSort.SortingSpec` | internal/app/explain_rules.go:94-112 | That is sorted by rank and then by descending estimate, a permutation, and stable. |
| `SuggestionSort.SortedMeans` | internal/app/explain_rules.go:96-108 | Sorted means: first the most severe and unknown ones, then warnings, then information, and among those of one kind larger estimates first. |
| `SuggestionSort.SortExplainSuggestions` | internal/app/explain_rules.go:94-112 | Sorting in place gives a permutation of the input by severity and descending estimate, in which suggestions of equal rank and estimate keep their order. |

## Left out

- Drivers, dialling, proxies, SSH, files and keyrings: they are free answers, with an identity for each instance. Clocks are counters that do not go back.
- The cooldown after failed connects (`connectFailures`): whether a miss may dial is a free answer, so what is proved holds with any cooldown.
- Cache keys: a key is the normalized configuration itself; that JSON and SHA-256 keep different configurations apart is not part of this model.
- OceanBase's rewriting of connection parameters: it is an arbitrary function of the configuration; type names are lower-cased for ASCII letters only.
- A returned instance may be evicted by another thread right after it was read; nothing is claimed about it staying open.
- Widths of counters: ids, instance numbers and session numbers are unbounded.
- Secrets in the migration: decoding errors of the daily store and the moving of the global proxy's secret are not part of this model; errors of the other sources stop the pass.
- Plan nodes: the payload of a node other than what decides its place is a function of the step; node ids are numbers, printed with the letter n before them; the id counter is the state of one parse.
- MySQL's first JSON format: its walk over a map of layers has no fixed order, and its steps are single-branch facts.
- Finding the table section, the header and the column positions in Oracle's output: the parser is given the data rows and the positions. Ids are unbounded, and a table whose operations are blank is not covered by the round trip.
- A driver that returns a nil session for a streamed query without an error is not part of this model.
- Pipe writes of the agent succeed; values are not encoded to JSON.
- The driver's side of the consumer contract of a stream is assumed: columns are set at most once, and before all rows.
- The client's consumer takes rows by position, and the conversion to rows by name is part of what the consumer does with them. Chunks of an unknown type are not part of this model, since the agent sends none. Whether a row is taken depends on the rows before it and on nothing else.
- A base write of the debounced storage takes effect or throws at the call, and may be confirmed later; a storage whose write takes effect, or fails, after the call is not part of this model.
- Unicode tables and the GB18030 decoder are parameters, so what is proved holds for any.
- The active context beside the active tab, drafts' sanitizing and the semantic meaning of tab properties: updates are arbitrary changes that keep the id.
- What a persisted tab becomes besides its id (title, query, limits) is one value; ids that are numbers count as their text.
- A property that an added tab has with the value undefined overwrites the old one in the program; here it counts as one that the tab does not have.
- The sidebar's actions: updating a connection never changes its id and is not an action here; sorting connections is stated for the ids, and puts a repeated id once; a new tag is assumed to come with a new, trimmed id, as the front end makes it.
- Connections opened outside the cache for one use (internal/app/app.go:833-863) are not in the ledger.
- Objects in the front end: sidebar and tab actions return new values in the program, and so they do here.
- What the list shows of a saved connection besides its id, configuration and flags (name, icon, chosen databases) is one value that a save takes over from the input; new ids are free answers that are not blank.
- ConnectionImport.ImportIsLosslessExactly: two stores are the same when each id has the same list item and the same secrets; the order in which new connections are appended to the list may differ, and a blank secret counts as none.
- ConnectionImport.ImportSavedConnectionsAtomically: a save fails for secrets that cannot be read; failing reads and writes of the files, the old system store, which the rollback also restores, and the list of views that is returned are not part of this model.
- AgentRuntimes.AgentRuntime.HandleOtherRequest: what the driver answers, and which methods a session refuses, are not part of this model; it states which session or connection the request runs on and what does not change.
- Encryption of packages, user interface, logging, localization and the rules that make suggestions.
