# A verified model of the Nebularr operator

Nebularr is a Kubernetes operator that keeps Prowlarr, Lidarr and their relatives in the state that custom
resources describe. It is level-triggered: every reconcile reads what a service holds, compares it by name
with what is wanted, and writes the difference; any request may fail and others may edit the service between
reconciles. This project models that loop and the algorithmic pieces around it in Dafny and proves what they
guarantee, and, where a promise of the code does not hold in general, exactly when it does.

`dafny verify dfyconfig.toml` checks everything.

## How the files fit together

| file | what it holds |
|---|---|
| Common | options, last-wins indexing, arbitrary iteration order |
| Sync | the theory of the by-name diff: residual changes, convergence, order of application |
| Remote | a service that stores resources under IDs and may fail any request; the ownership tag; the ID cache |
| ChangeSets | `Diff` as two loops over maps, and why it is a minimal partition |
| Reconcile | `CurrentState`, `Apply`, `ReconcileConfig` and cleanup as methods on service and cache |
| Prowlarr, Lidarr | the resource types as instances: how each is written and read back, and which values survive |
| Rounds | any number of reconciles with edits by others in between |
| Instances | the controller's theorems for Prowlarr and for Lidarr |
| Comparers | what the hand-written equality tests decide |
| Registration, RegistrationRuns | registering with one Prowlarr in two non-atomic halves; interleavings; names |
| Lifecycle | finalizer lifecycle of the generic reconciler over all runs, with stale snapshots and a lagging cache |
| Coordinator | the coordinator's pass over all app configs and its ownership of status |
| ImportLists | Lidarr import lists: accounting, ownership, idempotence |
| Quality | deep copy of quality trees on the heap, profile construction, cutoff |
| Env, Gluetun, Restart | the sorted text hashed as a change detector, what is printed, and the restarts it causes |
| Presets, Compile | preset expansion over shared slices, format scores and what they refer to |
| Secrets | the flat secret map between resolver and compiler |
| Retry | the bounded retry loop of a Transmission RPC |
| Paths | splitting a path |

A service is a map from (resource type, ID) to resources. How it answers each request is an input of the
methods (`Answers`, `Env`), so results are stated exactly, for every way of answering; a failed request has no
effect. In particular the whole effect of a reconcile on the service is stated without assuming that reads
were complete or names unique: each pending change that the service did not refuse replaced, removed or added
one resource, and every other resource is as before (`Reconcile.DoneExactly`). Resources are edited by others
only between reconciles, except where a run-level model (registration, lifecycle) interleaves steps
explicitly. Go's random map order is an arbitrary choice in every loop over a map. The Prowlarr adapter's
package-level ID cache is an object that outlives reconciles and is shared by all base URLs; Lidarr's IDs
travel in the change instead (`Client.carriesIds`), so both variants are the same methods. `ReconcileConfig`
asks nothing of the cache or of the resources it meets, so what it guarantees holds for every reconcile of
every run, whatever earlier reconciles cached and others edited in between.

## Where the code and its promises part

* `docs/README.md:296` says that only tagged resources are modified. Lidarr custom formats are read without a
  tag filter: whoever made it, one is left alone if and only if it is desired and already as desired
  (`Lidarr.CustomFormatLeftAloneIff`), and its name outlives an error-free reconcile if and only if it is
  desired (`Instances.CustomFormatRemainsIff`). An import list is looked up by name among all lists: one
  without the tag is taken over, tag and all, if and only if it is the indexed one of a desired name and a
  write of that name succeeds (`ImportLists.UntaggedStaysIff`). Remote path mappings and delay profiles are
  read without a tag filter as well (`internal/adapters/lidarr/adapter.go:133`,
  `internal/adapters/lidarr/adapter.go:171`); they are not modelled, but the rule fails for them in the same
  way.
* "Running twice = same result" (`docs/README.md:297`) holds, for a Prowlarr that answers, if and only if the
  values written survive a write and read back (`Instances.ReconcileProwlarrTwice`). An application whose
  categories were given and are all unknown, a FlareSolverr proxy with a port or user name, and an indexer
  with `apiKey` among its settings are updated again in every reconcile. So is every proxy of another type
  whose timeout is not given as 0, because admission fills in 60 for all types
  (`api/v1alpha1/prowlarrconfig_types.go:87`, `Prowlarr.CompiledProxyStableIff`).
* The same holds for a Lidarr that has the ownership tag. On a fresh one it fails in a second way: as nothing
  is read before there is a tag, the first reconcile creates what is desired and the tag, and the second one
  deletes the custom formats that were there and are not desired (`Instances.ReconcileLidarrTwice`).
* A changed password or API key alone is never written to Prowlarr: of clients and proxies everything but the
  password is compared, of applications and indexers everything but the API key
  (`Comparers.ProwlarrSameDecides`, `Comparers.DriftIsUpdated`). Of Lidarr notifications the contract is not
  compared (`Comparers.LidarrSameDecides`).
* A list that fails is swallowed. What it would have held is then created a second time if it is desired, and
  goes unnoticed and untouched if it is not: a reconcile that finds nothing to do is right if and only if no
  owned name was missed (`Reconcile.InSyncUnlessMissed`, `Reconcile.NothingToDoIsRightIff`), although it
  reports Synced.
* `indexersEqual` takes a missing setting for an empty one, so it means equality if and only if no current
  setting is empty (`Comparers.SettingsDecideIff`); `applicationsEqual` means equality, and is symmetric, if
  and only if the desired categories do not repeat (`Comparers.CategoriesDecideIff`); and the shared
  custom-format comparer rejects a format against itself if and only if two of its specifications share a name
  and differ (`Comparers.SharedRejectsItself`).
* When `Apply` returns an error its result is nil and `ReconcileConfig` dereferences it
  (`internal/controller/reconciler.go:154`). The model ends such a reconcile with the outcome `Panicked`,
  which occurs if and only if something is pending and the ownership tag can neither be found nor created
  (`Reconcile.Controller.ReconcileConfig`); with a service that has no tag yet, if and only if anything is
  desired and the tag cannot be created (`Reconcile.FirstReconcileCrashesIff`).
* Cleanup hands the Prowlarr adapter an IR without a Prowlarr part, which it reads as "nothing to do": on
  deletion nothing is removed there (`Instances.CleanUpProwlarr`).
* Cache entries of two instances collide if and only if one resource name is the other with a prefix ending in
  ':' and the base URLs differ by that prefix (`Remote.CollisionIff`).
* The names that the Prowlarr adapter gives applications can coincide with those of the generic reconciler
  (`RegistrationRuns.PushMeetsArrIff`) and of the coordinator (`RegistrationRuns.PushMeetsPullIff`). Whenever
  two actors share a name some interleaving leaves two applications of that name
  (`RegistrationRuns.SafeIffDistinct`).
* Removing a reference to a Prowlarr clears the status but leaves the application registered
  (`Coordinator.ClearingDoesNotUnregister`, `Coordinator.StatusClearedIff`).
* With no import list desired at all, orphans are kept (`ImportLists.Applier.ApplyImportLists`).
* The cutoff of a quality profile is the last match in schema order, not the highest one
  (`Quality.LastMatchWins`), and it is an item the profile allows if and only if there is a match with an ID
  or the default 1005 happens to be allowed (`Quality.CutoffIsAllowedIff`).
* A Gluetun value that contains a newline can hide a change (`Gluetun.PasswordHidesUser`), and a restart that
  fails is never retried, because the new hash is persisted all the same
  (`Restart.NothingNewNothingRestarted`).
* Once a user brings custom formats, the formats of the preset are no longer scored, although the profile
  still holds them (`Compile.PresetFormatsGoUnscored`).
* A suspended object is not cleaned up even under deletion, so its deletion blocks
  (`Lifecycle.DeletionCompletes`).

## Model

| member | source | states |
|---|---|---|
| Sync.OrderIrrelevant | internal/adapters/diff.go:169-215 | Any two orders (with repetitions) of carrying out the same changes give the same by-name state |
| Sync.ApplyAllIsTarget | internal/adapters/shared/apply.go:19-67 | The state after a list of successful changes depends only on which keys occur in it |
| Sync.Residual | internal/adapters/adapter.go:32-40 | The next diff on every key: a failed change is asked for again with the same kind, a successful one not at all, unless its value does not survive the round trip |
| Sync.ResidualIsFailures | internal/controller/reconciler.go:120-189 | With stable desired values the next diff is exactly the failed changes, and applied plus failed is the number asked for |
| Sync.ConvergesIffStable | internal/adapters/adapter.go:36-40 | After a fully successful reconcile the second diff is empty if and only if every value written is stable |
| Sync.PendingAfterRounds | internal/adapters/adapter.go:36-40 | After any number of rounds a change is pending if and only if it failed in every one of them |
| Sync.DiffIsMinimal | internal/adapters/diff.go:169-215 | Every state the comparer accepts differs from the current one on each key the diff names |
| Remote.CollisionIffColonSuffix | internal/adapters/prowlarr/indexers.go:13-30 | Different names share a cache key under some base URLs if and only if one is the other with a prefix ending in a colon, and then under every base URL of the longer one |
| Remote.CollisionIff | internal/adapters/prowlarr/indexers.go:13-30 | Two names share a cache key under two base URLs if and only if one name is the other with a prefix that ends in a colon and the base URLs differ by that prefix |
| Remote.ColonFreeInjective | internal/adapters/prowlarr/indexers.go:13-30 | Base URL and colon-free name are determined by the cache key |
| Remote.OtherInstanceUntouched | internal/adapters/prowlarr/indexers.go:13-30 | With colon-free names a reconcile's cache entries never include those of another base URL |
| Remote.Server.EnsureTag | internal/adapters/shared/tags.go:34-53 | There is a tag afterwards if and only if it is found or its creation is accepted; it is kept if it exists, and a new one is carried by no resource yet |
| Remote.Server.List | internal/adapters/prowlarr/indexers.go:16-30 | An answered list holds exactly the stored resources of the type |
| ChangeSets.Diff | internal/adapters/prowlarr/indexers.go:66-108 | The change set lists, once each, exactly the creates, updates and deletes pending between the last-wins indexes, updates and deletes with the current side's ID |
| ChangeSets.DiffIsPartition | internal/adapters/diff.go:372-418 | No key occurs twice in the three lists, and together they name exactly the missing, unequal and surplus keys |
| ChangeSets.DiffPart | internal/adapters/prowlarr/adapter.go:135-173 | As Diff, but no change at all if the adapter's part of the desired IR is missing |
| ChangeSets.EmptyIffNothingPending | internal/adapters/adapter.go:98-101 | The change set is empty if and only if nothing is pending |
| ChangeSets.EffectOnView | internal/adapters/prowlarr/indexers.go:133-275 | One successful write changes the by-name view of the service at its own key only, to the value read back |
| Reconcile.Adapter.GetManaged | internal/adapters/prowlarr/indexers.go:16-63 | However stale the cache was, afterwards the entry of every resource found is its live, tagged ID, and no entry but those of owned names was written; everything owned is found if and only if the list is answered |
| Reconcile.Adapter.CurrentState | internal/adapters/prowlarr/adapter.go:91-132 | Every entry is of a live owned resource with its value; of each type whose list is answered everything owned is covered, and a failed read is swallowed |
| Reconcile.Adapter.FindId | internal/adapters/prowlarr/indexers.go:180-243 | The ID carried or cached if there is one; else that of the first resource of the name in the service's listing, whether or not tagged, and missing exactly if the listing has none |
| Reconcile.Adapter.ApplyCreate | internal/adapters/prowlarr/indexers.go:133-178 | A create adds one tagged resource if and only if it is accepted, its ID is remembered, and every other name's cached ID stays live |
| Reconcile.Adapter.ApplyUpdate | internal/adapters/prowlarr/indexers.go:180-243 | With a live ID, the resource just seen is replaced if and only if that is accepted, and no other name is disturbed; with any ID the request goes there, and without one to a resource of the name, if there is one and it can be listed |
| Reconcile.Adapter.ApplyDelete | internal/adapters/prowlarr/indexers.go:245-275 | With a live ID, the resource just seen is removed if and only if that is accepted, and no other name is disturbed; without an ID a resource of the name is removed, and having none is a success; the cached ID is forgotten |
| Reconcile.Adapter.ApplyChanges | internal/adapters/shared/apply.go:19-67 | The errors are exactly the changes the service refuses and each change is counted once; each of the others replaced or removed one owned resource of its name, or added one, and nothing else in the service changed; if the view was known and names unique, it becomes the target of exactly the changes that succeeded |
| Reconcile.Adapter.Apply | internal/adapters/prowlarr/adapter.go:176-194 | As ApplyChanges, for every change set that is a diff, whatever was seen; there is a result if and only if the tag can be had, and without one nothing is written |
| Reconcile.EntriesAreSeen | internal/adapters/prowlarr/adapter.go:91-132 | The indexed entries are exactly the owned names of answered lists and, with unique names, their values in the by-name view |
| Reconcile.OtherAimKept | internal/adapters/prowlarr/indexers.go:165-178 | Writing the cache entry of one name changes the ID found for no other name of the same instance |
| Reconcile.Controller.Cycle | internal/controller/reconciler.go:120-150 | CurrentState, Diff and Apply together, for every way the service answers: what is compared is exactly what the answered lists hold, the errors are exactly the pending changes the service refuses, each of the others wrote one resource that was just seen under its name or a new one and every other resource is as before, only cache entries of owned or desired names are written, after complete reads the state settles with the errors as the only residue, and there is no result if and only if something was pending and the tag could not be had |
| Reconcile.Controller.ReconcileConfig | internal/controller/reconciler.go:72-202 | The outcome in every case: unreachable if and only if connecting or discovering fails, a crash on the nil result if and only if something is pending and the tag cannot be had, else Synced if and only if no pending change is refused; the conditions Connected, Ready and Synced with their reasons; and the effect on the service in every case, counts and settling, as for Cycle |
| Reconcile.DoneKeepsRest | docs/README.md:296 | Of what was there, every resource of a name on which no update or delete succeeded is as before, whether or not names are unique |
| Reconcile.DoneKeepsForeign | docs/README.md:296 | What the operator does not own is as before, and all it adds is owned |
| Reconcile.OnlyOwnChanges | docs/README.md:296 | Everything changed or removed was tagged, if its type is selected by the tag, and of a name whose change succeeded; everything new or changed is a desired value as built, under the tag; and of each such name there is a change |
| Reconcile.EndState | internal/controller/reconciler.go:120-189 | After an error-free reconcile with complete reads the owned names are exactly the desired ones, each with a value the comparer accepted or the one just written |
| Reconcile.SyncedIffAccepted | internal/controller/reconciler.go:169-189 | A reconcile that finishes is Synced if and only if the service accepts every pending change |
| Reconcile.FirstReconcileCrashesIff | internal/controller/reconciler.go:136-156 | Against a service without a tag a reconcile ends in the crash if and only if anything is desired and the tag cannot be created |
| Reconcile.NothingToDoIsRightIff | internal/adapters/prowlarr/adapter.go:111-129 | A reconcile that reports that there was nothing to do is right if and only if no owned name was missed, by a swallowed read or because there was no tag to read by |
| Reconcile.InSyncUnlessMissed | internal/adapters/prowlarr/adapter.go:111-129 | An owned and desired name is created a second time if and only if it was missed by a swallowed read or for want of a tag |
| Reconcile.Controller.ReconcileTwice | docs/README.md:297 | If the service answers everything in the first reconcile and every read in the second, the first does all that is pending; with a tag the second finds nothing to do and changes nothing if and only if every value the first one wrote is stable; without one, and with no untagged type's resource of a desired name, if and only if moreover no resource of such a type was there or nothing is desired, and else such a resource is deleted |
| Reconcile.Controller.CleanupManagedResources | internal/controller/reconciler.go:204-242 | It succeeds unless something was seen and the tag cannot be had; of each name seen one resource is deleted unless the service refuses, and nothing else happens; after complete reads exactly the owned resources remain whose deletion is refused; where the part of the IR compared is missing nothing changes |
| Reconcile.SettledResidual | internal/controller/reconciler.go:172-189 | The next diff after a reconcile is exactly its failed changes, with the same kinds |
| Reconcile.SecondRunWritesNothing | docs/README.md:297 | After an error-free reconcile of stable values a second one changes nothing, applies nothing and fails nothing |
| Rounds.PendingAfterRound | internal/controller/reconciler.go:120-189 | After a reconcile with complete reads a change is pending if and only if it was before and was blocked, or its value does not survive |
| Rounds.ReconcileRounds | internal/controller/reconciler.go:72-202 | Over any number of reconciles with edits by others in between: of what others left alone, a change is pending in the end if and only if it was at the start and either every reconcile was kept from making it or its value does not survive |
| Prowlarr.StableIff | internal/adapters/prowlarr/applications.go:16-312 | A desired indexer, proxy, application or client survives the round trip if and only if a condition on its values holds |
| Prowlarr.ProwlarrConverges | internal/adapters/prowlarr/adapter.go:91-194 | On by-name states: the second diff is empty if and only if every value the first one wrote meets that condition |
| Instances.ReconcileProwlarrTwice | internal/controller/reconciler.go:72-202 | For every controller of a Prowlarr that answers, with its four resource types and in whatever order it walks maps: the first reconcile does all that is pending, and the second finds nothing to do if and only if every value the first one wrote meets the condition of Prowlarr.StableIff |
| Instances.ReconcileProwlarr | internal/controller/reconciler.go:72-202 | After a reconcile in sync with complete reads what carries the tag is exactly what is desired, and every stored body reads back with the desired host, URL, port, type, priority and so on, field by field |
| Instances.WrittenOrSame | internal/adapters/prowlarr/clients.go:128-140 | What the comparer accepts, or the adapter has written, has each field as desired, but for the secrets and for what a type does not keep |
| Instances.CleanUpProwlarr | internal/controller/reconciler.go:204-242 | Cleanup of a Prowlarr always succeeds and never changes anything |
| Prowlarr.IndexerReadBack | internal/adapters/prowlarr/indexers.go:30-63 | An indexer reads back as written, except that settings named baseUrl or apiKey have become its base URL or key |
| Prowlarr.BuildOrderIrrelevant | internal/adapters/prowlarr/indexers.go:133-165 | What is read back does not depend on the order in which the settings map was walked |
| Prowlarr.WriteIndexer | internal/adapters/prowlarr/indexers.go:133-165 | The body built in whatever order reads back as the round trip of the desired indexer |
| Prowlarr.ReadIndexer | internal/adapters/prowlarr/indexers.go:30-63 | Reading fields in order leaves the last text value of each name |
| Prowlarr.ProxyReadBack | internal/adapters/prowlarr/proxies.go:16-68 | Which proxy fields survive: FlareSolverr loses port and credentials, the others the timeout |
| Prowlarr.ApplicationReadBack | internal/adapters/prowlarr/applications.go:272-312 | An application reads back with a normalised type and with default categories if it had none |
| Prowlarr.ClientReadBack | internal/adapters/prowlarr/clients.go:17-80 | A download client reads back with its type in lower case and a positive port or 0 |
| Prowlarr.ApplicationInFull | internal/adapters/prowlarr/applications.go:88-312 | Implementation, fields and categories of a written application, in the names and numbers Prowlarr expects |
| Prowlarr.ProxyInFull | internal/adapters/prowlarr/proxies.go:87-292 | The same for a proxy of each type |
| Prowlarr.ClientInFull | internal/adapters/prowlarr/clients.go:143-310 | The same for a download client |
| Prowlarr.IndexerInFull | internal/adapters/prowlarr/indexers.go:133-165 | The same for an indexer whose settings do not use a special name |
| Prowlarr.ConvertCategories | internal/compiler/prowlarr.go:239-265 | Defaults of the app type if no category is given, else the known ones only |
| Prowlarr.KnownOnlyMembers | internal/compiler/prowlarr.go:239-265 | A number is kept if and only if some category given stands for it |
| Prowlarr.KnownOnlyInOrder | internal/compiler/prowlarr.go:239-265 | If all are known they are kept in the order given |
| Prowlarr.CompiledApplicationStable | internal/compiler/prowlarr.go:147-183 | A compiled application converges if and only if no categories were given or one of them is known |
| Prowlarr.CompiledClientStable | internal/compiler/prowlarr.go:186-236 | A compiled download client always converges |
| Prowlarr.CompiledProxyStableIff | internal/compiler/prowlarr.go:102-144 | Which proxies converge as admitted and compiled: FlareSolverr if and only if it has no port and user name and no negative timeout, the others if and only if the timeout is given as 0 and the port is not negative |
| Lidarr.StableIff | internal/adapters/lidarr/notifications.go:34-121 | A custom format always survives the round trip; a notification does if and only if its fields are named, not null and print as before |
| Lidarr.LidarrConverges | internal/adapters/lidarr/customformats.go:100-147 | On by-name states: the second diff is empty if and only if every value the first one wrote meets that condition |
| Instances.ReconcileLidarrTwice | internal/controller/reconciler.go:72-202 | For every controller of a Lidarr that answers: the first reconcile does all that is pending. Unless there was no tag and a custom format of a desired name, the second finds nothing to do if and only if every value the first one wrote meets the condition of Lidarr.StableIff and, if there was no tag, nothing was desired or there was no custom format; without a tag the others are deleted |
| Instances.ReconcileLidarr | internal/controller/reconciler.go:72-202 | After a reconcile in sync with complete reads the tagged notifications and all custom formats are exactly what is desired, custom formats in every part and notifications in implementation, events and text fields |
| Lidarr.BuildOrderIrrelevant | internal/adapters/lidarr/notifications.go:34-75 | What is read back of a notification does not depend on the order in which its fields were walked |
| Lidarr.WrittenInFull | internal/adapters/lidarr/customformats.go:67-97 | Each part of a custom format and each field of a notification is written where Lidarr expects it |
| Lidarr.FieldReadBack | internal/adapters/lidarr/notifications.go:34-75 | Which fields of a notification are read back, and as what |
| Lidarr.ForeignCustomFormatIsDeleted | internal/adapters/lidarr/adapter.go:164-168 | A custom format nobody wants is a pending delete although the operator never wrote it |
| Lidarr.CustomFormatLeftAloneIff | internal/adapters/lidarr/customformats.go:100-147 | A stored custom format, whoever made it, is left alone if and only if it is desired and already as desired, and deleted if and only if it is not desired |
| Instances.CustomFormatRemainsIff | internal/adapters/lidarr/adapter.go:164-168 | After an error-free reconcile with complete reads the name of a custom format that was there is still there if and only if it is desired |
| Comparers.ProwlarrSameDecides | internal/adapters/prowlarr/clients.go:128-140 | Clients and proxies are the same if and only if they agree in everything but the password; applications if and only if in everything but the API key, with categories by count and inclusion; indexers if and only if in everything but the API key, with a missing setting taken for an empty one |
| Comparers.LidarrSameDecides | internal/adapters/lidarr/notifications.go:171-210 | Notifications are the same if and only if they agree in implementation, events and printed fields, custom formats if and only if they are equal |
| Comparers.DriftIsUpdated | internal/adapters/prowlarr/clients.go:83-125 | A value held that differs from the desired one is a pending update, unless it differs only where the comparer does not look |
| Comparers.LidarrDriftIsUpdated | internal/adapters/lidarr/notifications.go:123-168 | The same for Lidarr |
| Comparers.CategoriesEqual | internal/adapters/prowlarr/applications.go:149-173 | The loops decide equal length and inclusion of the second list in the first |
| Comparers.CategoriesDecideSets | internal/adapters/prowlarr/applications.go:149-173 | Against duplicate-free desired categories that is set equality of duplicate-free lists, by counting |
| Comparers.CategoriesDecideIff | internal/adapters/prowlarr/applications.go:149-173 | The test means equality as sets, and is symmetric, for all current lists if and only if the desired categories do not repeat |
| Comparers.Impostor | internal/adapters/prowlarr/applications.go:149-173 | For every list with a repetition there is one that passes against it and has a category it lacks |
| Comparers.CategoriesAsymmetric | internal/adapters/prowlarr/applications.go:149-173 | For every application whose desired categories repeat there are current ones that compare equal in one direction only |
| Comparers.SettingsEqualIff | internal/adapters/prowlarr/indexers.go:111-130 | Indexers found equal have equal settings if and only if no current key is missing on the desired side |
| Comparers.SettingsDecideIff | internal/adapters/prowlarr/indexers.go:111-130 | indexersEqual means equal settings, for all desired indexers, if and only if no current setting is empty |
| Comparers.EmptySettingHidesDrift | internal/adapters/prowlarr/indexers.go:111-130 | For every indexer and every setting of it that is empty there are desired settings without it that compare equal |
| Comparers.NotificationsEquivalence | internal/adapters/lidarr/notifications.go:171-210 | notificationsEqual is reflexive, symmetric and transitive |
| Comparers.CustomFormatsEqual | internal/adapters/diff.go:275-308 | The method decides the by-name lookup of every desired specification |
| Comparers.SharedDecidesReordering | internal/adapters/diff.go:275-317 | With distinct desired names that is equality up to the order of specifications |
| Comparers.PositionalImpliesSharedIff | internal/adapters/lidarr/customformats.go:150-174 | Lidarr's positional equality implies the shared one if and only if specifications sharing a name are identical |
| Comparers.SharedRejectsItself | internal/adapters/diff.go:275-308 | A format is unequal to itself if and only if two of its specifications share a name and differ |
| Registration.WriteEffect | internal/prowlarr/registration.go:68-101 | One write half after an accurate lookup keeps names unique, achieves its task, and leaves all other names alone |
| Registration.TwiceIsOnce | internal/prowlarr/registration.go:66-87 | A successful Register or Unregister repeated changes nothing |
| Registration.Service.FindApplicationByName | internal/prowlarr/registration.go:180-193 | The ID of an application of that name, or 0 exactly if there is none |
| Registration.Service.Register | internal/prowlarr/registration.go:68-86 | It succeeds if and only if the list is answered and the write accepted; names stay unique, success leaves the application with the new details, failure changes nothing, other names are untouched |
| Registration.Service.Unregister | internal/prowlarr/registration.go:89-101 | It succeeds if and only if the list is answered and either the deletion is accepted or there is no such application; success leaves none, failure changes nothing, other names are untouched |
| RegistrationRuns.StepKeepsInv | internal/prowlarr/registration.go:68-101 | Any half step of any actor keeps names unique and every other actor's lookup and settled task valid |
| RegistrationRuns.RunIsSafe | internal/prowlarr/registration.go:68-101 | In every interleaving of distinctly named actors no two applications share a name and applications nobody is named after are unchanged |
| RegistrationRuns.SafeIffDistinct | internal/prowlarr/registration.go:68-101 | From unique names and idle actors no interleaving ever yields two applications of one name if and only if no two actors share a name |
| RegistrationRuns.SchemesInFull | internal/controller/generic_arr_reconciler.go:242 | The names of the three schemes |
| RegistrationRuns.SchemesInjective | internal/controller/generic_arr_reconciler.go:242 | The reconciler's and the coordinator's naming schemes are each injective and never meet |
| RegistrationRuns.SchemeActorsDistinct | internal/controller/prowlarr_coordinator_controller.go:285-303 | So distinct configs under either controller are actors with distinct names |
| RegistrationRuns.PushMeetsArrIff | internal/compiler/prowlarr.go:147-183 | The adapter's own application names coincide with the reconciler's if and only if the ProwlarrConfig is named after, or starts with, an app type in a certain way |
| RegistrationRuns.PushMeetsPullIff | internal/controller/prowlarr_coordinator_controller.go:285 | The adapter's own application names coincide with the coordinator's if and only if the ProwlarrConfig is called, or starts with, "pull" in one of three ways |
| Lifecycle.GenericReconciler.Reconcile | internal/controller/generic_arr_reconciler.go:97-125 | Which events a reconcile produces and which finalizer it writes, for every snapshot and every failure: it is added exactly to a live object without one and given up exactly under deletion; Ready holds if and only if everything up to ReconcileConfig succeeded, and names the first step that failed |
| Lifecycle.ActFlagByFlag | internal/controller/generic_arr_reconciler.go:97-273 | Each event, and each write of the finalizer, if and only if the flags it depends on are set |
| Lifecycle.GenericReconciler.ReconcileNormal | internal/controller/generic_arr_reconciler.go:128-273 | The exits of the normal flow: desired state is applied only if all secrets, the adapter, discovery and compilation were fine |
| Lifecycle.GenericReconciler.ReconcileDelete | internal/controller/generic_arr_reconciler.go:276-315 | Cleanup is attempted exactly if the connection secrets resolve, and the finalizer is given up in any case |
| Lifecycle.StepKeepsInv | internal/controller/generic_arr_reconciler.go:97-125 | Every step of users, controller, cache and API server keeps the lifecycle invariant, whatever snapshot is in flight and however far the cache lags |
| Lifecycle.EveryRunIsSafe | internal/controller/generic_arr_reconciler.go:276-315 | Over all runs, however far the cache lags: applies are guarded by finalizer and no deletion, none is of a version under deletion or older than an earlier fetch, the finalizer goes only right after a cleanup attempt or failed secrets, and no object goes with applied state unattended |
| Lifecycle.NothingAppliedOnceSeen | internal/controller/generic_arr_reconciler.go:109-112 | Once a fetch has seen the deletion, nothing is applied until the object is created anew |
| Lifecycle.FinalizerIsAdded | internal/controller/generic_arr_reconciler.go:115-120 | An object that is neither suspended nor under deletion gets its finalizer as soon as an update succeeds |
| Lifecycle.NewestIsApplied | internal/controller/generic_arr_reconciler.go:128-228 | With the finalizer its newest version is applied by the next fetch and act if and only if secrets, adapter, discovery and compilation are all fine |
| Lifecycle.NewObjectIsApplied | internal/controller/generic_arr_reconciler.go:97-125 | So a new object is given its finalizer and applied, by the steps act, observe, fetch and act, if and only if these are all fine |
| Lifecycle.DeletionCompletes | internal/controller/generic_arr_reconciler.go:307-311 | A deletion step whose update succeeds gives the finalizer up whatever failed before, having attempted cleanup if and only if the connection secrets resolve and unregistering if and only if there is a reference; unless the object is suspended, which blocks it |
| Lifecycle.ReleasedIsCollected | internal/controller/generic_arr_reconciler.go:307-311 | The object then goes as soon as others release their finalizers |
| Lifecycle.AppendDirty | internal/controller/generic_arr_reconciler.go:222-228 | Applied state counts as unattended from its application to the next cleanup attempt |
| Coordinator.StepsCommute | internal/controller/prowlarr_coordinator_controller.go:195-327 | Steps of two coordinators on one app commute, in the status and in the error and call of either, because at most one of them owns it |
| Coordinator.ProcessInFull | internal/controller/prowlarr_coordinator_controller.go:195-327 | When an app is registered, when its processing errs, when a call is made, and when a registration is cleared, each if and only if |
| Coordinator.Coordinator.ProcessAppConfig | internal/controller/prowlarr_coordinator_controller.go:195-327 | The status, error and Register call for one app, with all other statuses unchanged: one that references this Prowlarr is registered if and only if autoRegister is not false, it is not pushed as well, its key resolves and the call goes through |
| Coordinator.Coordinator.Reconcile | internal/controller/prowlarr_coordinator_controller.go:104-192 | Every app of a listed type is processed exactly once, and ends up registered if and only if registration is not switched off, it is not pushed as well, its key resolves and the call goes through; errors are counted exactly, and the calls made are exactly one, in order, for each app whose processing calls |
| Coordinator.CallsFit | internal/controller/prowlarr_coordinator_controller.go:298-320 | Nothing is called but Register for referencing apps, and every registration gained was called for |
| Coordinator.RegisteredIsBacked | internal/controller/prowlarr_coordinator_controller.go:313-320 | Over every run a status that says Registered under a Prowlarr is backed by an earlier successful call there |
| Coordinator.OthersAreInert | internal/controller/prowlarr_coordinator_controller.go:220-224 | While an app keeps its reference, no other coordinator changes anything about it |
| Coordinator.RegisteredAfterStepIff | internal/controller/prowlarr_coordinator_controller.go:207-327 | After a step the app is registered at a Prowlarr if and only if it was before, or the step registered it there |
| Coordinator.ClearingDoesNotUnregister | internal/controller/prowlarr_coordinator_controller.go:207-224 | Over every run of coordinators and edits an app once registered at a Prowlarr stays registered there |
| Coordinator.StatusClearedIff | internal/controller/prowlarr_coordinator_controller.go:207-218 | The status of a registration that is still there is cleared if and only if the reference is gone |
| ImportLists.FindSchemaByType | internal/adapters/lidarr/importlists.go:49-56 | The first schema of the type, or none exactly if no schema has it |
| ImportLists.BuildImportListFields | internal/adapters/lidarr/importlists.go:59-77 | Exactly the settings that the schema has a field for, whatever the order of the map |
| ImportLists.Applier.ApplyOne | internal/adapters/lidarr/importlists.go:120-155 | One list is counted once, and as created or updated if and only if its type is known and the write is accepted, else as an error that names it; its payload is then stored at the existing or a new ID, otherwise nothing changes |
| ImportLists.Applier.Upsert | internal/adapters/lidarr/importlists.go:117-155 | The first loop counts every desired list once, each counter exactly by which types are known and which writes accepted; each list that was there is as the last successful write to it left it or as it was, what is new is a desired list under a new name, and nothing is removed |
| ImportLists.Applier.DeleteOrphans | internal/adapters/lidarr/importlists.go:157-166 | The second loop counts every tagged orphan once and removes exactly the orphans whose deletion is accepted |
| ImportLists.Applier.ApplyImportLists | internal/adapters/lidarr/importlists.go:87-169 | There is no result if and only if something is desired and an initial read fails; created, updated, deleted and errors add up to desired lists plus orphans, and each counter is exact, for every way Lidarr answers; of each desired name what is written last is stored, with the flags, profile, folder, tag and settings wanted; each list that was there is deleted exactly if it is a tagged orphan and that is accepted, and otherwise as the last successful write to it left it or as it was; an error-free run settles, and a settled service sees no creation and no deletion |
| ImportLists.PayloadMatches | internal/adapters/lidarr/importlists.go:172-194 | What is written for a list, field by field, under the first schema of its type |
| ImportLists.LastWrittenIsStored | internal/adapters/lidarr/importlists.go:120-166 | Of each desired name what was written last is there in the end, field by field |
| ImportLists.Applier.CountOut | internal/adapters/lidarr/importlists.go:117-166 | Each counter in terms of known types, existing names and accepted requests |
| ImportLists.UntaggedStaysIff | internal/adapters/lidarr/importlists.go:134-150 | A list without the tag is never deleted, and is as before if and only if no write that succeeds goes to it, that is, it is not the indexed list of a desired name or no write of that name succeeds; otherwise it is tagged |
| ImportLists.CleanCounts | internal/adapters/lidarr/importlists.go:120-155 | There is no error among the first lists if and only if each of them succeeded |
| ImportLists.Applier.SettledAfter | internal/adapters/lidarr/importlists.go:87-169 | With unique names, once all desired lists exist and all orphans are gone every tagged list is a desired one |
| Quality.CopyQualityItem | internal/adapters/lidarr/apply.go:171-193 | The copy is the same tree in nodes that did not exist before, at any depth, and without nil slices |
| Quality.Unambiguous | internal/adapters/lidarr/apply.go:171-193 | What a copy represents is determined: an item on the heap stands for one tree only |
| Quality.ProfileItem | internal/adapters/lidarr/apply.go:138-158 | One item is copied, marked as its tier demands, and moves the cutoff exactly if it offers an ID |
| Quality.ProfileFromSchema | internal/adapters/lidarr/apply.go:117-168 | The schema is left as it is, the profile is its tree with only top-level marks changed in fresh nodes, and the cutoff is the last offer or 1005 |
| Quality.TierOfGroup | internal/adapters/lidarr/apply.go:195-211 | The tier each group name stands for |
| Quality.TierOfQuality | internal/adapters/lidarr/apply.go:213-229 | The tier each quality name stands for, outside groups |
| Quality.MarkInFull | internal/adapters/lidarr/apply.go:138-147 | The last mention of an item's tier decides whether it is allowed, and without one the schema's mark stays |
| Quality.CutoffInFull | internal/adapters/lidarr/apply.go:148-164 | The cutoff is the ID of the last item of the cutoff tier that has one, a group's own and a single quality's, if the last mention of that tier allows it |
| Quality.ChosenIsUnique | internal/adapters/lidarr/apply.go:136-164 | The cutoff is determined |
| Quality.CutoffIsAllowedIff | internal/adapters/lidarr/apply.go:136-164 | Over all schemas: the cutoff is the ID of an item the profile allows if and only if the last item that offers an ID offers one other than 0, or some allowed item has ID 1005 |
| Quality.CutoffIsOfItsTier | internal/adapters/lidarr/apply.go:136-158 | A cutoff that is not the default is the ID of the last item of the cutoff tier that has one, and that item is allowed |
| Quality.DefaultIsUsedIff | internal/adapters/lidarr/apply.go:160-164 | The default is used if and only if the cutoff tier is not an allowed one, no item of it has an ID, or the last that has one has 0 |
| Quality.LastMatchWins | internal/adapters/lidarr/apply.go:148-158 | An item that offers an ID and comes last decides the cutoff, whatever came before it |
| Env.AscendingIsUnique | internal/adapters/downloadstack/gluetun.go:121-127 | A set of keys has one sorted list |
| Env.SortStrings | internal/adapters/downloadstack/gluetun.go:127 | Distinct keys are sorted in place and stay the same keys |
| Env.HashText | internal/adapters/downloadstack/gluetun.go:119-140 | The text written is the sorted printing of the map, whatever order it was walked in |
| Env.TextIsLines | internal/adapters/downloadstack/gluetun.go:129-136 | One line for each key in ascending order, of key, equals sign, value and newline |
| Env.FirstDifferenceDecides | internal/adapters/downloadstack/gluetun.go:127 | Of two keys the first character that differs decides, and a prefix comes first |
| Env.TextIsUnique | internal/adapters/downloadstack/gluetun.go:119-140 | The hashed text depends on the map alone |
| Env.ParseUndoesPrinting | internal/adapters/downloadstack/gluetun.go:129-136 | With keys free of '=' and newline and values free of newline the text parses back to the map |
| Env.TextDecidesEquality | internal/adapters/downloadstack/gluetun.go:119-140 | Two such environments have equal texts if and only if they are equal |
| Env.SwallowedLineGoesUnnoticed | internal/adapters/downloadstack/gluetun.go:129-136 | Any two variables next to each other in the order can be merged into one, whose value contains a newline, without a change of the text |
| Gluetun.GenerateGluetunEnv | internal/adapters/downloadstack/gluetun.go:22-116 | Each of the nineteen variables is set exactly when and to what its rule says, and no other is |
| Gluetun.CredentialsInFull | internal/adapters/downloadstack/gluetun.go:29-45 | Under the names the container reads: provider, type, log level, and the key of a WireGuard connection or else user name and password |
| Gluetun.SwitchesInFull | internal/adapters/downloadstack/gluetun.go:74-110 | Kill switch, IPv6 and firewall debugging |
| Gluetun.DnsInFull | internal/adapters/downloadstack/gluetun.go:89-101 | The three DNS variables |
| Gluetun.ServerInFull | internal/adapters/downloadstack/gluetun.go:48-61 | The server lists, comma-separated, and not set if empty |
| Gluetun.FirewallInFull | internal/adapters/downloadstack/gluetun.go:64-73 | The firewall lists, ports as decimal numerals |
| Gluetun.NamesAreDistinct | internal/adapters/downloadstack/gluetun.go:22-116 | No two variables share a name |
| Gluetun.GluetunEnvIsSafe | internal/adapters/downloadstack/gluetun.go:22-116 | For every input the names print safely, and the values too if the input holds no newline |
| Gluetun.HashedTextTracksVariables | internal/adapters/downloadstack/gluetun.go:119-140 | For inputs without a newline the hashed text changes if and only if the value of some variable does |
| Gluetun.TextOf | internal/adapters/downloadstack/gluetun.go:22-140 | Every input has a text: generating, spelling out and printing yield it, in whatever order the maps are walked |
| Gluetun.PasswordHidesUser | internal/adapters/downloadstack/gluetun.go:129-136 | For every OpenVPN input with user name and password there is one without a user name, whose password contains a newline, with the very same text |
| Restart.Reconciler.ReconcileNormal | internal/controller/downloadstackconfig_controller.go:173-332 | The persisted hash, the attempt to restart and the annotated hash depend only on reaching the comparison and on the status write, not on the exit taken, and are given case by case; and which exit that is |
| Restart.AttemptsAreChanges | internal/controller/downloadstackconfig_controller.go:206-221 | Over every run with stored statuses and restarts enabled, attempts equal the changes in the hashes compared, and the stored hash is the last of them |
| Restart.AttemptsAreValueChanges | internal/controller/downloadstackconfig_controller.go:173-221 | For inputs without a newline and a hash without collision among their texts, attempts equal the number of times the value of some variable changed |
| Restart.RunningIsCurrent | internal/controller/downloadstackconfig_controller.go:206-221 | If moreover no attempt fails, what runs is always what was last generated |
| Restart.InSyncIff | internal/controller/downloadstackconfig_controller.go:206-221 | One reconcile leaves running what it generated if and only if that ran already or a due restart was made |
| Restart.NothingNewNothingRestarted | internal/controller/downloadstackconfig_controller.go:206-221 | While the stored hash is met again nothing changes, whatever fails: a lost restart stays lost |
| Restart.SameEnvironmentNeverRestarts | internal/controller/downloadstackconfig_controller.go:173-221 | For every hash function an unchanged environment never causes a restart |
| Restart.LostStatusWrite | internal/controller/downloadstackconfig_controller.go:225-231 | With one lost status write attempts equal changes up to a surplus: one more if the lost hash is compared next, one less if the hash stored before it is, else none |
| Presets.Append | internal/presets/override.go:28-34 | Go's append: the result is the concatenation, and a shared array is written beyond the slice only |
| Presets.RemoveItems | internal/presets/override.go:69-89 | A fresh slice of what is not removed, in order, even when nothing is |
| Presets.WithoutMembers | internal/presets/override.go:82-88 | Exactly the members not removed remain |
| Presets.ApplyVideoOverrides | internal/presets/override.go:11-37 | Preset minus exclusions plus additions, with nothing that existed modified |
| Presets.Expander.ExpandVideoPreset | internal/presets/expander.go:16-73 | Scores are exactly those of the preset named, or of "balanced", under the overrides, and name exactly the custom formats produced; nothing that existed is modified |
| Presets.Expander.ExpandAll | internal/presets/expander.go:16-73 | After any number of expansions every result still answers to the one unchanged preset table |
| Presets.ScoreOf | internal/presets/expander.go:54-70 | A known format gets +100 if and only if it is preferred and not excluded or preferred in addition; likewise -10000 for rejects |
| Presets.ScoresInFull | internal/presets/expander.go:54-70 | Which names are scored, with and without overrides, and how, and that nothing else is |
| Presets.ScoringIsUnique | internal/presets/expander.go:54-70 | These rules determine the scores |
| Presets.NamesDiffer | internal/presets/expander.go:157-176 | Preferred and rejected format names never coincide, and determine their format |
| Compile.CompileFormatScores | internal/compiler/features.go:159-178 | Nil exactly if no format has a score, else the scores of the formats |
| Compile.DecidingFormatsScore | internal/compiler/features.go:164-173 | The last non-zero score given for a name is its score |
| Compile.ScoresAreDecided | internal/compiler/features.go:164-173 | Every score is that of some format of the user |
| Compile.CompileCustomFormats | internal/compiler/features.go:129-155 | One format per input under its full name, and every score refers to one of them |
| Compile.Compiler.Compile | internal/compiler/compiler.go:123-136 | Every score in the IR names a format the IR holds; user formats replace the preset's scores altogether, even by none; the profile is named after the config and made from the preset asked for, or from "balanced" |
| Compile.PresetFormatsGoUnscored | internal/compiler/compiler.go:127-135 | A user's scores never name a format of the preset |
| Secrets.PathIsInjective | internal/controller/reconciler.go:306-316 | Slash-free secret names and keys are determined by their path |
| Secrets.ClashIffSlash | internal/controller/reconciler.go:306-316 | A name shares a path with a shorter one if and only if it contains a slash |
| Secrets.AddPath | internal/controller/reconciler.go:306-316 | Adding one value of one secret keeps the map a partial view of the cluster and loses nothing |
| Secrets.Resolver.ResolveDownloadClientSecrets | internal/controller/reconciler.go:293-320 | A partial view throughout; success if and only if both credentials of every client can be obtained, and then they are there |
| Secrets.Resolver.ResolveIndexerSecrets | internal/controller/reconciler.go:323-342 | A partial view throughout; success if and only if every API key can be obtained, and then they are there |
| Secrets.Resolver.ResolveImportListSecrets | internal/controller/reconciler.go:413-427 | A partial view throughout; success if and only if every referenced secret can be read, and then every key of it is there |
| Secrets.Resolver.ResolveAll | internal/controller/generic_arr_reconciler.go:139-183 | The controller's sequence of resolvers: success if and only if everything the spec refers to can be obtained, and then it is resolved; even a failed run leaves a partial view |
| Secrets.ConvertDownloadClients | internal/compiler/radarr.go:227-276 | Each client gets the values under its own paths, or none |
| Secrets.ConvertImportList | internal/compiler/radarr.go:478-526 | Settings are the spec's overlaid by everything under the secret's name, in whatever order the map is walked |
| Secrets.SettingsAreOverlaid | internal/compiler/radarr.go:507-520 | After resolution that is the spec's settings overlaid by the whole secret |
| Secrets.ResolveAndConvert | internal/compiler/radarr.go:227-343 | Resolver and compiler together: success if and only if every reference can be read under the key given or else username, password or apiKey; the connection, each client, indexer, import list and authentication then gets the value under that very key, those without a reference none, and on failure nobody gets any |
| Retry.Client.Request | internal/adapters/downloadstack/transmission_client.go:180-252 | The exact course of a request for every sequence of replies: sessions used, sleeps, when it stops, and success exactly if the last reply was good |
| Retry.Client.GetSessionID | internal/adapters/downloadstack/transmission_client.go:142-177 | Success exactly if a 409 or 200 carries a session ID |
| Retry.Client.Attempt | internal/adapters/downloadstack/transmission_client.go:192-250 | One post leaves the request under way exactly if its reply is worth retrying, and ends it otherwise or after the fourth |
| Retry.RequestIsBounded | internal/adapters/downloadstack/transmission_client.go:180-252 | At most four posts, each under a session ID, and at most seven seconds of sleep |
| Retry.RequestInFull | internal/adapters/downloadstack/transmission_client.go:180-252 | Four posts if and only if the first three fail in transport or with an expired session; one, two and four seconds of sleep; an expired session is replaced by the one it brings |
| Retry.SucceedsIffRecovers | internal/adapters/downloadstack/transmission_client.go:192-252 | With a session held, a request succeeds if and only if at most three retryable replies precede one with status 200 and the result success |
| Paths.SplitPath | internal/adapters/lidarr/apply.go:362-379 | The loop computes Split |
| Paths.SplitUndoesJoining | internal/adapters/lidarr/apply.go:362-379 | Components joined by any slashes, with any before and after, come back as they were |
| Paths.SplitIsTheOnlyOne | internal/adapters/lidarr/apply.go:362-379 | A list is the result if and only if it consists of non-empty slash-free components of which the path is a joining |
| Paths.NothingButSlashesIsLost | internal/adapters/lidarr/apply.go:362-379 | The concatenated components are the path without its slashes |

## Left out

- HTTP clients, JSON and XML, the Kubernetes client, watches, metrics, logging and events: only success and failure of requests are modelled.
- Other adapters (Radarr, Sonarr, Readarr, Bazarr) and other download clients: further instances of the same loop or plumbing over services.
- Lidarr download clients, indexers, root folders, remote path mappings, naming, delay and quality profiles in the diff: the first four are further instances of the by-name diff (remote path mappings and delay profiles without tags, like custom formats), and the profile and naming IDs live in package globals shared by all instances.
- DiffRootFolders, DiffVideoQualityProfiles and the read of the first quality profile: easy instances of the diff.
- Quality presets for audio and books, naming presets, category tables, pruning and type inference: lookups and filters.
- SHA-256 over the Gluetun text, URL parsing and number parsing: library behaviour; facts are about the text, and parsed parts are inputs.
- Notification secrets: nothing loads them.
- Metadata of status conditions other than type, status and reason; requeue intervals; health reports.
- Remote.Server.EnsureTag: a label that exists is answered by its ID even when the preceding lookup failed; a service that would create a second tag of that label is not modelled.
- Remote.Server.Post: an ID is never given twice, so what a reconcile creates is where nothing was before.
- Rounds.ReconcileRounds: the reads of every reconcile are complete; after one that missed a desired name there are two resources of it, and which of them the next diff compares depends on the order of the service's listing.
- Reconcile.Controller.Cycle: the adapter diffs one resource type after the other; the model diffs all types in one pass over keys of type and name, which differs only in the order of changes within the three lists.
- Reconcile.Adapter.ApplyDelete: without a cached ID the code deletes the first resource of that name, tagged or not; inside a reconcile every update and delete has a live ID, so ownership is claimed for whole reconciles and not for a delete called on its own.
- Prowlarr.ClientReadBack: lower-casing covers ASCII letters only, where the source uses Unicode lower-casing.
- Lidarr.StableIff: a number's way through JSON and its printed form are parameters.
- Lifecycle.EveryRunIsSafe: one worker per object, as the work queue guarantees; the controller's cache may lag and skip versions but never goes back, so a restart of the controller onto an older cache is not modelled; nobody but the controller touches its finalizer; status writes and the outcome of cleanup requests do not bear on the lifecycle and are not part of it.
- Coordinator.Coordinator.Reconcile: the status messages are shortened, list failures are the set of types not listed, and the status write after each app is assumed to succeed.
- Secrets.Resolver.ResolveAll: the cluster's secrets, and whether reading one of them is answered, do not change during one reconcile.
- Reconcile.Controller.ReconcileConfig: each name is written at most once in a reconcile, so one answer per name covers every failure pattern of the writes.
- Retry.Client.Request: request building and body encoding are assumed to succeed; a reply is a transport error or status, session header and body.
- Restart.Reconciler.ReconcileNormal: hashes are compared as given, and every read of the status sees the last successful write.
- Env.SortStrings: stands for the library sort, so it takes distinct keys; characters are compared as code points, which for UTF-8 is the order of bytes.
- Gluetun.GenerateGluetunEnv: the map is keyed by an enumeration of the variables, whose names Gluetun.SpellOut then spells out.
- Presets.ApplyVideoOverrides: tier lists are values, so that a tier's source list is shared with the preset table, as in the source, but never appended to.
- Paths.SplitPath: strings are sequences of characters; invalid UTF-8 is not modelled.
