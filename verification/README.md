# EasyGameFramework scene and resource-request core, in Dafny

This project models the sequential core of the scene and resource pipeline of
EasyGameFramework (a C# Unity framework) and proves properties of it:

- the **scene manager**, which tracks which scene addresses are loaded, being
  loaded and being unloaded, checks every load and unload request against
  those lists in a fixed order, and moves addresses between the lists when the
  resource manager answers through one of four callbacks;
- the **asset address** value type (package name plus location): validity,
  equality, hash code and printed form;
- the **load task descriptors** (`LoadResourceTaskBase`, `LoadAssetTask`,
  `LoadSceneTask`): pooled creation, the shared serial counter, routing of a
  load outcome to the caller's callback set, and `Clear`;
- the **pooled records**: `AssetObject` and nine event-argument classes, each
  with a `Create` that acquires from the reference pool and a `Clear` that
  restores the constructor state;
- **event ids**: `EventHelper.GetEventId`, a memoised counter per event type,
  and the cached `GameEventArgs.Id` getter;
- the **scene-order bookkeeping** of `SceneComponent`: recorded scene names,
  per-scene orders, and the rule that picks the scene to activate.

The model is functional. Each C# class becomes an immutable datatype; each
operation is a pure function that returns the new state. The selection loop
of `RefreshSceneOrder` is a method with loop invariants, and the
`SceneComponent` operations that call it are methods too. Each `throw`
becomes an error variant. A C# `string` is `NString`, which is either `Null`
or a character sequence, and `null` differs from `""`. Object references
are opaque `Ref` values. Floats are opaque bit patterns. The C# `int` counters wrap explicitly at `int.MaxValue`
(`Int32.Increment`).

The reference pool's source is not part of this model. It is modelled
abstractly in `ReferencePool`. `Acquire` hands out any stored instance, chosen
by a `pick` parameter, or a newly constructed one when none is stored.
`Release` clears the instance and stores it.

Some behaviour of the code is easy to miss, and the model keeps it:

- The loaded and unloading lists are not disjoint. `UnloadScene` appends to
  the unloading list and leaves the address in the loaded list. The
  invariant kept (`SceneManager.Inv`) is this: loading is disjoint from
  loaded and from unloading, unloading is a subset of loaded, and no list
  has duplicates.
- A load task whose callback set has no failure delegate drops a failure
  silently (`LoadTasks.OnLoadAssetFailure` returns `NoCall`).
- `LoadResourceTaskBase` has no `Clear` of its own. The address and the
  asset type therefore survive `Clear` until the next `Initialize`
  (`LoadTasks.Clear`). `Initialize` never writes the start time either, so a
  recycled task keeps its stale start time until the caller sets
  `StartTime` (`LoadTasks.CreateIgnoresRecycledInstance`).
- `s_Serial` is an `int` that wraps after `int.MaxValue`, so serial ids can
  repeat. The monotonicity lemmas assume that the counter plus the number of
  tasks created stays within `int.MaxValue`.
- `GameEventArgs.m_Id` starts at `0`, not `null`. Every `Id` read therefore
  returns 0, and `Id` never consults the registry
  (`GameEventIds.NewInstanceAlwaysReadsZero`).

One consequence of the code as written, stated as a lemma:
`SetSceneOrder` may record an order for a scene that is still loading. If
that load then fails, nothing removes the entry. If the entry has the
highest order, a later refresh asks for the scene named `null`
(`SceneComponent.StaleEntryActivatesNullName`).

## Model

| member | source | states |
|---|---|---|
| `Addresses.IsValid` | Runtime/Core/Resource/AssetAddress.cs:40-43 | valid exactly when both fields are non-null and non-empty |
| `Addresses.EmptyIsNotValid` | Runtime/Core/Resource/AssetAddress.cs:13 | `Empty` is `("","")` and is not valid |
| `Addresses.Equals` | Runtime/Core/Resource/AssetAddress.cs:78-81 | field-wise equality: true exactly when the two addresses are the same value |
| `Addresses.EqualsIsEquivalence` | Runtime/Core/Resource/AssetAddress.cs:78-81 | `Equals` is reflexive, symmetric and transitive |
| `Addresses.NullFieldIsNotEmptyField` | Runtime/Core/Resource/AssetAddress.cs:78-81 | `(null, x)` and `("", x)` are unequal though both are invalid |
| `Addresses.OpEquality` | Runtime/Core/Resource/AssetAddress.cs:89-92 | `==` agrees with `Equals` |
| `Addresses.OpInequality` | Runtime/Core/Resource/AssetAddress.cs:100-103 | `!=` is the negation of `Equals` |
| `Addresses.GetHashCode` | Runtime/Core/Resource/AssetAddress.cs:58-61 | the hash depends only on the two fields, so every address equal to this one has the same hash |
| `Addresses.EqualAddressesHashEqual` | Runtime/Core/Resource/AssetAddress.cs:58-61 | equal addresses have equal hash codes, whatever the combining function |
| `Addresses.ToString` | Runtime/Core/Resource/AssetAddress.cs:49-52 | the printed form is the package name, one `/`, then the location, with null printed as nothing |
| `Addresses.ToStringIsNotInjective` | Runtime/Core/Resource/AssetAddress.cs:49-52 | `("a/b","c")` and `("a","b/c")` print alike but are unequal |
| `Addresses.ToStringForgetsNull` | Runtime/Core/Resource/AssetAddress.cs:49-52 | a null field and an empty field print alike but are unequal |
| `Addresses.ToStringSplitsAtFirstSlash` | Runtime/Core/Resource/AssetAddress.cs:49-52 | when no package name holds `/`, the printed form determines both printed fields |
| `AssetObjects.Create` | Runtime/Core/Resource/AssetObject.cs:30-37 | acquires from the pool and stores exactly the asset, the scene flag and the user data |
| `AssetObjects.Clear` | Runtime/Core/Resource/AssetObject.cs:60-65 | gives the constructor state: null asset, not a scene, null user data |
| `AssetObjects.GetHashCode` | Runtime/Core/Resource/AssetObject.cs:43-46 | defined exactly when the asset is non-null, and then the asset's hash |
| `AssetObjects.ToString` | Runtime/Core/Resource/AssetObject.cs:52-55 | defined exactly when the asset is non-null, and then the asset's string |
| `AssetObjects.ClearAfterCreateIsFresh` | Runtime/Core/Resource/AssetObject.cs:11-21 | clearing a created object gives the constructor state, and clearing again changes nothing |
| `AssetObjects.ClearedObjectHasNoHashOrString` | Runtime/Core/Resource/AssetObject.cs:43-65 | after `Clear`, neither the hash nor the string form is defined |
| `AssetObjects.ReleasedObjectComesBackFresh` | Runtime/Core/Resource/AssetObject.cs:60-65 | an object released to a pool of cleared objects comes out again in the constructor state |
| `CoreOpenUIFormFailureEvents.Create` | Runtime/Core/UI/OpenUIFormFailureEventArgs.cs:94-104 | acquires from the pool and stores the six arguments verbatim |
| `CoreOpenUIFormFailureEvents.Clear` | Runtime/Core/UI/OpenUIFormFailureEventArgs.cs:109-117 | gives the constructor state: serial 0, `Empty`, nulls, false |
| `CoreOpenUIFormFailureEvents.ClearAfterCreateIsFresh` | Runtime/Core/UI/OpenUIFormFailureEventArgs.cs:20-28 | `Clear(Create(..))` is the constructor state, and `Clear` is idempotent |
| `CoreOpenUIFormFailureEvents.ReleasedRecordComesBackFresh` | Runtime/Core/UI/OpenUIFormFailureEventArgs.cs:109-117 | a record released to a pool of cleared records comes out again in the constructor state |
| `CloseUIFormCompleteEvents.Create` | Runtime/Core/UI/CloseUIFormCompleteEventArgs.cs:72-80 | acquires from the pool and stores the four arguments verbatim |
| `CloseUIFormCompleteEvents.Clear` | Runtime/Core/UI/CloseUIFormCompleteEventArgs.cs:85-91 | gives the constructor state: serial 0, `Empty`, null group, null user data |
| `CloseUIFormCompleteEvents.ClearAfterCreateIsFresh` | Runtime/Core/UI/CloseUIFormCompleteEventArgs.cs:20-26 | `Clear(Create(..))` is the constructor state, and `Clear` is idempotent |
| `CloseUIFormCompleteEvents.ReleasedRecordComesBackFresh` | Runtime/Core/UI/CloseUIFormCompleteEventArgs.cs:85-91 | a released record comes out again in the constructor state |
| `ResourcePackageDownloadUpdateEvents.Create` | Runtime/Core/Resource/EventArgs/ResourcePackageDownloadUpdateEventArgs.cs:61-72 | acquires from the pool and stores the six arguments verbatim |
| `ResourcePackageDownloadUpdateEvents.Clear` | Runtime/Core/Resource/EventArgs/ResourcePackageDownloadUpdateEventArgs.cs:77-85 | gives the constructor state: null package, every count, byte total and the progress zero |
| `ResourcePackageDownloadUpdateEvents.CreateChecksNothing` | Runtime/Core/Resource/EventArgs/ResourcePackageDownloadUpdateEventArgs.cs:61-72 | `Create` accepts more files done than in total, and a negative byte total |
| `ResourcePackageDownloadUpdateEvents.ClearAfterCreateIsFresh` | Runtime/Core/Resource/EventArgs/ResourcePackageDownloadUpdateEventArgs.cs:11-19 | `Clear(Create(..))` is the constructor state, and `Clear` is idempotent |
| `ResourcePackageDownloadUpdateEvents.ReleasedRecordComesBackFresh` | Runtime/Core/Resource/EventArgs/ResourcePackageDownloadUpdateEventArgs.cs:77-85 | a released record comes out again in the constructor state |
| `ResourcePackageDownloadFailureEvents.Create` | Runtime/Core/Resource/EventArgs/ResourcePackageDownloadFailureEventArgs.cs:40-48 | acquires from the pool and stores the three arguments verbatim |
| `ResourcePackageDownloadFailureEvents.Clear` | Runtime/Core/Resource/EventArgs/ResourcePackageDownloadFailureEventArgs.cs:53-58 | gives the constructor state: package, file name and error all null |
| `ResourcePackageDownloadFailureEvents.ClearAfterCreateIsFresh` | Runtime/Core/Resource/EventArgs/ResourcePackageDownloadFailureEventArgs.cs:11-16 | `Clear(Create(..))` is the constructor state, and `Clear` is idempotent |
| `ResourcePackageDownloadFailureEvents.ReleasedRecordComesBackFresh` | Runtime/Core/Resource/EventArgs/ResourcePackageDownloadFailureEventArgs.cs:53-58 | a released record comes out again in the constructor state |
| `ResourcePackageDownloadSuccessEvents.Create` | Runtime/Core/Resource/EventArgs/ResourcePackageDownloadSuccessEventArgs.cs:26-31 | acquires from the pool and stores the package name verbatim |
| `ResourcePackageDownloadSuccessEvents.Clear` | Runtime/Core/Resource/EventArgs/ResourcePackageDownloadSuccessEventArgs.cs:36-39 | gives the constructor state: null package name |
| `ResourcePackageDownloadSuccessEvents.ClearAfterCreateIsFresh` | Runtime/Core/Resource/EventArgs/ResourcePackageDownloadSuccessEventArgs.cs:11-14 | `Clear(Create(p))` is the constructor state, and `Clear` is idempotent |
| `ResourcePackageDownloadSuccessEvents.ReleasedRecordComesBackFresh` | Runtime/Core/Resource/EventArgs/ResourcePackageDownloadSuccessEventArgs.cs:36-39 | a released record comes out again in the constructor state |
| `OpenUIFormFailureEvents.Create` | Runtime/UI/OpenUIFormFailureEventArgs.cs:91-101 | acquires from the pool and copies each of the six fields of the inner event |
| `OpenUIFormFailureEvents.Clear` | Runtime/UI/OpenUIFormFailureEventArgs.cs:106-114 | gives the constructor state |
| `OpenUIFormFailureEvents.FreshMatchesCoreFresh` | Runtime/UI/OpenUIFormFailureEventArgs.cs:22-30 | the constructor state equals the core record's, field by field |
| `OpenUIFormFailureEvents.ClearAfterCreateIsFresh` | Runtime/UI/OpenUIFormFailureEventArgs.cs:106-114 | `Clear(Create(e))` is the constructor state for every inner event, and `Clear` is idempotent |
| `OpenUIFormFailureEvents.ReleasedRecordComesBackFresh` | Runtime/UI/OpenUIFormFailureEventArgs.cs:106-114 | a released record comes out again in the constructor state |
| `PlaySoundSuccessEvents.Create` | Runtime/Sound/PlaySoundSuccessEventArgs.cs:92-103 | a user data of another type fails the cast; a null one faults after the acquire; a `PlaySoundInfo` gives a record with the event's serial, address, agent and duration and the info's entity and user data, and the info is released |
| `PlaySoundSuccessEvents.InfoIsReadBeforeRelease` | Runtime/Sound/PlaySoundSuccessEventArgs.cs:98-101 | the info's fields reach the record even when the release wipes the info |
| `PlaySoundSuccessEvents.Clear` | Runtime/Sound/PlaySoundSuccessEventArgs.cs:109-117 | gives the constructor state: zero, `Empty` or null in every field |
| `PlaySoundSuccessEvents.ClearAfterCreateIsFresh` | Runtime/Sound/PlaySoundSuccessEventArgs.cs:23-31 | clearing a created record gives the constructor state, and `Clear` is idempotent |
| `PlaySoundSuccessEvents.ReleasedRecordComesBackFresh` | Runtime/Sound/PlaySoundSuccessEventArgs.cs:109-117 | a released record comes out again in the constructor state |
| `LoadSceneFailureEvents.Create` | Runtime/Scene/LoadSceneFailureEventArgs.cs:70-78 | acquires from the pool and copies the four fields of the inner event |
| `LoadSceneFailureEvents.Clear` | Runtime/Scene/LoadSceneFailureEventArgs.cs:83-89 | gives the constructor state: all four fields null |
| `LoadSceneFailureEvents.ClearAfterCreateIsFresh` | Runtime/Scene/LoadSceneFailureEventArgs.cs:21-27 | `Clear(Create(e))` is the constructor state, and `Clear` is idempotent |
| `LoadSceneFailureEvents.ReleasedRecordComesBackFresh` | Runtime/Scene/LoadSceneFailureEventArgs.cs:83-89 | a released record comes out again in the constructor state |
| `NetworkClosedEvents.Create` | Runtime/Network/NetworkClosedEventArgs.cs:41-46 | acquires from the pool and copies the network channel |
| `NetworkClosedEvents.Clear` | Runtime/Network/NetworkClosedEventArgs.cs:51-54 | sets the channel back to null |
| `NetworkClosedEvents.ClearAfterCreateIsFresh` | Runtime/Network/NetworkClosedEventArgs.cs:22-25 | `Clear(Create(e))` is the constructor state, and `Clear` is idempotent |
| `NetworkClosedEvents.ReleasedRecordComesBackFresh` | Runtime/Network/NetworkClosedEventArgs.cs:51-54 | a released record comes out again in the constructor state |
| `EventHelper.GetEventId` | Runtime/GameFramework/Event/EventHelper.cs:13-16 | a known type gets its stored id and nothing changes; a new type gets the pre-incremented counter, which is then recorded for it |
| `EventHelper.FirstIdIs1001` | Runtime/GameFramework/Event/EventHelper.cs:10-11 | the first id ever issued is 1001 |
| `EventHelper.GetEventIdIsMemoised` | Runtime/GameFramework/Event/EventHelper.cs:15 | asking again for the same type returns the same id and changes nothing |
| `EventHelper.GetEventIdKeepsValid` | Runtime/GameFramework/Event/EventHelper.cs:15 | without wrap-around, ids stay distinct and within (1000, counter], and the counter moves exactly when the type is new |
| `EventHelper.GetEventIds` | Runtime/GameFramework/Event/EventHelper.cs:15 | over a run of requests, earlier ids are kept, each request's type maps to the id it got, and a type new to the registry gets an id above the old counter |
| `EventHelper.GetEventIdsKeepsValid` | Runtime/GameFramework/Event/EventHelper.cs:15 | a run of requests keeps the ids distinct and within bounds |
| `EventHelper.SameIdIffSameType` | Runtime/GameFramework/Event/EventHelper.cs:15 | two requests of a run get the same id exactly when they name the same type |
| `EventHelper.NewTypeGetsLargerId` | Runtime/GameFramework/Event/EventHelper.cs:15 | a type asked for the first time gets an id above every id handed out before it |
| `GameEventIds.New` | Runtime/Core/Event/GameEventArgs.cs:15 | a new instance's cached id is `0`, not null |
| `GameEventIds.ReadId` | Runtime/Core/Event/GameEventArgs.cs:17-28 | a cached id is returned unchanged; only a null cache consults the registry and stores the result |
| `GameEventIds.ReadIdIsStable` | Runtime/Core/Event/GameEventArgs.cs:17-28 | reading twice gives the same id, and the second read changes nothing |
| `GameEventIds.ReadIdTimes` | Runtime/Core/Event/GameEventArgs.cs:17-28 | over repeated reads, only the first can change the instance or the registry, and every read returns the first read's id |
| `GameEventIds.NewInstanceAlwaysReadsZero` | Runtime/Core/Event/GameEventArgs.cs:15-26 | every read on a new instance of any event type returns 0 and changes neither the instance nor the registry |
| `LoadTasks.Constructed` | Runtime/Core/Resource/ResourceManager.LoadResourceTaskBase.cs:11-17 | a constructed task has no callback set and the default address `(null, null)` |
| `LoadTasks.IsScene` | Runtime/Core/Resource/ResourceManager.LoadAssetTask.cs:11 | false for an asset task and true for a scene task |
| `LoadTasks.Initialize` | Runtime/Core/Resource/ResourceManager.LoadResourceTaskBase.cs:30-35 | the serial is the pre-incremented shared counter; the tag is "LoadResourceTask"; the priority, user data, address and type are as given; nothing else changes |
| `LoadTasks.CreateFrom` | Runtime/Core/Resource/ResourceManager.LoadAssetTask.cs:29-36 | a created task holds the request's fields and callback set, and the new serial |
| `LoadTasks.CreateAssetTask` | Runtime/Core/Resource/ResourceManager.LoadAssetTask.cs:29-36 | acquires an asset task, initialises it with the given address, type, priority and user data, and attaches the given callbacks |
| `LoadTasks.CreateSceneTask` | Runtime/Core/Resource/ResourceManager.LoadSceneTask.cs:11-17 | acquires a scene task and initialises it as above, with asset type null |
| `LoadTasks.CreateIgnoresRecycledInstance` | Runtime/Core/Resource/ResourceManager.LoadResourceTaskBase.cs:11-17 | the instance handed out by the pool does not affect the created task, except that its stale start time survives |
| `LoadTasks.Clear` | Runtime/Core/Resource/ResourceManager.LoadAssetTask.cs:38-42 | drops the callback set and resets what the base keeps; the address, the type and the start time are not reset |
| `LoadTasks.ClearIsIdempotent` | Runtime/Core/Resource/ResourceManager.LoadSceneTask.cs:19-23 | clearing twice is clearing once |
| `LoadTasks.OnLoadAssetSuccess` | Runtime/Core/Resource/ResourceManager.LoadAssetTask.cs:13-19 | calls the success callback with the task's address, the asset, the duration and the task's user data when it is set; does nothing otherwise; faults on a missing callback set, and on a null asset object when the callback is set |
| `LoadTasks.OnLoadAssetFailure` | Runtime/Core/Resource/ResourceManager.LoadSceneTask.cs:33-39 | calls the failure callback with the task's address, the status, the message and the task's user data when it is set; otherwise the failure is dropped |
| `LoadTasks.HooksReachOnlyOwnCallbacks` | Runtime/Core/Resource/ResourceManager.LoadSceneTask.cs:25-39 | a created task reports to the callback set it was created with; a cleared task reaches no callback |
| `LoadTasks.CreateMany` | Runtime/Core/Resource/ResourceManager.LoadResourceTaskBase.cs:9-32 | in a run of creations of both kinds, task `i` gets serial `counter + i + 1` |
| `LoadTasks.SerialsStrictlyIncrease` | Runtime/Core/Resource/ResourceManager.LoadResourceTaskBase.cs:9-32 | serials grow strictly with creation order across both kinds, and the first task gets serial 1 |
| `SceneManager.InitialInv` | Runtime/Core/Scene/SceneManager.cs:33-45 | the constructed manager satisfies the invariant |
| `SceneManager.SetResourceManager` | Runtime/Core/Scene/SceneManager.cs:154-162 | rejects null; otherwise only the resource manager changes |
| `SceneManager.SetResourceManagerKeepsInv` | Runtime/Core/Scene/SceneManager.cs:154-162 | setting the resource manager keeps the invariant |
| `SceneManager.SceneIsLoaded` | Runtime/Core/Scene/SceneManager.cs:169-177 | throws exactly on an invalid address; otherwise tests membership in the loaded list |
| `SceneManager.SceneIsLoading` | Runtime/Core/Scene/SceneManager.cs:193-201 | throws exactly on an invalid address; otherwise tests membership in the loading list |
| `SceneManager.SceneIsUnloading` | Runtime/Core/Scene/SceneManager.cs:217-225 | throws exactly on an invalid address; otherwise tests membership in the unloading list |
| `SceneManager.LoadScene` | Runtime/Core/Scene/SceneManager.cs:257-286 | rejects, in order, an invalid address, a missing resource manager, a scene being unloaded, one being loaded, one already loaded; accepts exactly otherwise, and then appends the address to the loading list |
| `SceneManager.UnloadScene` | Runtime/Core/Scene/SceneManager.cs:293-322 | rejects, in order, an invalid address, a missing resource manager, a scene being unloaded, one being loaded, one not loaded; accepts exactly otherwise, and then appends to the unloading list while the scene stays loaded |
| `Lists.RemoveFirstSplits` | Runtime/Core/Scene/SceneManager.cs:326 | `List.Remove` takes out the first occurrence of the address and keeps the order of the other entries |
| `SceneManager.LoadSceneSuccessCallback` | Runtime/Core/Scene/SceneManager.cs:324-334 | one occurrence leaves the loading list and the address is appended to the loaded list; the success event fires exactly when a handler is subscribed |
| `SceneManager.LoadFailureMessage` | Runtime/Core/Scene/SceneManager.cs:339 | the failure message mentions the address, the status and the resource manager's message |
| `SceneManager.LoadSceneFailureCallback` | Runtime/Core/Scene/SceneManager.cs:336-349 | only the loading list changes; the failure event fires when a handler is subscribed, and otherwise the failure is thrown |
| `SceneManager.UnloadSceneSuccessCallback` | Runtime/Core/Scene/SceneManager.cs:351-361 | one occurrence leaves both the unloading and the loaded list; the event fires exactly when a handler is subscribed |
| `SceneManager.UnloadFailureMessage` | Runtime/Core/Scene/SceneManager.cs:374 | the thrown message mentions the address |
| `SceneManager.UnloadSceneFailureCallback` | Runtime/Core/Scene/SceneManager.cs:363-375 | only the unloading list changes, so the scene stays loaded; the event fires or the failure is thrown |
| `SceneManager.LoadSceneKeepsInv` | Runtime/Core/Scene/SceneManager.cs:284 | an accepted load keeps the invariant |
| `SceneManager.UnloadSceneKeepsInv` | Runtime/Core/Scene/SceneManager.cs:320 | an accepted unload keeps the invariant |
| `SceneManager.LoadSceneSuccessKeepsInv` | Runtime/Core/Scene/SceneManager.cs:326-327 | a success for a scene being loaded keeps the invariant and moves it from loading to loaded, whether the callback fires or throws |
| `SceneManager.LoadSceneFailureKeepsInv` | Runtime/Core/Scene/SceneManager.cs:338 | a load failure for any address keeps the invariant |
| `SceneManager.UnloadSceneSuccessKeepsInv` | Runtime/Core/Scene/SceneManager.cs:353-354 | an unload success for any address keeps the invariant and leaves the scene neither loaded nor unloading |
| `SceneManager.UnloadSceneFailureKeepsInv` | Runtime/Core/Scene/SceneManager.cs:365 | an unload failure keeps the invariant and a loaded scene stays loaded |
| `SceneManager.StraySuccessDuplicates` | Runtime/Core/Scene/SceneManager.cs:324-327 | a load success for an already loaded scene lists it twice: the callback checks nothing |
| `SceneManager.LoadUnloadRoundTrip` | Runtime/Core/Scene/SceneManager.cs:257-361 | load, load success, unload, unload success returns exactly to the start state; in between, a second load is refused as being loaded, then already loaded, then being unloaded |
| `SceneManager.FailedLoadRoundTrip` | Runtime/Core/Scene/SceneManager.cs:284-338 | an accepted load followed by its failure returns to the start state |
| `SceneManager.FailedUnloadRoundTrip` | Runtime/Core/Scene/SceneManager.cs:320-365 | an accepted unload followed by its failure returns to the start state, with the scene still loaded |
| `SceneManager.FailuresWithoutHandlerAreThrown` | Runtime/Core/Scene/SceneManager.cs:339-374 | with no handler, a load failure is thrown naming the address, status and message, and an unload failure naming the address |
| `SceneManager.RequestsAreIndependent` | Runtime/Core/Scene/SceneManager.cs:257-286 | an accepted load of one scene changes no query answer, and no acceptance, for another |
| `SceneManager.UnloadEach` | Runtime/Core/Scene/SceneManager.cs:133-143 | the loop leaves the loaded and loading lists alone and issues at most one unload per snapshot entry |
| `SceneManager.Shutdown` | Runtime/Core/Scene/SceneManager.cs:131-148 | a completed shutdown leaves all three lists empty |
| `SceneManager.UnloadEachIssuesPending` | Runtime/Core/Scene/SceneManager.cs:135-143 | under the invariant, the loop never throws and unloads exactly the pending scenes not already being unloaded, in order |
| `SceneManager.ShutdownUnloadsTheRest` | Runtime/Core/Scene/SceneManager.cs:131-148 | under the invariant, shutdown completes, unloads exactly the loaded scenes not being unloaded, in list order, and ends with empty lists |
| `SceneComponent.GetSceneName` | Runtime/Scene/SceneComponent.cs:120-125 | the recorded name, or nothing (a logged error and null) when none is recorded |
| `SceneComponent.SelectActiveScene` | Runtime/Scene/SceneComponent.cs:300-321 | throws exactly when some key is invalid; the sentinel stays `Empty` exactly when every key is loading; otherwise it picks a scene of maximal order among those not loading, the first such in enumeration order |
| `SceneComponent.RefreshSceneOrder` | Runtime/Scene/SceneComponent.cs:296-342 | with no orders, the framework scene; with every ordered scene loading, the framework scene; otherwise the name of the first scene of highest order |
| `SceneComponent.StrictlyHighestIsActivated` | Runtime/Scene/SceneComponent.cs:302-336 | a non-loading scene whose order beats every other is the one activated |
| `SceneComponent.StaleEntryActivatesNullName` | Runtime/Scene/SceneComponent.cs:120-125 | a winning order entry with no recorded name asks for the scene named null |
| `SceneComponent.SetActiveScene` | Runtime/Scene/SceneComponent.cs:344-354 | the target becomes active; the change event fires exactly when it differs from the active scene |
| `SceneComponent.SetActiveSceneTwiceFiresOnce` | Runtime/Scene/SceneComponent.cs:346-351 | activating the same scene again fires nothing |
| `SceneComponent.SetSceneOrder` | Runtime/Scene/SceneComponent.cs:258-286 | logs an invalid address; records the order of a loading scene without refreshing; records and refreshes for a loaded scene, and a strictly highest order makes it active; logs anything else and changes nothing |
| `SceneComponent.UnloadScene` | Runtime/Scene/SceneComponent.cs:235-251 | drops the order entry only after the manager accepts the unload; a rejection keeps it; the name stays |
| `SceneComponent.OnLoadSceneSuccess` | Runtime/Scene/SceneComponent.cs:356-366 | records the name, adds order 0 only when the scene has no order, then refreshes |
| `SceneComponent.OnUnloadSceneSuccess` | Runtime/Scene/SceneComponent.cs:374-380 | removes the scene's name and order entry, keeps every other entry, and refreshes; with every ordered scene loading, the framework scene is activated |

## Left out

- Backend I/O. The resource manager's `LoadScene`, `UnloadScene` and
  `HasAsset` are not part of this model. An accepted request only records the
  address. The backend's answer is one of the four callback functions,
  applied to the state with any address (the invariant lemmas say which
  addresses keep the invariant). A backend that calls back synchronously,
  inside the request, is not modelled.
- `SceneManager.HasScene`, and the three `Get*SceneAssetAddresses` array
  copies. `HasScene` only forwards to the backend's `HasAsset`. The getters
  return a copy of a list.
- Event dispatch. Subscribing and unsubscribing handlers is reduced to one
  flag per handler slot. The event records the scene manager creates, fires and
  releases are reduced to the `SceneEvent` value handed to the handler. Their
  classes are not part of this model.
- The `ReferencePool` internals: double-release and type-mismatch detection,
  and `ClearAll`. The pool's source is not part of this model.
- `TaskBase`, which is not part of this model. Its `Initialize` is assumed to
  store the serial, tag, priority and user data. Its `Clear` is assumed to
  reset exactly those fields.
- The default `OnLoadAssetSuccess` and `OnLoadAssetFailure` hooks of
  `LoadResourceTaskBase`. Both concrete task kinds override them, so they are
  never reached. They do nothing.
- `LoadTasks.OnLoadAssetSuccess` and `LoadTasks.OnLoadAssetFailure`: one
  function serves both task kinds. The two kinds' hooks are identical apart
  from the type of the callback set.
- The concurrency of `EventHelper.GetEventId`. `GetOrAdd` may run the factory
  twice under contention and skip ids. Only the sequential behaviour is
  modelled.
- `EventHelper.GetEventIdKeepsValid` assumes that `s_NextEventId` is below
  `int.MaxValue`. The run lemmas (`EventHelper.GetEventIds` and those about
  it) assume that the counter plus the number of requests in the run stays
  within `int.MaxValue`. This also excludes some runs that could not wrap,
  such as repeated requests for a known type near the bound.
  `LoadTasks.SerialsStrictlyIncrease` assumes the same about `s_Serial` and
  the number of tasks created. `Int32.Increment` models the wrap-around itself.
- Unity. This covers `Awake` and `Start`, `Camera` and `RefreshMainCamera`,
  and `GetSceneByName` with its validity check. It also covers the cast of
  the loaded asset to `Scene`, whose name is passed in directly. Activation
  is an output, the framework scene or a scene name, and is not performed.
- Logging, and the component's `OnLoadSceneFailure` and
  `OnUnloadSceneFailure`, which only log and fire events. The component's
  `OnLoadSceneSuccess` and `OnUnloadSceneSuccess` also fire an event
  through the event component before refreshing, so it is fired even when
  the refresh throws; that event is not modelled. The component's
  `LoadScene` and `HasScene` only forward to the manager.
- Dictionary enumeration order. `RefreshSceneOrder` enumerates `m_SceneOrder`
  in an order the model takes as a parameter, `keys`, which lists exactly the
  dictionary's keys. Every property holds for any such order.
- `OpenUIFormFailureEvents.Create`, `LoadSceneFailureEvents.Create`,
  `NetworkClosedEvents.Create` and `PlaySoundSuccessEvents.Create` assume
  the inner event `e` is non-null. In the source, a null `e` raises
  `NullReferenceException`. In the first three it does so after the
  acquire has taken an instance from the pool. In `PlaySoundSuccessEvents`
  it does so before the acquire, when the user data is read.
- Floating-point values (`duration`, `Progress`) are opaque bit patterns, and
  `DateTime` start times are opaque integers. The model does no arithmetic on
  either.
