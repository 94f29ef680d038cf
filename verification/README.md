# AssetBundle loading engine — a Dafny model

This project models the bundle-loading engine of an xLua/Unity client
framework (`Assets/Scripts/Framework/AssetBundle`) and proves properties of
that model. The engine consists of the following parts:

- **`AssetBundleManager`** registers fetch requests. It keeps the key → requester map (`_webRequesting`), a FIFO backlog and a list of at most five requests in progress. It also holds:
  - the bundle cache, where a finished fetch is cached even when it failed, as a null handle;
  - the weak asset cache;
  - the consume-once Lua asset cache.
- **Pooled `ResourceWebRequester`s** each fetch one bundle or file with one of three strategies.
- **Pooled `AssetBundleAsyncLoader`s** wait until a bundle and its dependencies are all in the bundle cache.
- **`WeakReferenceUtility`** is a pool of reusable weak-reference wrappers.
- **`AssetBundleUtility`** provides pure path and bundle-name functions.

The model is a functional state machine. The manager's state is an immutable
record (`ManagerState.State`). Every pooled object lives in a generic arena
(`Pools.Pool`): a map from identity to object, a FIFO free list, and the static
`sequence` counter. Every manager call is a pure function from a state to a
`Call(state, result)`. `FrameUpdate.Tick` is one frame of the engine's
`Update`, and the method `FrameUpdate.Update` computes it imperatively.

What the platform does is supplied as data:

- **`Io`** gives the status each in-flight request reports when polled, and whether `Start` obtained a request object.
- **`Env`** holds:
  - the manifest;
  - the asset-path mapping;
  - the Lua bundle's name;
  - `isStreamedSceneAssetBundle`;
  - `LoadAsset`, and whether an asset is a `TextAsset`;
  - the download URL;
  - the configuration constants.
- **`Host`** holds:
  - Unity's data roots;
  - `Path.Combine`;
  - `File.Exists`.

Dictionary enumeration order is an explicit argument wherever the original
iterates a dictionary.

| module (file) | models |
|---|---|
| `Basics` (basics.dfy) | nullable values, opaque bundle/asset handles, list helpers |
| `Pools` (pools.dfy) | the three static object pools |
| `BundlePaths` (bundle_paths.dfy) | `AssetBundleUtility` |
| `WebRequester` (web_requester.dfy) | `ResourceWebRequester` |
| `BundleLoader` (bundle_loader.dfy) | `AssetBundleAsyncLoader` |
| `WeakRefs` (weak_refs.dfy) | `WeakReferenceUtility` |
| `ManagerState` (manager_state.dfy) | the manager's fields, its collaborators, the well-formedness and one-requester-per-key invariants |
| `Registration` (registration.dfy) | `CreateAssetBundleAsync`, the `Request*`/`Download*` calls, `LoadAssetBundleAsync`, `GetAssetbundleDependenciesCount` |
| `AssetCache` (asset_cache.dfy) | `GetAssetCache`, `ClearAssetsCache`, the Lua asset cache, `Cleanup` |
| `AssetRequests` (asset_requests.dfy) | `LoadAssetAsync`, `LoadAssetSync`, `LoadAdditiveSceneAsync` |
| `Scheduler` (scheduler.dfy) | `OnProcessingWebRequester`: the retire pass and admission |
| `FrameUpdate` (frame_update.dfy) | the two loader passes and `Update` |

The central invariant is `ManagerState.UniqueInFlight`. It says that the
requesting map is a bijection between its keys and the requesters that are
queued or in progress, and that each such requester is registered under its
own name. It also says that none of them sits in the free pool, and that no
pooled identity is listed twice in the free pool. Every registration call
except the two downloads (`DownloadAssetFileAsync` and
`DownloadAssetBundleAsync`) preserves it, and so does a whole frame.

## Model

| member | source | states |
|---|---|---|
| Pools.Get | Assets/Scripts/Framework/AssetBundle/AsyncOperation/ResourceWebRequester.cs:33-43 | `Get` of both requester and loader pools: a non-empty pool hands out its oldest recycled object and shrinks by it; an empty pool creates object `sequence + 1`, larger than every existing identity |
| Pools.Recycle | Assets/Scripts/Framework/AssetBundle/AsyncOperation/ResourceWebRequester.cs:45-48 | recycling appends the object to the free queue, growing it by one, and changes no object |
| Pools.FreshIdsIncrease | Assets/Scripts/Framework/AssetBundle/AsyncOperation/AssetBundleAsyncLoader.cs:27-37 | from an empty pool, two creations in a row hand out strictly increasing identities, the second one new, so sequence numbers are never shared |
| BundlePaths.PackagePathToAssetsPath | Assets/Scripts/Framework/AssetBundle/Utility/AssetBundleUtility.cs:138-146 | the prefixed path is a package path, and stripping the prefix gives back the argument (round trip) |
| BundlePaths.AssetsPathToPackagePath | Assets/Scripts/Framework/AssetBundle/Utility/AssetBundleUtility.cs:148-160 | a package path is stripped of exactly the assets-folder prefix; any other path is returned unchanged |
| BundlePaths.PackagePathRoundTrip | Assets/Scripts/Framework/AssetBundle/Utility/AssetBundleUtility.cs:138-160 | prefixing after stripping restores every package path, so the two conversions are mutually inverse |
| BundlePaths.AssetBundlePathToAssetBundleName | Assets/Scripts/Framework/AssetBundle/Utility/AssetBundleUtility.cs:116-136 | null exactly for a null or empty path; otherwise the name is the path (relative to the package root when it lies under `Assets/`) with spaces removed and dots turned into underscores, lower-cased, followed by the lower-cased suffix; so it ends with that suffix, the stem before it has no space, dot or upper-case letter, and the name has no upper-case letter, nor a space when the suffix has none |
| BundlePaths.NormalNameOfNormalStem | Assets/Scripts/Framework/AssetBundle/Utility/AssetBundleUtility.cs:116-136 | a non-empty normal stem outside the assets folder is named by that stem followed by the lower-cased suffix, so normalisation is idempotent on stems |
| BundlePaths.NormalStemFixesNormal | Assets/Scripts/Framework/AssetBundle/Utility/AssetBundleUtility.cs:125-132 | space removal, dot replacement and lower-casing leave a normal stem unchanged |
| BundlePaths.LowerAppend | Assets/Scripts/Framework/AssetBundle/Utility/AssetBundleUtility.cs:131-132 | lower-casing after appending the suffix equals appending the lower-cased suffix to the lower-cased stem |
| BundlePaths.RemoveSpaces | Assets/Scripts/Framework/AssetBundle/Utility/AssetBundleUtility.cs:125-126 | the result keeps exactly the characters of the path other than the space |
| BundlePaths.RemoveSpacesAppend | Assets/Scripts/Framework/AssetBundle/Utility/AssetBundleUtility.cs:125-126 | removing spaces from a concatenation removes them from each part, so it works piecewise on the path |
| BundlePaths.NameShape | Assets/Scripts/Framework/AssetBundle/Utility/AssetBundleUtility.cs:130-132 | a normal stem followed by the lower-cased suffix ends with that suffix, gives the stem back when the suffix is cut off, and has no upper-case letter |
| BundlePaths.GetPersistentFilePath | Assets/Scripts/Framework/AssetBundle/Utility/AssetBundleUtility.cs:71-81 | with `wwwUrl` the result is `file://` followed by the persistent data path; without it, the persistent data path itself |
| BundlePaths.GetAssetBundleFileUrl | Assets/Scripts/Framework/AssetBundle/Utility/AssetBundleUtility.cs:104-114 | the persistent file path when the persistent file exists, the streaming-assets path otherwise |
| BundlePaths.FileUrlNamesCheckedFile | Assets/Scripts/Framework/AssetBundle/Utility/AssetBundleUtility.cs:97-114 | when a persistent copy exists, the URL names the very file whose existence was checked, with or without the `file://` scheme |
| WeakRefs.Get | Assets/Scripts/Framework/AssetBundle/Utility/WeakReferenceUtility.cs:13-25 | the wrapper handed out points at the target; a non-empty pool hands out its oldest wrapper and shrinks by one; an empty pool creates a new wrapper; no other wrapper changes |
| WeakRefs.Recover | Assets/Scripts/Framework/AssetBundle/Utility/WeakReferenceUtility.cs:27-36 | null is ignored; otherwise the wrapper's target becomes null and the wrapper joins the end of the pool, with no other wrapper changed |
| WeakRefs.RecoverThenGetReuses | Assets/Scripts/Framework/AssetBundle/Utility/WeakReferenceUtility.cs:13-36 | a recovered wrapper is the next one handed out from an empty pool, then pointing at the new target |
| WebRequester.Init | Assets/Scripts/Framework/AssetBundle/AsyncOperation/ResourceWebRequester.cs:55-66 | sets name, url, noCache, ab, onlyHeader and timeout, resets `isOver` and the web request, and keeps the sequence number and the file-load handle |
| WebRequester.Start | Assets/Scripts/Framework/AssetBundle/AsyncOperation/ResourceWebRequester.cs:109-139 | `ab && onlyHeader` loads from file, `ab && !onlyHeader` downloads a bundle, `!ab` sends a plain GET; a new web request carries the url and timeout; the requester is done exactly when it already was or has no request object |
| WebRequester.Update | Assets/Scripts/Framework/AssetBundle/AsyncOperation/ResourceWebRequester.cs:160-185 | a done requester is unchanged; a web request becomes done iff the poll reports it finished or gives an error; a file load iff it finished |
| WebRequester.Error | Assets/Scripts/Framework/AssetBundle/AsyncOperation/ResourceWebRequester.cs:102 | null exactly when there is no web request or its error string is empty, else that string |
| WebRequester.ErrorEndsPolling | Assets/Scripts/Framework/AssetBundle/AsyncOperation/ResourceWebRequester.cs:167-170 | a web request that reports an error is done even if not finished; its error is visible and its `assetbundle` is null |
| WebRequester.Content | Assets/Scripts/Framework/AssetBundle/AsyncOperation/ResourceWebRequester.cs:83-98 | `assetbundle` is null when the web request failed or there is no request; otherwise it is the bundle of the web request when there is one, else of the file load |
| WebRequester.StartedRequestCompletes | Assets/Scripts/Framework/AssetBundle/AsyncOperation/ResourceWebRequester.cs:83-98 | a started requester completes at the first poll reporting its request finished, whatever its strategy, and unless that poll reports an error its `assetbundle` is what the poll reported |
| WebRequester.RecycledInitIsFresh | Assets/Scripts/Framework/AssetBundle/AsyncOperation/ResourceWebRequester.cs:50-66 | a disposed requester, re-initialised, equals a freshly constructed one with the same sequence number |
| WebRequester.Dispose | Assets/Scripts/Framework/AssetBundle/AsyncOperation/ResourceWebRequester.cs:187-197 | both request handles are cleared, no other requester changes, and the pool grows by exactly this requester |
| BundleLoader.Init | Assets/Scripts/Framework/AssetBundle/AsyncOperation/AssetBundleAsyncLoader.cs:49-74 | the target is awaited iff it is not cached as a non-null bundle, every other name iff it is a listed dependency not in the cache; `waitingCount` is the list's length; not done |
| BundleLoader.Update | Assets/Scripts/Framework/AssetBundle/AsyncOperation/AssetBundleAsyncLoader.cs:108-138 | a done loader is unchanged; otherwise exactly the cached names leave the waiting list, the loader completes iff all were cached, and pre-caching is asked for iff it completes with a non-scene bundle |
| BundleLoader.UpdateKeepsSafe | Assets/Scripts/Framework/AssetBundle/AsyncOperation/AssetBundleAsyncLoader.cs:115-134 | a loader that can be polled against a cache can be polled against it again |
| BundleLoader.RunKeepsCover | Assets/Scripts/Framework/AssetBundle/AsyncOperation/AssetBundleAsyncLoader.cs:115-133 | over any run of polls against a growing cache, every name of the closure stays awaited or cached, and a finished loader awaits nothing |
| BundleLoader.CompletionMeansClosureCached | Assets/Scripts/Framework/AssetBundle/AsyncOperation/AssetBundleAsyncLoader.cs:115-133 | a loader completes only once its target and every dependency it was initialised with are in the bundle cache, given the cache only grows |
| BundleLoader.EmptyWaitNeedsOnePoll | Assets/Scripts/Framework/AssetBundle/AsyncOperation/AssetBundleAsyncLoader.cs:128-133 | a loader with nothing to await is not done after `Init` and is done after its first poll |
| BundleLoader.Reset | Assets/Scripts/Framework/AssetBundle/AsyncOperation/AssetBundleAsyncLoader.cs:140-145 | the waiting list is emptied, `waitingCount` zeroed, name and bundle nulled, the sequence number kept |
| BundleLoader.Dispose | Assets/Scripts/Framework/AssetBundle/AsyncOperation/AssetBundleAsyncLoader.cs:140-147 | the loader is reset and appended to the pool, and no other loader changes |
| ManagerState.Initial | Assets/Scripts/Framework/AssetBundle/AssetBundleManager.cs:27-59 | the empty manager is well formed and keeps one requester per key |
| ManagerState.IsProcessRunning | Assets/Scripts/Framework/AssetBundle/AssetBundleManager.cs:137-139 | the manager is idle exactly when no loader is polled and every requester in flight is still only queued; a queued backlog alone does not count as running |
| ManagerState.AtMostOneRequesterPerKey | Assets/Scripts/Framework/AssetBundle/AssetBundleManager.cs:262-275 | under the flight invariant, two requesters in flight with the same name are the same requester |
| Registration.NewRequester | Assets/Scripts/Framework/AssetBundle/AsyncOperation/ResourceWebRequester.cs:33-66 | the requester taken from the pool is initialised with the given fields; it is the oldest pooled one or a new one; nothing else changes |
| Registration.CreateAssetBundleAsync | Assets/Scripts/Framework/AssetBundle/AssetBundleManager.cs:262-275 | false and no change iff the bundle is cached or being requested; otherwise exactly one requester is appended to the backlog and registered under the name; either way the bundle is cached or requested afterwards, and nothing else newly is |
| Registration.CreateAssetBundleAsyncRequester | Assets/Scripts/Framework/AssetBundle/AssetBundleManager.cs:269-271 | the queued requester fetches the bundle (its header only when asked) from the freshest copy, is cached on completion and is not done |
| Registration.CreateAssetBundleAsyncRegisters | Assets/Scripts/Framework/AssetBundle/AssetBundleManager.cs:262-275 | no key is unregistered and at most the bundle's own name is registered |
| Registration.CreateKeepsUnique | Assets/Scripts/Framework/AssetBundle/AssetBundleManager.cs:262-275 | the call never gives a key a second requester |
| Registration.AddRequest | Assets/Scripts/Framework/AssetBundle/AssetBundleManager.cs:280-284 | a key already being requested throws, and nothing is registered or queued; otherwise the requester is registered, appended to the backlog and initialised as asked |
| Registration.AddRequestKeepsUnique | Assets/Scripts/Framework/AssetBundle/AssetBundleManager.cs:343-351 | `Dictionary.Add` registration never gives a key a second requester, whether it throws or not |
| Registration.DownloadWebResourceAsync | Assets/Scripts/Framework/AssetBundle/AssetBundleManager.cs:278-285 | a never-cached plain GET registered under the URL itself; throws iff the URL is already being requested |
| Registration.RequestAssetFileAsync | Assets/Scripts/Framework/AssetBundle/AssetBundleManager.cs:323-340 | a never-cached non-bundle fetch from streaming assets, or from the freshest copy; throws iff the path is already being requested |
| Registration.RequestAssetBundleAsync | Assets/Scripts/Framework/AssetBundle/AssetBundleManager.cs:343-351 | a never-cached full bundle fetch from the freshest copy; throws iff the name is already being requested |
| Registration.DownloadAssetFileAsyncAsWritten | Assets/Scripts/Framework/AssetBundle/AssetBundleManager.cs:288-307 | as written: null and no change iff no download URL is set; never throws; otherwise the key is re-registered to a new never-cached requester for `downloadUrl + filePath`, whose timeout is 0 whatever timeout is asked for |
| Registration.DownloadAssetFileAsync | Assets/Scripts/Framework/AssetBundle/AssetBundleManager.cs:288-307 | null and no change iff no download URL is set; never throws; otherwise the key is re-registered to a new never-cached requester for `downloadUrl + filePath` with the given timeout |
| Registration.AsWrittenIsZeroTimeout | Assets/Scripts/Framework/AssetBundle/AssetBundleManager.cs:288-307 | the download as written is the corrected download asked for timeout 0, whatever timeout it is given |
| Registration.DownloadAssetBundleAsync | Assets/Scripts/Framework/AssetBundle/AssetBundleManager.cs:315-320 | as written: null iff no download URL is set, never throws, and otherwise a never-cached non-bundle download of the path whose timeout is 0, since the timeout it passes on is dropped |
| Registration.DownloadAssetBundleAsyncCorrected | Assets/Scripts/Framework/AssetBundle/AssetBundleManager.cs:315-320 | built on the corrected download: the same call, but the requester carries the caller's timeout |
| Registration.DownloadAssetBundleDropsTimeout | Assets/Scripts/Framework/AssetBundle/AssetBundleManager.cs:298 | with the default timeout of 20, the call as written issues a requester with timeout 0 where the corrected one issues the same requester with timeout 20 |
| Registration.DownloadAssetFileReplacesMapping | Assets/Scripts/Framework/AssetBundle/AssetBundleManager.cs:299-305 | re-downloading a key in flight leaves the earlier requester in flight too, so two requesters share one key and the flight invariant fails |
| Registration.WantedDependencies | Assets/Scripts/Framework/AssetBundle/AssetBundleManager.cs:479-486 | the dependencies requested are exactly those listed that are non-empty and not the bundle itself |
| Registration.RequestDependenciesCover | Assets/Scripts/Framework/AssetBundle/AssetBundleManager.cs:479-486 | after the loop every wanted dependency is cached or being requested; no key is unregistered and every new key is a wanted dependency |
| Registration.NewKeysSpec | Assets/Scripts/Framework/AssetBundle/AssetBundleManager.cs:479-486 | the loop asks for exactly the wanted dependencies that are neither cached nor being requested, each once |
| Registration.CreateAssetBundleAsyncQueues | Assets/Scripts/Framework/AssetBundle/AssetBundleManager.cs:262-275 | a requester the call issues is appended to the backlog, and every requester already queued is left as it was |
| Registration.DependencyStepQueues | Assets/Scripts/Framework/AssetBundle/AssetBundleManager.cs:481-487 | one turn of the loop appends a requester for a wanted dependency not yet known, and none for anything else |
| Registration.DependencyStepKnown | Assets/Scripts/Framework/AssetBundle/AssetBundleManager.cs:481-487 | one turn of the loop makes known exactly the dependency it asks for |
| Registration.RequestDependenciesQueues | Assets/Scripts/Framework/AssetBundle/AssetBundleManager.cs:479-486 | the loop appends to the backlog one bundle requester per newly asked dependency, in manifest order, all sharing `onlyHeader`, and leaves earlier queued requesters as they were |
| Registration.RequestDependenciesKeepUnique | Assets/Scripts/Framework/AssetBundle/AssetBundleManager.cs:479-486 | the dependency loop never gives a key a second requester |
| Registration.LoadAssetBundleAsync | Assets/Scripts/Framework/AssetBundle/AssetBundleManager.cs:465-497 | a new loader for the bundle, not done, is appended to the polled loaders; the bundle cache and the requests in progress are untouched |
| Registration.LoaderWithDependenciesCover | Assets/Scripts/Framework/AssetBundle/AssetBundleManager.cs:474-493 | after the dependency half every awaited dependency other than the empty name and the bundle itself is cached or requested, and only non-empty listed dependencies other than the bundle itself are newly registered |
| Registration.LoadAssetBundleAsyncAwaits | Assets/Scripts/Framework/AssetBundle/AssetBundleManager.cs:474-493 | the loader awaits the bundle iff it is not cached as a non-null bundle, and every other name iff the manifest lists it and it is not cached |
| Registration.LoadAssetBundleAsyncRequests | Assets/Scripts/Framework/AssetBundle/AssetBundleManager.cs:474-496 | no key is unregistered; new keys are the bundle itself or non-empty dependencies the manifest lists |
| Registration.LoadAssetBundleAsyncCovers | Assets/Scripts/Framework/AssetBundle/AssetBundleManager.cs:474-496 | every non-empty name the new loader awaits is cached or being requested |
| Registration.LoaderWithDependenciesQueues | Assets/Scripts/Framework/AssetBundle/AssetBundleManager.cs:474-493 | the dependency half appends one requester per newly asked dependency, in manifest order |
| Registration.LoaderWithDependenciesKeepsUnique | Assets/Scripts/Framework/AssetBundle/AssetBundleManager.cs:474-493 | the dependency half never gives a key a second requester |
| Registration.LoadAssetBundleAsyncQueues | Assets/Scripts/Framework/AssetBundle/AssetBundleManager.cs:474-496 | the backlog becomes the old backlog, then a requester for each newly asked dependency in manifest order, then one for the bundle itself unless it was cached or being requested; all share `onlyHeader` and fetch from the freshest copy |
| Registration.LoadAssetBundleAsyncKeepsUnique | Assets/Scripts/Framework/AssetBundle/AssetBundleManager.cs:474-496 | loading a bundle with its dependencies never gives a key a second requester |
| Registration.EmptyDependencyIsNeverRequested | Assets/Scripts/Framework/AssetBundle/AssetBundleManager.cs:482-488 | an empty dependency name is awaited by the loader but never requested, so unless something else caches it the loader cannot complete |
| Registration.GetAssetbundleDependenciesCount | Assets/Scripts/Framework/AssetBundle/AssetBundleManager.cs:660-674 | throws (`None`) exactly while no manifest is loaded; otherwise the count is the number of listed dependencies that are non-empty and not the bundle itself, the ones `LoadAssetBundleAsync` asks for, and at most the number listed |
| AssetCache.GetAssetCache | Assets/Scripts/Framework/AssetBundle/AssetBundleManager.cs:157-183 | a live cached reference is returned without change; a scene bundle yields null and no change; otherwise the asset is loaded from its bundle and cached under the name behind a new weak reference; whatever is returned is what the cache now reaches |
| AssetCache.GetAssetCacheIsStable | Assets/Scripts/Framework/AssetBundle/AssetBundleManager.cs:157-183 | an asset found once is found again unchanged, without reloading |
| AssetCache.DeadKeys | Assets/Scripts/Framework/AssetBundle/AssetBundleManager.cs:198-207 | the keys collected are exactly those, in enumeration order, whose reference no longer reaches its asset |
| AssetCache.RecoverAll | Assets/Scripts/Framework/AssetBundle/AssetBundleManager.cs:189-192 | every reference recovered loses its target and joins the pool in order; other references are untouched |
| AssetCache.ClearAssetsCache | Assets/Scripts/Framework/AssetBundle/AssetBundleManager.cs:185-216 | only the asset cache and the weak references change, and no wrapper is created or destroyed |
| AssetCache.ClearAllEmptiesCache | Assets/Scripts/Framework/AssetBundle/AssetBundleManager.cs:187-195 | `ClearAssetsCache(true)` empties the asset cache |
| AssetCache.ClearAssetsCacheKeepsLive | Assets/Scripts/Framework/AssetBundle/AssetBundleManager.cs:196-215 | without `clearAll` an entry stays iff its reference still reaches its asset; entries left are unchanged and still live |
| AssetCache.ClearAssetsCacheRecovers | Assets/Scripts/Framework/AssetBundle/AssetBundleManager.cs:185-216 | every reference dropped from the cache goes back to the pool, which only grows at its end |
| AssetCache.ClearDeadIsIdempotent | Assets/Scripts/Framework/AssetBundle/AssetBundleManager.cs:196-215 | dropping the dead entries twice is the same as once |
| AssetCache.AsTextAsset | Assets/Scripts/Framework/AssetBundle/AssetBundleManager.cs:222 | the cast yields the asset itself exactly when it is a non-null text asset, else null |
| AssetCache.GetLuaAssetCache | Assets/Scripts/Framework/AssetBundle/AssetBundleManager.cs:218-223 | returns the cached Lua asset when it is a text asset (null when absent or not text) and removes exactly that entry either way |
| AssetCache.LuaAssetIsConsumedOnce | Assets/Scripts/Framework/AssetBundle/AssetBundleManager.cs:218-223 | a second call for the same name returns null |
| AssetCache.AddAssetbundleAssetsCache | Assets/Scripts/Framework/AssetBundle/AssetBundleManager.cs:225-254 | no change unless the bundle is the Lua bundle and is cached; then every asset the mapping lists is cached as loaded from the bundle (null for a null bundle), and other entries are unchanged |
| AssetCache.LuaAssetsAvailableOnce | Assets/Scripts/Framework/AssetBundle/AssetBundleManager.cs:218-254 | after the Lua bundle's assets are cached, each can be taken exactly once, as the asset loaded from the bundle cast to a text asset |
| AssetCache.Cleanup | Assets/Scripts/Framework/AssetBundle/AssetBundleManager.cs:107-131 | once nothing is polled, the asset, Lua and bundle caches are emptied and every cached reference is recovered |
| AssetCache.CleanupForgetsEverything | Assets/Scripts/Framework/AssetBundle/AssetBundleManager.cs:107-131 | after clean-up no bundle counts as loaded, no Lua or cached asset is found, and the flight invariant still holds |
| AssetRequests.LoadAssetAsync | Assets/Scripts/Framework/AssetBundle/AssetBundleManager.cs:365-397 | null and no change iff the path is unmapped; otherwise a new polled asset loader that is done with the cached asset when the bundle is loaded, or waits on a new loader for the bundle |
| AssetRequests.LoadAssetAsyncKeepsUnique | Assets/Scripts/Framework/AssetBundle/AssetBundleManager.cs:365-397 | an asynchronous asset load never gives a key a second requester |
| AssetRequests.LoadAssetSync | Assets/Scripts/Framework/AssetBundle/AssetBundleManager.cs:399-426 | null and no change for an unmapped path or an unloaded bundle; otherwise only the asset cache changes, and a result is what the cache reaches |
| AssetRequests.SyncAndAsyncAgree | Assets/Scripts/Framework/AssetBundle/AssetBundleManager.cs:365-426 | with the bundle loaded, the asynchronous load hands its loader the asset the synchronous load returns, and caches it alike |
| AssetRequests.LoadAdditiveSceneAsync | Assets/Scripts/Framework/AssetBundle/AssetBundleManager.cs:428-457 | null and no change iff the path is unmapped or its bundle is loaded; otherwise a new asset loader waiting on a bundle loader |
| AssetRequests.LoadAdditiveSceneAsyncKeepsUnique | Assets/Scripts/Framework/AssetBundle/AssetBundleManager.cs:428-457 | a scene load never gives a key a second requester |
| AssetRequests.SceneLoadIsAssetLoad | Assets/Scripts/Framework/AssetBundle/AssetBundleManager.cs:428-457 | for a bundle not yet loaded, loading a scene and loading an asset give the same state and loader |
| Scheduler.RetireOne | Assets/Scripts/Framework/AssetBundle/AssetBundleManager.cs:514-528 | a polled requester that is done is unregistered; unless no-cache, its content (null on error) is published under its key and it is recycled |
| Scheduler.PollFrame | Assets/Scripts/Framework/AssetBundle/AssetBundleManager.cs:512-530 | the pass touches no requester outside the list and only unregisters keys |
| Scheduler.PollKeepsUnfinished | Assets/Scripts/Framework/AssetBundle/AssetBundleManager.cs:512-530 | the pass keeps in progress, in order, exactly the requesters its poll leaves not done |
| Scheduler.PollUnregistersFinished | Assets/Scripts/Framework/AssetBundle/AssetBundleManager.cs:512-530 | the pass unregisters exactly the keys of the requesters that finish |
| Scheduler.PollPublishesKeys | Assets/Scripts/Framework/AssetBundle/AssetBundleManager.cs:512-530 | the bundle cache gains exactly the keys of the cached requesters that finish |
| Scheduler.PollPublishesRetired | Assets/Scripts/Framework/AssetBundle/AssetBundleManager.cs:518-527 | each cached requester that finishes has its content, null on error, published under its key |
| Scheduler.PollPublishesNullOnError | Assets/Scripts/Framework/AssetBundle/AssetBundleManager.cs:518-527 | a cached download that fails is remembered under its key as a null bundle |
| Scheduler.PollKeepsOtherBundles | Assets/Scripts/Framework/AssetBundle/AssetBundleManager.cs:512-530 | every other bundle-cache entry is left alone |
| Scheduler.PollRecyclesRetired | Assets/Scripts/Framework/AssetBundle/AssetBundleManager.cs:512-530 | the pass recycles exactly the cached requesters that finish, last of the list first; no-cache ones are left to their callers |
| Scheduler.RecycledMembers | Assets/Scripts/Framework/AssetBundle/AssetBundleManager.cs:520-528 | a requester is recycled iff it is in the list, finishes now and is cached, each at most once |
| Scheduler.PollKeepsAtMost | Assets/Scripts/Framework/AssetBundle/AssetBundleManager.cs:512-530 | the pass never keeps more requesters than it polls |
| Scheduler.RetirePass | Assets/Scripts/Framework/AssetBundle/AssetBundleManager.cs:512-530 | the retire loop keeps the state well formed, keeps only requesters already in progress, and only unregisters keys |
| Scheduler.RetirePassSpec | Assets/Scripts/Framework/AssetBundle/AssetBundleManager.cs:512-530 | on the manager: keeps the unfinished requesters in order, unregisters exactly the finished keys, recycles the cached finished requesters and leaves each polled |
| Scheduler.RetirePassKeepsUnique | Assets/Scripts/Framework/AssetBundle/AssetBundleManager.cs:512-530 | the retire loop keeps one requester per key |
| Scheduler.StaysRegistered | Assets/Scripts/Framework/AssetBundle/AssetBundleManager.cs:512-530 | a queued requester, or one in progress that is not done, stays registered under its key |
| Scheduler.Slots | Assets/Scripts/Framework/AssetBundle/AssetBundleManager.cs:532-539 | admission never starts more than are queued, never exceeds the cap unless nothing is started, and stops short of the queue only when the cap is reached |
| Scheduler.StartAllFacts | Assets/Scripts/Framework/AssetBundle/AssetBundleManager.cs:535-536 | starting requesters keeps the pool well formed and its free list unchanged, touches no requester outside the list, and leaves each requester of a duplicate-free list started once |
| Scheduler.AdmissionSpec | Assets/Scripts/Framework/AssetBundle/AssetBundleManager.cs:532-539 | the oldest `Slots` queued requesters move, in FIFO order, behind those in progress, each started once; the queue shrinks by exactly that many |
| Scheduler.AdmitLoop | Assets/Scripts/Framework/AssetBundle/AssetBundleManager.cs:532-539 | the `while` loop leaves the queue without its first `Slots` requesters, which it has appended, started, to those in progress |
| Scheduler.Admit | Assets/Scripts/Framework/AssetBundle/AssetBundleManager.cs:532-539 | the loop computes the admission step on the manager state |
| Scheduler.AdmissionKeepsUnique | Assets/Scripts/Framework/AssetBundle/AssetBundleManager.cs:532-539 | admission keeps one requester per key |
| FrameUpdate.PollLoader | Assets/Scripts/Framework/AssetBundle/AssetBundleManager.cs:546-547 | one poll stores the loader's step, changes only loaders and the Lua cache, and adds Lua assets only when it asks to pre-cache them |
| FrameUpdate.LoaderPassKeeps | Assets/Scripts/Framework/AssetBundle/AssetBundleManager.cs:542-553 | the bundle-loader pass keeps, in order, exactly the loaders its poll leaves not done |
| FrameUpdate.LoaderPassUpdates | Assets/Scripts/Framework/AssetBundle/AssetBundleManager.cs:542-553 | the pass leaves each loader of the list as one poll leaves it |
| FrameUpdate.LoaderPassFrame | Assets/Scripts/Framework/AssetBundle/AssetBundleManager.cs:542-553 | the pass touches no loader outside the list |
| FrameUpdate.LoaderPassLua | Assets/Scripts/Framework/AssetBundle/AssetBundleManager.cs:542-553 | the pass only adds Lua assets |
| FrameUpdate.LoaderPassLuaQuiet | Assets/Scripts/Framework/AssetBundle/AssetBundleManager.cs:542-553 | with no poll asking for pre-caching, the Lua cache is unchanged |
| FrameUpdate.LoaderPassIdle | Assets/Scripts/Framework/AssetBundle/AssetBundleManager.cs:542-553 | over loaders already done, the pass changes nothing and keeps none |
| FrameUpdate.PollAssetLoader | Assets/Scripts/Framework/AssetBundle/AssetBundleManager.cs:559-560 | one poll stores the asset loader's step and changes nothing else |
| FrameUpdate.AssetPassKeeps | Assets/Scripts/Framework/AssetBundle/AssetBundleManager.cs:555-566 | the asset-loader pass keeps, in order, exactly the loaders its poll leaves not done |
| FrameUpdate.AssetPassUpdates | Assets/Scripts/Framework/AssetBundle/AssetBundleManager.cs:555-566 | the pass leaves each asset loader of the list as one poll leaves it |
| FrameUpdate.AssetPassIdle | Assets/Scripts/Framework/AssetBundle/AssetBundleManager.cs:555-566 | over asset loaders already done, the pass changes nothing and keeps none |
| FrameUpdate.BundlePassOutcome | Assets/Scripts/Framework/AssetBundle/AssetBundleManager.cs:542-553 | a loader stays in progress iff it was in progress and is not done after the pass |
| FrameUpdate.AssetPassOutcome | Assets/Scripts/Framework/AssetBundle/AssetBundleManager.cs:555-566 | an asset loader stays in progress iff it was in progress and is not done after the pass |
| FrameUpdate.LoaderHalf | Assets/Scripts/Framework/AssetBundle/AssetBundleManager.cs:506-507 | the two loader passes change only the loaders, their lists and the Lua cache |
| FrameUpdate.LoaderHalfBundles | Assets/Scripts/Framework/AssetBundle/AssetBundleManager.cs:542-553 | after the loader half a bundle loader is in progress iff it was and is not done |
| FrameUpdate.LoaderHalfAssets | Assets/Scripts/Framework/AssetBundle/AssetBundleManager.cs:555-566 | after the loader half an asset loader is in progress iff it was and is not done |
| FrameUpdate.Update | Assets/Scripts/Framework/AssetBundle/AssetBundleManager.cs:503-508 | the imperative frame computes `Tick`: requesters, then bundle loaders, then asset loaders |
| FrameUpdate.UpdateFlight | Assets/Scripts/Framework/AssetBundle/AssetBundleManager.cs:510-540 | the requester half caps those in progress at 5 (or their number before), admits only while a slot is free, never grows the queue, keeps one requester per key and publishes exactly the cached finished keys |
| FrameUpdate.TickRequesters | Assets/Scripts/Framework/AssetBundle/AssetBundleManager.cs:503-566 | a frame leaves the asset cache alone, only adds Lua assets, caps the requests in progress, keeps one requester per key and publishes exactly the cached finished keys |
| FrameUpdate.TickIdle | Assets/Scripts/Framework/AssetBundle/AssetBundleManager.cs:503-566 | with nothing in progress and nothing queued, a frame changes nothing |
| FrameUpdate.ProcessingShrinks | Assets/Scripts/Framework/AssetBundle/AssetBundleManager.cs:512-530 | the retire loop never adds a requester in progress |

## Left out

- Editor mode (`AssetBundleConfig.IsEditorMode`, the `#if UNITY_EDITOR` branches) and the editor diagnostics at the end of `AssetBundleManager` are not modelled; they bypass the engine.
- Unity I/O is abstract. This covers `UnityWebRequest`, `LoadFromFileAsync`, `LoadAsset`, `Unload`, `Path.Combine`, `File.Exists` and the data roots. A request's progress is a per-frame `Io` observation. Handles are opaque ids, so `Cleanup`'s bundle unloading is not modelled.
- `Progress()` in both the requester and the loader is not modelled, because it is floating-point and advisory. Neither is `GetAssetBundleAsyncCreator`, which only it uses.
- Logging, and the `text`/`bytes` accessors of the requester, are not modelled.
- `Initialize`, which loads the manifest and the path mapping, is not modelled. The manifest and mapping are `Env` fields, and the manifest is `None` until loaded.
- `Cleanup` is a coroutine. Only its end state is modelled, so the caller must ensure nothing is still being polled.
- `AssetAsyncLoader.cs` is not part of this model. An asset loader is modelled only as "done at once with a cached asset" or "done when its bundle loader is done". How it resolves its asset is left out.
- Garbage collection is not modelled as a process. A weak reference's target is `None` once reclaimed, and `WeakRefs.Reclaim` is the environment step that reclaims it.
- Dictionary enumeration order is not fixed by the original. `ClearAssetsCache` takes it as the `order` argument.
- String handling is simplified. Lower-casing is ASCII-only and comparisons are ordinal. A null string is the empty string, except in `AssetBundlePathToAssetBundleName`, where it is `None`.
- `GetStreamingAssetsFilePath` models only the editor/iOS and Android branches, because the other branch does not assign its result. `GetPlatformName` and `GetStreamingAssetsDataPath` are not used by the engine.
- Pool sequence numbers are unbounded. The C# `int` counter's wrap-around after 2^31 creations is not modelled.
- AssetCache.GetAssetCache: requires a missed asset's bundle to be cached and non-null. The original reads `isStreamedSceneAssetBundle` on it before its null check, so any other call crashes. `AssetRequests.LoadAssetAsync` and `AssetRequests.LoadAssetSync` inherit this as `CanLoadAsset`.
- BundleLoader.Update: requires that a poll which completes the loader finds a non-null bundle. The original dereferences it there, so a failed download of the target crashes the frame. `FrameUpdate.Update` inherits this as `Pollable`.
- FrameUpdate.LoaderHalfBundles: the loader lists are assumed free of duplicates; the same goes for `FrameUpdate.LoaderHalfAssets`, `FrameUpdate.LoaderPassKeeps`, `FrameUpdate.AssetPassKeeps`, `FrameUpdate.BundlePassOutcome` and `FrameUpdate.AssetPassOutcome`. The original lets a caller dispose of a loader that is still being polled. Such a loader can then be handed out and listed again, so this is not an invariant the engine keeps.
- FrameUpdate.TickRequesters: uniqueness of requesters per key is preserved only from a state that has it. `DownloadAssetFileAsync` (and so `DownloadAssetBundleAsync`) breaks it when re-downloading a key that is in flight, as `Registration.DownloadAssetFileReplacesMapping` shows.
- FrameUpdate.LoaderPassUpdates: requires the list of polled loaders to be free of duplicates, for the reason given for `FrameUpdate.LoaderHalfBundles`.
- FrameUpdate.LoaderPassLuaQuiet: requires the list of polled loaders to be free of duplicates, for the same reason.
- FrameUpdate.AssetPassUpdates: requires the list of polled asset loaders to be free of duplicates, for the same reason.
- Callers disposing finished no-cache requesters and finished loaders are not modelled; the engine leaves those objects to them, as in the original. `WebRequester.Dispose` itself is modelled, and used by the retire pass.
- Exceptions are modelled as results: `GetAssetbundleDependenciesCount` answers `None` where the original throws for a missing manifest, and the `Request*` calls answer `KeyAlreadyRequested` where `Dictionary.Add` throws.
- A `TextAsset` is recognised through the `Env` predicate `isTextAsset`; what makes a Unity asset one is not modelled.
- `DownloadHandlerAssetBundle.GetContent` is taken to yield null for a failed web request, as the original's comment on caching failed downloads with a null bundle relies on.

## Findings

| source | as written | input that shows it | evidently intended | confidence | as-written member | corrected member |
|---|---|---|---|---|---|---|
| Assets/Scripts/Framework/AssetBundle/AssetBundleManager.cs:298 | `DownloadAssetFileAsync` calls `Init(filePath, url, true, ab)` without its `timeout` argument, so every download gets timeout 0 (no timeout) | `DownloadAssetBundleAsync(filePath)` with the documented default timeout of 20 and a download URL set: the requester's timeout is 0 | pass `timeout` on to `Init`, so the requester carries the caller's timeout | high (not executed) | Registration.DownloadAssetFileAsyncAsWritten, Registration.DownloadAssetBundleAsync, Registration.DownloadAssetBundleDropsTimeout | Registration.DownloadAssetFileAsync, Registration.DownloadAssetBundleAsyncCorrected |
