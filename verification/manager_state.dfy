/** The state owned by `AssetBundleManager`, the services it consults, and
    the invariants the engine relies on. */
module ManagerState {
  import opened Basics
  import opened Pools
  import opened BundlePaths
  import opened WebRequester
  import opened BundleLoader
  import opened WeakRefs

  /** Where `AssetsPathMapping.MapAssetPath` places an asset. */
  datatype AssetAddress = AssetAddress(bundle: string, asset: string)

  /** The collaborators the manager consults and never changes. */
  datatype Env = Env(
    config: Config,
    host: Host,
    manifest: Option<string -> seq<string>>,          // Manifest.GetAllDependencies; null before Initialize
    mapAssetPath: string -> Option<AssetAddress>,     // AssetsPathMapping.MapAssetPath
    bundleOfAsset: string -> string,                  // AssetsPathMapping.GetAssetBundleName
    allAssetNames: string -> seq<string>,             // AssetsPathMapping.GetAllAssetNames
    luaBundleName: string,                            // XLuaManager.AssetbundleName
    isScene: BundleId -> bool,                        // AssetBundle.isStreamedSceneAssetBundle
    loadAsset: (BundleId, string) -> Option<AssetId>, // AssetBundle.LoadAsset
    isTextAsset: AssetId -> bool,                     // `asset is TextAsset`
    downloadUrl: string)                              // URLSetting.SERVER_RESOURCE_URL; "" when unset

  /** What the platform reports during one tick: the status of each
      requester's in-flight request, and whether `Start`'s platform call for
      a requester returned a request object. */
  datatype Io = Io(status: nat -> IoStatus, created: nat -> bool)

  // ---------------------------------------------------------------------
  // Asset loaders

  /** What an `AssetAsyncLoader` holds: an asset taken from the cache, or the
      bundle loader it waits on. */
  datatype AssetSource = NoSource | Cached(asset: Option<AssetId>) | Awaiting(loader: nat)

  datatype AssetLoader = AssetLoader(sequence: nat, assetName: string, source: AssetSource, isOver: bool)

  function NewAssetLoader(sequence: nat): AssetLoader {
    AssetLoader(sequence, [], NoSource, false)
  }

  /** Poll of an asset loader: it completes together with its bundle loader;
      one initialised from the cache is complete from the start. */
  function UpdateAssetLoader(a: AssetLoader, loaders: map<nat, Loader>): (a': AssetLoader)
    ensures a.isOver ==> a' == a
    ensures !a.isOver && a.source.Awaiting? && a.source.loader in loaders ==>
              (a'.isOver <==> loaders[a.source.loader].isOver)
    ensures a'.assetName == a.assetName && a'.source == a.source
  {
    if a.isOver then a
    else if a.source.Awaiting? && a.source.loader in loaders && loaders[a.source.loader].isOver
    then a.(isOver := true)
    else a
  }

  // ---------------------------------------------------------------------
  // Manager state

  /** The maximal number of requests in progress at once. */
  const MaxAssetBundleCreateNum: nat := 5

  datatype State = State(
    bundles: map<string, Handle>,          // _assetbundleCaching; a null handle records an error
    assets: map<string, nat>,              // _assetsCaching: asset name -> weak reference
    lua: map<string, Option<AssetId>>,     // _luaAssetsCaching
    requesting: map<string, nat>,          // _webRequesting: key -> requester
    queue: seq<nat>,                       // _webRequesterQueue, oldest first
    processing: seq<nat>,                  // _processingWebRequester
    bundleLoading: seq<nat>,               // _processingAssetBundleAsyncLoader
    assetLoading: seq<nat>,                // _processingAssetAsyncLoader
    requesters: Pool<Requester>,
    loaders: Pool<Loader>,
    assetLoaders: Pool<AssetLoader>,
    weakRefs: Pool<WeakRef>)

  /** The state of a freshly created manager. */
  function Initial(): (s: State)
    ensures Valid(s) && UniqueInFlight(s)
  {
    State(map[], map[], map[], map[], [], [], [], [], Empty(), Empty(), Empty(), Empty())
  }

  /** Every identity the manager stores names an existing object. */
  ghost predicate Valid(s: State) {
    && Pools.Valid(s.requesters) && Pools.Valid(s.loaders)
    && Pools.Valid(s.assetLoaders) && Pools.Valid(s.weakRefs)
    && (forall i :: 0 <= i < |s.queue| ==> s.queue[i] in s.requesters.objs)
    && (forall i :: 0 <= i < |s.processing| ==> s.processing[i] in s.requesters.objs)
    && (forall k :: k in s.requesting ==> s.requesting[k] in s.requesters.objs)
    && (forall i :: 0 <= i < |s.bundleLoading| ==> s.bundleLoading[i] in s.loaders.objs)
    && (forall i :: 0 <= i < |s.assetLoading| ==> s.assetLoading[i] in s.assetLoaders.objs)
    && (forall k :: k in s.assets ==> s.assets[k] in s.weakRefs.objs)
  }

  /** Rearranging the requesters in flight and replacing the requester pool
      by a well-formed one with the same identities keeps the state well
      formed. */
  lemma ValidWithFlight(s: State, queue: seq<nat>, processing: seq<nat>, requesters: Pool<Requester>)
    requires Valid(s) && Pools.Valid(requesters) && requesters.objs.Keys == s.requesters.objs.Keys
    requires forall x :: x in queue ==> x in s.queue || x in s.processing
    requires forall x :: x in processing ==> x in s.queue || x in s.processing
    ensures Valid(s.(queue := queue, processing := processing, requesters := requesters))
  {
    forall i | 0 <= i < |queue|
      ensures queue[i] in requesters.objs
    {
      assert queue[i] in queue;
    }
    forall i | 0 <= i < |processing|
      ensures processing[i] in requesters.objs
    {
      assert processing[i] in processing;
    }
  }

  /** Replacing the asset cache and the weak-reference pool by a
      well-formed pool with the same identities that holds every cached
      reference keeps the state well formed. */
  lemma ValidWithCache(s: State, assets: map<string, nat>, refs: Pool<WeakRef>)
    requires Valid(s) && Pools.Valid(refs) && refs.objs.Keys == s.weakRefs.objs.Keys
    requires forall k :: k in assets ==> assets[k] in refs.objs
    ensures Valid(s.(assets := assets, weakRefs := refs))
  {
  }

  /** The requesters queued or in progress. */
  function InFlight(s: State): seq<nat> {
    s.queue + s.processing
  }

  /** The name a requester is registered under. */
  function NameOf(s: State, id: nat): string
    requires id in s.requesters.objs
  {
    s.requesters.objs[id].name
  }

  /** At most one requester per key: the requesting map is a bijection
      between its keys and the requesters in flight, each registered under its
      own name; no requester in flight sits in the pool, and none sits in it
      twice (so no requester is ever handed out twice). */
  ghost predicate UniqueInFlight(s: State)
    requires Valid(s)
  {
    && Distinct(InFlight(s))
    && (forall k :: k in s.requesting ==>
          s.requesting[k] in InFlight(s) && NameOf(s, s.requesting[k]) == k)
    && (forall i :: 0 <= i < |InFlight(s)| ==>
          NameOf(s, InFlight(s)[i]) in s.requesting
          && s.requesting[NameOf(s, InFlight(s)[i])] == InFlight(s)[i])
    && (forall i :: 0 <= i < |s.requesters.free| ==> s.requesters.free[i] !in InFlight(s))
    && Distinct(s.requesters.free)
  }

  /** The flight invariant depends on the requests alone. */
  lemma UniqueInFlightFrame(s: State, s': State)
    requires Valid(s) && Valid(s') && UniqueInFlight(s)
    requires s'.queue == s.queue && s'.processing == s.processing
    requires s'.requesters == s.requesters && s'.requesting == s.requesting
    ensures UniqueInFlight(s')
  {
  }

  /** The key property the invariant exists for: two requesters in flight
      never share a key. */
  lemma AtMostOneRequesterPerKey(s: State, a: nat, b: nat)
    requires Valid(s) && UniqueInFlight(s)
    requires a in InFlight(s) && b in InFlight(s)
    requires NameOf(s, a) == NameOf(s, b)
    ensures a == b
  {
  }

  /** `IsProcessRunning`: some requester, bundle loader or asset loader is
      still being polled. Requesters that are only queued do not count: the
      manager is idle exactly when everything in flight is still queued and
      no loader is polled. */
  predicate IsProcessRunning(s: State): (r: bool)
    ensures !r <==> InFlight(s) == s.queue && s.bundleLoading == [] && s.assetLoading == []
  {
    |s.processing| != 0 || |s.bundleLoading| != 0 || |s.assetLoading| != 0
  }

  /** `IsAssetBundleLoaded`. */
  predicate IsAssetBundleLoaded(s: State, name: string) {
    name in s.bundles
  }

  /** The result of a manager call together with the state it leaves. */
  datatype Call<R> = Call(state: State, result: R)
}
