/** The asset-level load API of `AssetBundleManager`: resolve an asset path
    through the path mapping, then serve the asset from the cache or start
    loading its bundle. */
module AssetRequests {
  import opened Basics
  import Pools
  import opened ManagerState
  import opened Registration
  import opened AssetCache

  /** `AssetAsyncLoader.Get()` followed by adding it to the polled asset
      loaders. */
  function StartAssetLoader(s: State): (c: Call<nat>)
    requires Valid(s)
    ensures Valid(c.state)
    ensures c.state == s.(assetLoaders := c.state.assetLoaders, assetLoading := c.state.assetLoading)
    ensures c.state.assetLoading == s.assetLoading + [c.result]
    ensures c.result in c.state.assetLoaders.objs
  {
    var g := Pools.Get(s.assetLoaders, NewAssetLoader);
    Call(s.(assetLoaders := g.pool, assetLoading := s.assetLoading + [g.id]), g.id)
  }

  /** `AssetAsyncLoader.Init(assetName, source)`: a loader given the asset
      itself is complete at once; one given a bundle loader waits for it. */
  function InitAssetLoader(s: State, id: nat, assetName: string, source: AssetSource): (s': State)
    requires Valid(s) && id in s.assetLoaders.objs
    ensures Valid(s')
    ensures s' == s.(assetLoaders := s'.assetLoaders)
    ensures id in s'.assetLoaders.objs
    ensures var a := s'.assetLoaders.objs[id];
            a.assetName == assetName && a.source == source && (a.isOver <==> source.Cached?)
  {
    var a := s.assetLoaders.objs[id].(assetName := assetName, source := source, isOver := source.Cached?);
    s.(assetLoaders := Pools.Put(s.assetLoaders, id, a))
  }

  /** What `LoadAssetAsync` and `LoadAssetSync` need of their caller: when the
      asset's bundle is loaded, `GetAssetCache` must be able to serve it. */
  predicate CanLoadAsset(s: State, env: Env, assetPath: string) {
    var addr := env.mapAssetPath(assetPath);
    addr.Some? && addr.value.bundle in s.bundles ==> CanGetAsset(s, env, addr.value.asset)
  }

  /** `LoadAssetAsync`: null for a path the mapping does not know; otherwise a
      new polled asset loader, complete at once with the cached asset when
      the bundle is loaded, or waiting on a new bundle loader (loading the
      bundle header only) when it is not. */
  function LoadAssetAsync(s: State, env: Env, assetPath: string): (c: Call<Option<nat>>)
    requires Valid(s) && CanLoadAsset(s, env, assetPath)
    ensures Valid(c.state)
    ensures c.result.None? <==> env.mapAssetPath(assetPath).None?
    ensures c.result.None? ==> c.state == s
    ensures c.result.Some? ==>
              && c.state.assetLoading == s.assetLoading + [c.result.value]
              && c.result.value in c.state.assetLoaders.objs
              && var a := c.state.assetLoaders.objs[c.result.value];
                 var addr := env.mapAssetPath(assetPath).value;
                 && a.assetName == addr.asset
                 && (addr.bundle in s.bundles ==>
                       a.isOver && a.source == Cached(GetAssetCache(s, env, addr.asset).result))
                 && (addr.bundle !in s.bundles ==>
                       && !a.isOver && a.source.Awaiting?
                       && |c.state.bundleLoading| == |s.bundleLoading| + 1
                       && a.source.loader == c.state.bundleLoading[|s.bundleLoading|]
                       && a.source.loader in c.state.loaders.objs
                       && c.state.loaders.objs[a.source.loader].name == addr.bundle)
  {
    match env.mapAssetPath(assetPath)
    case None => Call(s, None)
    case Some(addr) =>
      var a := StartAssetLoader(s);
      if addr.bundle in s.bundles then
        var got := GetAssetCache(a.state, env, addr.asset);
        Call(InitAssetLoader(got.state, a.result, addr.asset, Cached(got.result)), Some(a.result))
      else
        var l := LoadAssetBundleAsync(a.state, env, addr.bundle, true);
        Call(InitAssetLoader(l.state, a.result, addr.asset, Awaiting(l.result)), Some(a.result))
  }

  /** Starting an asset loader touches no requester, so it keeps the flight
      invariant. */
  lemma StartAssetLoaderKeepsUnique(s: State)
    requires Valid(s) && UniqueInFlight(s)
    ensures UniqueInFlight(StartAssetLoader(s).state)
  {
  }

  /** An asset loader set to wait on a new bundle loader leaves the flight
      invariant as `LoadAssetBundleAsync` does: intact. */
  lemma AwaitBundleKeepsUnique(s: State, env: Env, bundle: string, asset: string)
    requires Valid(s) && UniqueInFlight(s)
    ensures var a := StartAssetLoader(s);
            var l := LoadAssetBundleAsync(a.state, env, bundle, true);
            UniqueInFlight(InitAssetLoader(l.state, a.result, asset, Awaiting(l.result)))
  {
    var a := StartAssetLoader(s);
    StartAssetLoaderKeepsUnique(s);
    var l := LoadAssetBundleAsync(a.state, env, bundle, true);
    LoadAssetBundleAsyncKeepsUnique(a.state, env, bundle, true);
    UniqueInFlightFrame(l.state, InitAssetLoader(l.state, a.result, asset, Awaiting(l.result)));
  }

  /** An asset loader completed at once from the cache touches no
      requester. */
  lemma CachedAssetKeepsUnique(s: State, env: Env, asset: string)
    requires Valid(s) && UniqueInFlight(s)
    requires CanGetAsset(StartAssetLoader(s).state, env, asset)
    ensures var a := StartAssetLoader(s);
            var got := GetAssetCache(a.state, env, asset);
            UniqueInFlight(InitAssetLoader(got.state, a.result, asset, Cached(got.result)))
  {
    var a := StartAssetLoader(s);
    StartAssetLoaderKeepsUnique(s);
    var got := GetAssetCache(a.state, env, asset);
    UniqueInFlightFrame(a.state, got.state);
    UniqueInFlightFrame(got.state, InitAssetLoader(got.state, a.result, asset, Cached(got.result)));
  }

  /** `LoadAssetAsync` never gives a key a second requester. */
  lemma LoadAssetAsyncKeepsUnique(s: State, env: Env, assetPath: string)
    requires Valid(s) && CanLoadAsset(s, env, assetPath) && UniqueInFlight(s)
    ensures UniqueInFlight(LoadAssetAsync(s, env, assetPath).state)
  {
    match env.mapAssetPath(assetPath)
    case None =>
    case Some(addr) =>
      if addr.bundle in s.bundles {
        CachedAssetKeepsUnique(s, env, addr.asset);
      } else {
        AwaitBundleKeepsUnique(s, env, addr.bundle, addr.asset);
      }
  }

  /** `LoadAssetSync`: the cached asset when its bundle is loaded; null for
      an unknown path or a bundle not loaded yet. */
  function LoadAssetSync(s: State, env: Env, assetPath: string): (c: Call<Option<AssetId>>)
    requires Valid(s) && CanLoadAsset(s, env, assetPath)
    ensures Valid(c.state)
    ensures env.mapAssetPath(assetPath).None? || env.mapAssetPath(assetPath).value.bundle !in s.bundles ==>
              c == Call(s, None)
    ensures c.state == s.(assets := c.state.assets, weakRefs := c.state.weakRefs)
    ensures c.result.Some? ==>
              var name := env.mapAssetPath(assetPath).value.asset;
              Hit(c.state, name) && c.state.weakRefs.objs[c.state.assets[name]].target == c.result
  {
    match env.mapAssetPath(assetPath)
    case None => Call(s, None)
    case Some(addr) =>
      if addr.bundle in s.bundles then GetAssetCache(s, env, addr.asset) else Call(s, None)
  }

  /** When the bundle is loaded the asynchronous load hands its loader the
      very asset the synchronous load returns, and caches it alike. */
  lemma SyncAndAsyncAgree(s: State, env: Env, assetPath: string)
    requires Valid(s) && CanLoadAsset(s, env, assetPath)
    requires env.mapAssetPath(assetPath).Some? && env.mapAssetPath(assetPath).value.bundle in s.bundles
    ensures var sync := LoadAssetSync(s, env, assetPath);
            var async := LoadAssetAsync(s, env, assetPath);
            && async.state.assetLoaders.objs[async.result.value].source == Cached(sync.result)
            && async.state.assets == sync.state.assets && async.state.weakRefs == sync.state.weakRefs
  {
  }

  /** `LoadAdditiveSceneAsync`: null for an unknown path and for a scene
      bundle already loaded; otherwise an asset loader waiting on a new
      bundle loader. */
  function LoadAdditiveSceneAsync(s: State, env: Env, assetPath: string): (c: Call<Option<nat>>)
    requires Valid(s)
    ensures Valid(c.state)
    ensures c.result.None? <==>
              env.mapAssetPath(assetPath).None? || env.mapAssetPath(assetPath).value.bundle in s.bundles
    ensures c.result.None? ==> c.state == s
    ensures c.result.Some? ==>
              && c.state.assetLoading == s.assetLoading + [c.result.value]
              && c.result.value in c.state.assetLoaders.objs
              && !c.state.assetLoaders.objs[c.result.value].isOver
              && c.state.assetLoaders.objs[c.result.value].source.Awaiting?
  {
    match env.mapAssetPath(assetPath)
    case None => Call(s, None)
    case Some(addr) =>
      if addr.bundle in s.bundles then Call(s, None)
      else
        var a := StartAssetLoader(s);
        var l := LoadAssetBundleAsync(a.state, env, addr.bundle, true);
        Call(InitAssetLoader(l.state, a.result, addr.asset, Awaiting(l.result)), Some(a.result))
  }

  /** `LoadAdditiveSceneAsync` never gives a key a second requester. */
  lemma LoadAdditiveSceneAsyncKeepsUnique(s: State, env: Env, assetPath: string)
    requires Valid(s) && UniqueInFlight(s)
    ensures UniqueInFlight(LoadAdditiveSceneAsync(s, env, assetPath).state)
  {
    var addr := env.mapAssetPath(assetPath);
    if addr.Some? && addr.value.bundle !in s.bundles {
      SceneLoadIsAssetLoad(s, env, assetPath);
      LoadAssetAsyncKeepsUnique(s, env, assetPath);
    }
  }

  /** For a bundle not loaded yet, loading a scene is loading an asset:
      both calls leave the same state and hand out the same loader. */
  lemma SceneLoadIsAssetLoad(s: State, env: Env, assetPath: string)
    requires Valid(s)
    requires env.mapAssetPath(assetPath).Some? && env.mapAssetPath(assetPath).value.bundle !in s.bundles
    ensures CanLoadAsset(s, env, assetPath)
    ensures LoadAdditiveSceneAsync(s, env, assetPath) == LoadAssetAsync(s, env, assetPath)
  {
  }
}
