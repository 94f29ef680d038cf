/** The asset caches of `AssetBundleManager`: assets held through pooled weak
    references, the consume-once Lua asset cache, and their clean-up. */
module AssetCache {
  import opened Basics
  import Pools
  import opened BundlePaths
  import WeakRefs
  import opened ManagerState

  // ---------------------------------------------------------------------
  // Assets behind weak references

  /** The weak reference cached for `name` still reaches its asset. */
  predicate Hit(s: State, name: string) {
    name in s.assets && s.assets[name] in s.weakRefs.objs && s.weakRefs.objs[s.assets[name]].target.Some?
  }

  /** The bundle `GetAssetCache` consults on a miss. */
  function BundleOfAsset(s: State, env: Env, name: string): Handle {
    Lookup(s.bundles, env.bundleOfAsset(name))
  }

  /** What `GetAssetCache` needs of its caller: on a miss the original reads
      `isStreamedSceneAssetBundle` of the cached bundle before its null
      check, so that bundle must be cached and non-null. */
  predicate CanGetAsset(s: State, env: Env, name: string) {
    Hit(s, name) || BundleOfAsset(s, env, name).Some?
  }

  /** The asset `GetAssetCache` loads on a miss from a non-scene bundle. */
  function LoadedAsset(env: Env, bundle: BundleId, name: string): Option<AssetId> {
    env.loadAsset(bundle, PackagePathToAssetsPath(env.config, name))
  }

  /** `GetAssetCache`: the asset the cached weak reference still reaches;
      otherwise load it from its bundle, remember it behind a fresh weak
      reference and return it. A scene bundle yields null and caches
      nothing. */
  function GetAssetCache(s: State, env: Env, name: string): (c: Call<Option<AssetId>>)
    requires Valid(s) && CanGetAsset(s, env, name)
    ensures Valid(c.state)
    ensures Hit(s, name) ==> c.state == s && c.result == s.weakRefs.objs[s.assets[name]].target
    ensures !Hit(s, name) && env.isScene(BundleOfAsset(s, env, name).value) ==> c == Call(s, None)
    ensures !Hit(s, name) && !env.isScene(BundleOfAsset(s, env, name).value) ==>
              && c.result == LoadedAsset(env, BundleOfAsset(s, env, name).value, name)
              && c.state == s.(assets := c.state.assets, weakRefs := c.state.weakRefs)
              && c.state.assets.Keys == s.assets.Keys + {name}
              && (forall k :: k in s.assets && k != name ==> c.state.assets[k] == s.assets[k])
    // whatever is returned is what the cache now reaches
    ensures c.result.Some? ==> Hit(c.state, name) && c.state.weakRefs.objs[c.state.assets[name]].target == c.result
  {
    if Hit(s, name) then Call(s, s.weakRefs.objs[s.assets[name]].target)
    else
      var bundle := BundleOfAsset(s, env, name).value;
      if env.isScene(bundle) then Call(s, None)
      else
        var asset := LoadedAsset(env, bundle, name);
        var g := WeakRefs.Get(s.weakRefs, asset);
        Call(s.(weakRefs := g.pool, assets := s.assets[name := g.id]), asset)
  }

  /** An asset found once is found again, without reloading, until the
      collector reclaims it. */
  lemma GetAssetCacheIsStable(s: State, env: Env, name: string)
    requires Valid(s) && CanGetAsset(s, env, name)
    requires GetAssetCache(s, env, name).result.Some?
    ensures var c := GetAssetCache(s, env, name);
            CanGetAsset(c.state, env, name) && GetAssetCache(c.state, env, name) == c
  {
  }

  /** The weak references of the asset cache whose assets were reclaimed, in
      the order `order` enumerates the cache. */
  function DeadKeys(s: State, order: seq<string>): (r: seq<string>)
    ensures forall i :: 0 <= i < |r| ==> r[i] in order && !Hit(s, r[i])
    ensures forall i :: 0 <= i < |order| && !Hit(s, order[i]) ==> order[i] in r
    ensures (forall i :: 0 <= i < |order| ==> Hit(s, order[i])) ==> r == []
  {
    Filter(order, (k: string) => !Hit(s, k))
  }

  /** The weak references cached under `keys`, in order. */
  function RefsOf(assets: map<string, nat>, keys: seq<string>): (r: seq<nat>)
    requires forall i :: 0 <= i < |keys| ==> keys[i] in assets
    ensures |r| == |keys| && forall i :: 0 <= i < |keys| ==> r[i] == assets[keys[i]]
  {
    if |keys| == 0 then [] else [assets[keys[0]]] + RefsOf(assets, keys[1..])
  }

  /** `WeakReferenceUtility.Recover` for each reference of `ids`, in order. */
  function RecoverAll(p: Pools.Pool<WeakRefs.WeakRef>, ids: seq<nat>): (q: Pools.Pool<WeakRefs.WeakRef>)
    requires forall i :: 0 <= i < |ids| ==> ids[i] in p.objs
    ensures Pools.Valid(p) ==> Pools.Valid(q)
    ensures q.free == p.free + ids && q.objs.Keys == p.objs.Keys
    ensures forall i :: 0 <= i < |ids| ==> q.objs[ids[i]].target.None?
    ensures forall id :: id in p.objs && id !in ids ==> q.objs[id] == p.objs[id]
    decreases |ids|
  {
    if |ids| == 0 then p
    else
      var q := RecoverAll(WeakRefs.Recover(p, Some(ids[0])), ids[1..]);
      assert forall i :: 1 <= i < |ids| ==> ids[i] == ids[1..][i - 1];
      q
  }

  /** `order` lists every key of the asset cache exactly once: the
      enumeration order of the dictionary, which the original does not fix. */
  predicate Enumerates(s: State, order: seq<string>) {
    && Distinct(order)
    && (forall i :: 0 <= i < |order| ==> order[i] in s.assets)
    && (forall k :: k in s.assets ==> k in order)
  }

  /** `ClearAssetsCache(clearAll)`: with `clearAll`, recover every weak
      reference and empty the cache; otherwise recover and drop exactly the
      entries whose assets were reclaimed. */
  function ClearAssetsCache(s: State, clearAll: bool, order: seq<string>): (s': State)
    requires Valid(s) && Enumerates(s, order)
    ensures Valid(s')
    ensures s' == s.(assets := s'.assets, weakRefs := s'.weakRefs)
    ensures s'.weakRefs.objs.Keys == s.weakRefs.objs.Keys
  {
    var keys := if clearAll then order else DeadKeys(s, order);
    var r := DropEntries(s.assets, s.weakRefs, keys);
    ValidWithCache(s, r.0, r.1);
    s.(assets := r.0, weakRefs := r.1)
  }

  /** The asset cache without the entries of `keys`, and the weak-reference
      pool with their references recovered in the order of `keys`. */
  function DropEntries(assets: map<string, nat>, refs: Pools.Pool<WeakRefs.WeakRef>, keys: seq<string>)
    : (r: (map<string, nat>, Pools.Pool<WeakRefs.WeakRef>))
    requires Pools.Valid(refs) && (forall k :: k in assets ==> assets[k] in refs.objs)
    requires forall i :: 0 <= i < |keys| ==> keys[i] in assets
    ensures Pools.Valid(r.1) && r.1.objs.Keys == refs.objs.Keys
    ensures forall k :: k in r.0 <==> k in assets && k !in keys
    ensures forall k :: k in r.0 ==> r.0[k] == assets[k] && r.0[k] in r.1.objs
    ensures r.1.free == refs.free + RefsOf(assets, keys)
    ensures forall id :: id in refs.objs && id !in RefsOf(assets, keys) ==> r.1.objs[id] == refs.objs[id]
  {
    (map k | k in assets && k !in keys :: assets[k], RecoverAll(refs, RefsOf(assets, keys)))
  }

  /** With `clearAll` the whole asset cache is dropped. */
  lemma ClearAllEmptiesCache(s: State, order: seq<string>)
    requires Valid(s) && Enumerates(s, order)
    ensures ClearAssetsCache(s, true, order).assets == map[]
  {
  }

  /** Without `clearAll` exactly the entries whose asset was reclaimed
      leave the cache; every entry left is unchanged and still reaches its
      asset. */
  lemma ClearAssetsCacheKeepsLive(s: State, clearAll: bool, order: seq<string>)
    requires Valid(s) && Enumerates(s, order)
    ensures var s' := ClearAssetsCache(s, clearAll, order);
            && (!clearAll ==> forall k :: k in s'.assets <==> k in s.assets && Hit(s, k))
            && (forall k :: k in s'.assets ==> s'.assets[k] == s.assets[k] && Hit(s', k))
  {
    var keys := if clearAll then order else DeadKeys(s, order);
    var refs := RefsOf(s.assets, keys);
    var s' := ClearAssetsCache(s, clearAll, order);
    forall k | k in s'.assets
      ensures s'.assets[k] == s.assets[k] && Hit(s', k)
    {
      assert k in order && k !in keys;
      assert Hit(s, k);
      assert s.assets[k] !in refs by {
        forall i | 0 <= i < |keys|
          ensures refs[i] != s.assets[k]
        {
          assert !Hit(s, keys[i]);
        }
      }
    }
  }

  /** Every weak reference dropped from the cache goes back to the end of
      the free list. */
  lemma ClearAssetsCacheRecovers(s: State, clearAll: bool, order: seq<string>)
    requires Valid(s) && Enumerates(s, order)
    ensures var s' := ClearAssetsCache(s, clearAll, order);
            && |s'.weakRefs.free| >= |s.weakRefs.free| && s'.weakRefs.free[..|s.weakRefs.free|] == s.weakRefs.free
            && (forall k :: k in s.assets && k !in s'.assets ==> s.assets[k] in s'.weakRefs.free)
  {
  }

  /** A cache whose every entry still reaches its asset has nothing to drop. */
  lemma ClearLiveCacheKeepsIt(s: State, order: seq<string>)
    requires Valid(s) && Enumerates(s, order)
    requires forall k :: k in s.assets ==> Hit(s, k)
    ensures ClearAssetsCache(s, false, order) == s
  {
  }

  /** Dropping the reclaimed entries a second time changes nothing: after one
      pass every remaining entry still reaches its asset. */
  lemma ClearDeadIsIdempotent(s: State, order: seq<string>, order': seq<string>)
    requires Valid(s) && Enumerates(s, order)
    requires Enumerates(ClearAssetsCache(s, false, order), order')
    ensures var s1 := ClearAssetsCache(s, false, order);
            ClearAssetsCache(s1, false, order') == s1
  {
    ClearLiveCacheKeepsIt(ClearAssetsCache(s, false, order), order');
  }

  // ---------------------------------------------------------------------
  // Lua assets

  /** `asset as TextAsset`: the asset itself when it is a text asset, else
      null. */
  function AsTextAsset(env: Env, a: Option<AssetId>): (r: Option<AssetId>)
    ensures r.Some? <==> a.Some? && env.isTextAsset(a.value)
    ensures r.Some? ==> r == a
  {
    if a.Some? && env.isTextAsset(a.value) then a else None
  }

  /** `GetLuaAssetCache`: hand out the cached Lua asset as a text asset
      (null when there is none or it is not text), and forget it either
      way. */
  function GetLuaAssetCache(s: State, env: Env, name: string): (c: Call<Option<AssetId>>)
    ensures c.result.Some? ==> name in s.lua && s.lua[name] == c.result && env.isTextAsset(c.result.value)
    ensures name in s.lua && s.lua[name].Some? && env.isTextAsset(s.lua[name].value) ==> c.result == s.lua[name]
    ensures c.state == s.(lua := c.state.lua)
    ensures name !in c.state.lua && c.state.lua.Keys == s.lua.Keys - {name}
    ensures forall k :: k in c.state.lua ==> c.state.lua[k] == s.lua[k]
  {
    Call(s.(lua := s.lua - {name}), AsTextAsset(env, Lookup(s.lua, name)))
  }

  /** A Lua asset is handed out at most once. */
  lemma LuaAssetIsConsumedOnce(s: State, env: Env, name: string)
    ensures GetLuaAssetCache(GetLuaAssetCache(s, env, name).state, env, name).result.None?
  {
  }

  /** The Lua asset `AddAssetbundleAssetsCache` caches for `name` out of a
      (possibly null) bundle. */
  function LuaAsset(env: Env, bundle: Handle, name: string): Option<AssetId> {
    if bundle.None? then None else env.loadAsset(bundle.value, PackagePathToAssetsPath(env.config, name))
  }

  /** Cache the Lua asset of each name of `names`, in order. */
  function CacheLuaAssets(lua: map<string, Option<AssetId>>, env: Env, bundle: Handle,
                          names: seq<string>): (r: map<string, Option<AssetId>>)
    ensures r.Keys == lua.Keys + set i | 0 <= i < |names| :: names[i]
    ensures forall i :: 0 <= i < |names| ==> r[names[i]] == LuaAsset(env, bundle, names[i])
    ensures forall k :: k in lua && k !in names ==> r[k] == lua[k]
    decreases |names|
  {
    if |names| == 0 then lua
    else
      var r := CacheLuaAssets(lua[names[0] := LuaAsset(env, bundle, names[0])], env, bundle, names[1..]);
      assert forall i :: 1 <= i < |names| ==> names[i] == names[1..][i - 1];
      assert (set i | 0 <= i < |names| :: names[i]) == {names[0]} + set i | 0 <= i < |names[1..]| :: names[1..][i];
      r
  }

  /** `AddAssetbundleAssetsCache`: only for the Lua bundle, and only once it
      is in the bundle cache, load every asset the path mapping lists for it
      into the Lua cache (null for each when the bundle itself is null). */
  function AddAssetbundleAssetsCache(s: State, env: Env, name: string): (s': State)
    ensures s' == s.(lua := s'.lua)
    ensures name != env.luaBundleName || name !in s.bundles ==> s' == s
    ensures name == env.luaBundleName && name in s.bundles ==>
              && s'.lua.Keys == s.lua.Keys + (set i | 0 <= i < |env.allAssetNames(name)| :: env.allAssetNames(name)[i])
              && (forall a :: a in env.allAssetNames(name) ==> s'.lua[a] == LuaAsset(env, s.bundles[name], a))
              && (forall k :: k in s.lua && k !in env.allAssetNames(name) ==> s'.lua[k] == s.lua[k])
  {
    if name != env.luaBundleName || name !in s.bundles then s
    else s.(lua := CacheLuaAssets(s.lua, env, s.bundles[name], env.allAssetNames(name)))
  }

  /** Every asset of a loaded Lua bundle can be taken exactly once after the
      bundle's assets were cached. */
  lemma LuaAssetsAvailableOnce(s: State, env: Env, a: string)
    requires env.luaBundleName in s.bundles && a in env.allAssetNames(env.luaBundleName)
    ensures var s1 := AddAssetbundleAssetsCache(s, env, env.luaBundleName);
            var c := GetLuaAssetCache(s1, env, a);
            && c.result == AsTextAsset(env, LuaAsset(env, s.bundles[env.luaBundleName], a))
            && GetLuaAssetCache(c.state, env, a).result.None?
  {
  }

  // ---------------------------------------------------------------------
  // Clean-up

  /** `Cleanup`, once no request or loader is being polled any more: recover
      every weak reference and empty the asset, Lua and bundle caches. */
  function Cleanup(s: State, order: seq<string>): (s': State)
    requires Valid(s) && !IsProcessRunning(s) && Enumerates(s, order)
    ensures Valid(s')
    ensures s'.assets == map[] && s'.lua == map[] && s'.bundles == map[]
    ensures s' == s.(assets := map[], lua := map[], bundles := map[], weakRefs := s'.weakRefs)
    ensures forall k :: k in s.assets ==> s.assets[k] in s'.weakRefs.free
  {
    ClearAssetsCache(s, true, order).(lua := map[], bundles := map[])
  }

  /** After `Cleanup` no bundle counts as loaded and no Lua asset is left, and
      the flight invariant still holds. */
  lemma CleanupForgetsEverything(s: State, env: Env, order: seq<string>, name: string)
    requires Valid(s) && UniqueInFlight(s) && !IsProcessRunning(s) && Enumerates(s, order)
    ensures var s' := Cleanup(s, order);
            && !IsAssetBundleLoaded(s', name) && GetLuaAssetCache(s', env, name).result.None?
            && !Hit(s', name) && UniqueInFlight(s')
  {
  }
}
