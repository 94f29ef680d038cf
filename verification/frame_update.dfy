/** `AssetBundleManager.Update`, run once per frame: the requester pass and
    admission, then a backward pass over the bundle loaders in progress,
    then one over the asset loaders in progress. */
module FrameUpdate {
  import opened Basics
  import Pools
  import BundleLoader
  import opened ManagerState
  import AssetCache
  import Scheduler

  /** The outcome of a backward pass over a list of loaders: the state it
      leaves and the loaders it kept in progress, in their original order. */
  datatype Swept = Swept(state: State, kept: seq<nat>)

  // ---------------------------------------------------------------------
  // Bundle loaders

  /** Every loader of `ids` exists and can be polled against the bundle
      cache without dereferencing a null bundle. */
  predicate Pollable(s: State, ids: seq<nat>) {
    forall i :: 0 <= i < |ids| ==>
      ids[i] in s.loaders.objs && BundleLoader.SafeToUpdate(s.loaders.objs[ids[i]], s.bundles)
  }

  /** One poll of a bundle loader against the current bundle cache. */
  function Stepped(s: State, env: Env, id: nat): BundleLoader.Step
    requires id in s.loaders.objs && BundleLoader.SafeToUpdate(s.loaders.objs[id], s.bundles)
  {
    BundleLoader.Update(s.loaders.objs[id], s.bundles, env.isScene)
  }

  /** The poll of the loader asks to pre-cache the assets of the Lua bundle. */
  predicate CachesLua(s: State, env: Env, id: nat)
    requires id in s.loaders.objs && BundleLoader.SafeToUpdate(s.loaders.objs[id], s.bundles)
  {
    Stepped(s, env, id).precache && Stepped(s, env, id).loader.name == env.luaBundleName
  }

  /** Poll one bundle loader: store what the poll leaves and, when the loader
      asked for it, pre-cache the assets of its bundle. */
  function PollLoader(s: State, env: Env, id: nat): (s': State)
    requires Valid(s) && id in s.loaders.objs && BundleLoader.SafeToUpdate(s.loaders.objs[id], s.bundles)
    ensures Valid(s')
    ensures s' == s.(loaders := s'.loaders, lua := s'.lua)
    ensures s'.loaders.objs.Keys == s.loaders.objs.Keys
    ensures s'.loaders.objs[id] == Stepped(s, env, id).loader
    ensures s'.lua.Keys >= s.lua.Keys
    ensures !CachesLua(s, env, id) ==> s'.lua == s.lua
  {
    var st := Stepped(s, env, id);
    var s1 := s.(loaders := Pools.Put(s.loaders, id, st.loader));
    if st.precache then AssetCache.AddAssetbundleAssetsCache(s1, env, st.loader.name) else s1
  }

  /** Polling a loader touches no other loader, and a loader that can be
      polled can be polled again. */
  lemma PollLoaderFrame(s: State, env: Env, id: nat)
    requires Valid(s) && id in s.loaders.objs && BundleLoader.SafeToUpdate(s.loaders.objs[id], s.bundles)
    ensures var s' := PollLoader(s, env, id);
            && (forall other :: other in s.loaders.objs && other != id ==>
                  s'.loaders.objs[other] == s.loaders.objs[other])
            && BundleLoader.SafeToUpdate(s'.loaders.objs[id], s'.bundles)
  {
  }

  /** Polling the last loader of a list leaves the rest of the list
      pollable. */
  lemma PollableStep(s: State, env: Env, ids: seq<nat>)
    requires Valid(s) && Pollable(s, ids) && |ids| > 0
    ensures Pollable(PollLoader(s, env, ids[|ids| - 1]), ids[..|ids| - 1])
  {
  }

  /** `OnProcessingAssetBundleAsyncLoader`: poll the loaders from the last to
      the first, keeping those not done. Finished loaders leave the list;
      their callers dispose of them. */
  function LoaderPass(s: State, env: Env, ids: seq<nat>): (w: Swept)
    requires Valid(s) && Pollable(s, ids)
    ensures Valid(w.state)
    ensures w.state == s.(loaders := w.state.loaders, lua := w.state.lua)
    ensures w.state.loaders.objs.Keys == s.loaders.objs.Keys
    decreases |ids|
  {
    if |ids| == 0 then Swept(s, [])
    else
      var id := ids[|ids| - 1];
      var s1 := PollLoader(s, env, id);
      PollableStep(s, env, ids);
      var w := LoaderPass(s1, env, ids[..|ids| - 1]);
      Swept(w.state, w.kept + if BundleLoader.IsDone(s1.loaders.objs[id]) then [] else [id])
  }

  /** The loaders a pass keeps in progress: those its poll leaves not done. */
  function StillLoading(s: State, env: Env): nat -> bool {
    (id: nat) =>
      id in s.loaders.objs && BundleLoader.SafeToUpdate(s.loaders.objs[id], s.bundles)
      && !Stepped(s, env, id).loader.isOver
  }

  /** Polling the last loader of a list without duplicates leaves the rest
      of the list pollable and untouched. */
  lemma LoaderStep(s: State, env: Env, ids: seq<nat>)
    requires Valid(s) && Pollable(s, ids) && Distinct(ids) && |ids| > 0
    ensures var s1 := PollLoader(s, env, ids[|ids| - 1]);
            var init := ids[..|ids| - 1];
            && Pollable(s1, init) && Distinct(init) && ids[|ids| - 1] !in init
            && (forall i :: 0 <= i < |init| ==> s1.loaders.objs[init[i]] == s.loaders.objs[init[i]])
            && (forall i :: 0 <= i < |init| ==> Stepped(s1, env, init[i]) == Stepped(s, env, init[i]))
  {
  }

  /** The pass touches no loader outside the list. */
  lemma {:induction false} LoaderPassFrame(s: State, env: Env, ids: seq<nat>, other: nat)
    requires Valid(s) && Pollable(s, ids)
    requires other in s.loaders.objs && other !in ids
    ensures LoaderPass(s, env, ids).state.loaders.objs[other] == s.loaders.objs[other]
    decreases |ids|
  {
    if |ids| > 0 {
      var init := ids[..|ids| - 1];
      var last := ids[|ids| - 1];
      var s1 := PollLoader(s, env, last);
      assert s1.loaders.objs[other] == s.loaders.objs[other] by {
        PollLoaderFrame(s, env, last);
      }
      assert other !in init;
      PollableStep(s, env, ids);
      LoaderPassFrame(s1, env, init, other);
    }
  }

  /** The pass leaves each loader of a list without duplicates as one poll
      leaves it. */
  lemma {:induction false} LoaderPassUpdates(s: State, env: Env, ids: seq<nat>, i: nat)
    requires Valid(s) && Pollable(s, ids) && Distinct(ids) && i < |ids|
    ensures LoaderPass(s, env, ids).state.loaders.objs[ids[i]] == Stepped(s, env, ids[i]).loader
    decreases |ids|
  {
    var last := ids[|ids| - 1];
    var init := ids[..|ids| - 1];
    var s1 := PollLoader(s, env, last);
    LoaderStep(s, env, ids);
    if i == |ids| - 1 {
      LoaderPassFrame(s1, env, init, last);
    } else {
      assert ids[i] == init[i];
      LoaderPassUpdates(s1, env, init, i);
    }
  }

  /** The pass keeps in progress, in order, exactly the loaders its poll
      leaves not done. */
  lemma {:induction false} LoaderPassKeeps(s: State, env: Env, ids: seq<nat>)
    requires Valid(s) && Pollable(s, ids) && Distinct(ids)
    ensures LoaderPass(s, env, ids).kept == Filter(ids, StillLoading(s, env))
    decreases |ids|
  {
    if |ids| > 0 {
      var init := ids[..|ids| - 1];
      var last := ids[|ids| - 1];
      var s1 := PollLoader(s, env, last);
      assert LoaderPass(s1, env, init).kept == Filter(init, StillLoading(s, env)) by {
        LoaderStep(s, env, ids);
        LoaderPassKeeps(s1, env, init);
        FilterCongruent(init, StillLoading(s1, env), StillLoading(s, env));
      }
      assert LoaderPass(s, env, ids).kept
          == LoaderPass(s1, env, init).kept + if BundleLoader.IsDone(s1.loaders.objs[last]) then [] else [last];
    }
  }

  /** The pass only ever adds Lua assets to the cache. */
  lemma {:induction false} LoaderPassLua(s: State, env: Env, ids: seq<nat>)
    requires Valid(s) && Pollable(s, ids)
    ensures LoaderPass(s, env, ids).state.lua.Keys >= s.lua.Keys
    decreases |ids|
  {
    if |ids| > 0 {
      var init := ids[..|ids| - 1];
      var s1 := PollLoader(s, env, ids[|ids| - 1]);
      PollableStep(s, env, ids);
      LoaderPassLua(s1, env, init);
    }
  }

  /** A pass in which no poll asks to pre-cache the Lua bundle leaves the Lua
      asset cache as it was. */
  lemma {:induction false} LoaderPassLuaQuiet(s: State, env: Env, ids: seq<nat>)
    requires Valid(s) && Pollable(s, ids) && Distinct(ids)
    requires forall i :: 0 <= i < |ids| ==> !CachesLua(s, env, ids[i])
    ensures LoaderPass(s, env, ids).state.lua == s.lua
    decreases |ids|
  {
    if |ids| > 0 {
      var last := ids[|ids| - 1];
      var init := ids[..|ids| - 1];
      var s1 := PollLoader(s, env, last);
      assert s1.lua == s.lua by {
        assert !CachesLua(s, env, last);
      }
      assert forall i :: 0 <= i < |init| ==> !CachesLua(s1, env, init[i]) by {
        LoaderStep(s, env, ids);
        assert forall i :: 0 <= i < |init| ==> init[i] == ids[i];
      }
      LoaderStep(s, env, ids);
      LoaderPassLuaQuiet(s1, env, init);
    }
  }

  /** A pass over loaders that are all done changes nothing and keeps none. */
  lemma {:induction false} LoaderPassIdle(s: State, env: Env, ids: seq<nat>)
    requires Valid(s) && Pollable(s, ids)
    requires forall i :: 0 <= i < |ids| ==> BundleLoader.IsDone(s.loaders.objs[ids[i]])
    ensures LoaderPass(s, env, ids) == Swept(s, [])
    decreases |ids|
  {
    if |ids| > 0 {
      var init := ids[..|ids| - 1];
      var last := ids[|ids| - 1];
      assert s.loaders.objs[last := s.loaders.objs[last]] == s.loaders.objs;
      assert PollLoader(s, env, last) == s;
      assert forall i :: 0 <= i < |init| ==> init[i] == ids[i];
      LoaderPassIdle(s, env, init);
    }
  }

  // ---------------------------------------------------------------------
  // Asset loaders

  /** Every asset loader of `ids` exists. */
  predicate AssetLoaders(s: State, ids: seq<nat>) {
    forall i :: 0 <= i < |ids| ==> ids[i] in s.assetLoaders.objs
  }

  /** One poll of an asset loader against the current bundle loaders. */
  function AssetStepped(s: State, id: nat): AssetLoader
    requires id in s.assetLoaders.objs
  {
    UpdateAssetLoader(s.assetLoaders.objs[id], s.loaders.objs)
  }

  /** Poll one asset loader and store what the poll leaves. */
  function PollAssetLoader(s: State, id: nat): (s': State)
    requires Valid(s) && id in s.assetLoaders.objs
    ensures Valid(s')
    ensures s' == s.(assetLoaders := s'.assetLoaders)
    ensures s'.assetLoaders.objs.Keys == s.assetLoaders.objs.Keys
    ensures s'.assetLoaders.objs[id] == AssetStepped(s, id)
  {
    s.(assetLoaders := Pools.Put(s.assetLoaders, id, AssetStepped(s, id)))
  }

  /** `OnProcessingAssetAsyncLoader`: poll the asset loaders from the last to
      the first, keeping those not done. */
  function AssetPass(s: State, ids: seq<nat>): (w: Swept)
    requires Valid(s) && AssetLoaders(s, ids)
    ensures Valid(w.state)
    ensures w.state == s.(assetLoaders := w.state.assetLoaders)
    ensures w.state.assetLoaders.objs.Keys == s.assetLoaders.objs.Keys
    decreases |ids|
  {
    if |ids| == 0 then Swept(s, [])
    else
      var id := ids[|ids| - 1];
      var s1 := PollAssetLoader(s, id);
      assert AssetLoaders(s1, ids[..|ids| - 1]) by {
        assert forall i :: 0 <= i < |ids| - 1 ==> ids[..|ids| - 1][i] == ids[i];
      }
      var w := AssetPass(s1, ids[..|ids| - 1]);
      Swept(w.state, w.kept + if s1.assetLoaders.objs[id].isOver then [] else [id])
  }

  /** The asset loaders a pass keeps in progress. */
  function AssetStillLoading(s: State): nat -> bool {
    (id: nat) => id in s.assetLoaders.objs && !AssetStepped(s, id).isOver
  }

  /** Polling the last asset loader of a list without duplicates leaves the
      rest of the list untouched. */
  lemma AssetStep(s: State, ids: seq<nat>)
    requires Valid(s) && AssetLoaders(s, ids) && Distinct(ids) && |ids| > 0
    ensures var s1 := PollAssetLoader(s, ids[|ids| - 1]);
            var init := ids[..|ids| - 1];
            && AssetLoaders(s1, init) && Distinct(init) && ids[|ids| - 1] !in init
            && (forall i :: 0 <= i < |init| ==> AssetStepped(s1, init[i]) == AssetStepped(s, init[i]))
            && (forall other :: other in s.assetLoaders.objs && other != ids[|ids| - 1] ==>
                  s1.assetLoaders.objs[other] == s.assetLoaders.objs[other])
  {
  }

  /** The pass keeps in progress, in order, exactly the asset loaders its
      poll leaves not done. */
  lemma {:induction false} AssetPassKeeps(s: State, ids: seq<nat>)
    requires Valid(s) && AssetLoaders(s, ids) && Distinct(ids)
    ensures AssetPass(s, ids).kept == Filter(ids, AssetStillLoading(s))
    decreases |ids|
  {
    if |ids| > 0 {
      var init := ids[..|ids| - 1];
      var last := ids[|ids| - 1];
      var s1 := PollAssetLoader(s, last);
      assert AssetPass(s1, init).kept == Filter(init, AssetStillLoading(s)) by {
        AssetStep(s, ids);
        AssetPassKeeps(s1, init);
        FilterCongruent(init, AssetStillLoading(s1), AssetStillLoading(s));
      }
      assert AssetPass(s, ids).kept
          == AssetPass(s1, init).kept + if s1.assetLoaders.objs[last].isOver then [] else [last];
    }
  }

  /** The pass leaves each asset loader of a list without duplicates as one
      poll leaves it. */
  lemma {:induction false} AssetPassUpdates(s: State, ids: seq<nat>, i: nat)
    requires Valid(s) && AssetLoaders(s, ids) && Distinct(ids) && i < |ids|
    ensures AssetPass(s, ids).state.assetLoaders.objs[ids[i]] == AssetStepped(s, ids[i])
    decreases |ids|
  {
    var last := ids[|ids| - 1];
    var init := ids[..|ids| - 1];
    var s1 := PollAssetLoader(s, last);
    AssetStep(s, ids);
    if i == |ids| - 1 {
      AssetPassFrame(s1, init, last);
    } else {
      assert ids[i] == init[i];
      AssetPassUpdates(s1, init, i);
    }
  }

  /** The pass touches no asset loader outside the list. */
  lemma {:induction false} AssetPassFrame(s: State, ids: seq<nat>, other: nat)
    requires Valid(s) && AssetLoaders(s, ids)
    requires other in s.assetLoaders.objs && other !in ids
    ensures AssetPass(s, ids).state.assetLoaders.objs[other] == s.assetLoaders.objs[other]
    decreases |ids|
  {
    if |ids| > 0 {
      var init := ids[..|ids| - 1];
      assert other !in init && other != ids[|ids| - 1];
      AssetPassFrame(PollAssetLoader(s, ids[|ids| - 1]), init, other);
    }
  }

  /** A pass over asset loaders that are all done changes nothing and keeps
      none. */
  lemma {:induction false} AssetPassIdle(s: State, ids: seq<nat>)
    requires Valid(s) && AssetLoaders(s, ids)
    requires forall i :: 0 <= i < |ids| ==> s.assetLoaders.objs[ids[i]].isOver
    ensures AssetPass(s, ids) == Swept(s, [])
    decreases |ids|
  {
    if |ids| > 0 {
      var init := ids[..|ids| - 1];
      var last := ids[|ids| - 1];
      assert s.assetLoaders.objs[last := s.assetLoaders.objs[last]] == s.assetLoaders.objs;
      assert PollAssetLoader(s, last) == s;
      assert forall i :: 0 <= i < |init| ==> init[i] == ids[i];
      AssetPassIdle(s, init);
    }
  }

  // ---------------------------------------------------------------------
  // One frame

  /** The larger of two counts. */
  function Larger(a: nat, b: nat): (m: nat)
    ensures m >= a && m >= b && (m == a || m == b)
  {
    if a < b then b else a
  }

  /** The loader half of a frame: poll the bundle loaders in progress, then
      the asset loaders in progress, each list keeping those not done. The
      asset loaders see the bundle loaders as this frame leaves them. */
  function LoaderHalf(s: State, env: Env): (s': State)
    requires Valid(s) && Pollable(s, s.bundleLoading)
    ensures Valid(s')
    ensures s' == s.(loaders := s'.loaders, lua := s'.lua, bundleLoading := s'.bundleLoading,
                     assetLoaders := s'.assetLoaders, assetLoading := s'.assetLoading)
  {
    var w := LoaderPass(s, env, s.bundleLoading);
    LoaderPassKeptIn(s, env, s.bundleLoading);
    WithBundleLoading(w.state, s.bundleLoading, w.kept);
    var s3 := w.state.(bundleLoading := w.kept);
    var v := AssetPass(s3, s3.assetLoading);
    AssetPassKeptIn(s3, s3.assetLoading);
    WithAssetLoading(v.state, s3.assetLoading, v.kept);
    v.state.(assetLoading := v.kept)
  }

  /** One frame on the manager state: the requester pass and admission,
      then the loader half. The bundle loaders are polled against the
      bundle cache as the requester pass leaves it. */
  function Tick(s: State, env: Env, io: Io): (s': State)
    requires Valid(s) && Pollable(Scheduler.RetirePass(s, io), s.bundleLoading)
  {
    var s1 := Scheduler.RetirePass(s, io);
    var s2 := Scheduler.Admission(s1, io);
    assert Pollable(s2, s2.bundleLoading) by {
      assert s2.loaders == s1.loaders && s2.bundles == s1.bundles && s2.bundleLoading == s.bundleLoading;
    }
    LoaderHalf(s2, env)
  }

  /** Replacing the bundle loaders in progress by loaders that exist keeps
      the state well formed. */
  lemma WithBundleLoading(s: State, ids: seq<nat>, kept: seq<nat>)
    requires Valid(s) && s.bundleLoading == ids
    requires forall x :: x in kept ==> x in ids
    ensures Valid(s.(bundleLoading := kept))
  {
    forall i | 0 <= i < |kept|
      ensures kept[i] in s.loaders.objs
    {
      assert kept[i] in kept;
      var j :| 0 <= j < |ids| && ids[j] == kept[i];
    }
  }

  /** Replacing the asset loaders in progress by asset loaders that exist
      keeps the state well formed. */
  lemma WithAssetLoading(s: State, ids: seq<nat>, kept: seq<nat>)
    requires Valid(s) && s.assetLoading == ids
    requires forall x :: x in kept ==> x in ids
    ensures Valid(s.(assetLoading := kept))
  {
    forall i | 0 <= i < |kept|
      ensures kept[i] in s.assetLoaders.objs
    {
      assert kept[i] in kept;
      var j :| 0 <= j < |ids| && ids[j] == kept[i];
    }
  }

  /** The loaders a pass keeps come from the list it polls. */
  lemma {:induction false} LoaderPassKeptIn(s: State, env: Env, ids: seq<nat>)
    requires Valid(s) && Pollable(s, ids)
    ensures forall x :: x in LoaderPass(s, env, ids).kept ==> x in ids
    decreases |ids|
  {
    if |ids| > 0 {
      var init := ids[..|ids| - 1];
      var last := ids[|ids| - 1];
      var s1 := PollLoader(s, env, last);
      PollableStep(s, env, ids);
      var k1 := LoaderPass(s1, env, init).kept;
      var k := LoaderPass(s, env, ids).kept;
      assert k == k1 || k == k1 + [last];
      assert forall x :: x in k1 ==> x in ids by {
        LoaderPassKeptIn(s1, env, init);
        assert forall x :: x in init ==> x in ids;
      }
    }
  }

  /** The asset loaders a pass keeps come from the list it polls. */
  lemma {:induction false} AssetPassKeptIn(s: State, ids: seq<nat>)
    requires Valid(s) && AssetLoaders(s, ids)
    ensures forall x :: x in AssetPass(s, ids).kept ==> x in ids
    decreases |ids|
  {
    if |ids| > 0 {
      var init := ids[..|ids| - 1];
      var last := ids[|ids| - 1];
      var s1 := PollAssetLoader(s, last);
      assert AssetLoaders(s1, init) by {
        assert forall i :: 0 <= i < |init| ==> init[i] == ids[i];
      }
      var k1 := AssetPass(s1, init).kept;
      assert AssetPass(s, ids).kept == k1 + if s1.assetLoaders.objs[last].isOver then [] else [last];
      assert forall x :: x in k1 ==> x in ids by {
        AssetPassKeptIn(s1, init);
        assert forall x :: x in init ==> x in ids;
      }
    }
  }

  /** `Update`, run once per frame. */
  method Update(s: State, env: Env, io: Io) returns (s': State)
    requires Valid(s) && Pollable(Scheduler.RetirePass(s, io), s.bundleLoading)
    ensures s' == Tick(s, env, io)
  {
    var s1 := Scheduler.RetirePass(s, io);
    var s2 := Scheduler.Admit(s1, io);
    assert Pollable(s2, s2.bundleLoading) by {
      assert s2.loaders == s1.loaders && s2.bundles == s1.bundles && s2.bundleLoading == s.bundleLoading;
    }
    s' := LoaderHalf(s2, env);
  }

  /** A frame leaves the asset cache and the weak references alone, only
      ever adds to the Lua asset cache, bounds the requesters in progress by
      `MaxAssetBundleCreateNum` (or by their number before, when above it),
      admits from the queue only while a slot is free, keeps the requesters
      in flight registered uniquely and publishes the bundles of the cached
      requesters that finish. */
  lemma TickRequesters(s: State, env: Env, io: Io)
    requires Valid(s) && Pollable(Scheduler.RetirePass(s, io), s.bundleLoading)
    ensures var s' := Tick(s, env, io);
            && s'.assets == s.assets && s'.weakRefs == s.weakRefs
            && s'.lua.Keys >= s.lua.Keys
            && |s'.processing| <= Larger(|s.processing|, MaxAssetBundleCreateNum)
            && (s'.queue != [] ==> |s'.processing| >= MaxAssetBundleCreateNum)
            && |s'.queue| <= |s.queue|
            && (UniqueInFlight(s) ==> UniqueInFlight(s'))
            && (UniqueInFlight(s) ==>
                  s'.bundles.Keys == s.bundles.Keys + Scheduler.CachedKeys(Scheduler.NetOf(s), io, s.processing))
  {
    var s1 := Scheduler.RetirePass(s, io);
    var s2 := Scheduler.Admission(s1, io);
    var s' := Tick(s, env, io);
    assert s' == LoaderHalf(s2, env);
    assert s'.lua.Keys >= s.lua.Keys by {
      LoaderPassLua(s2, env, s2.bundleLoading);
    }
    UpdateFlight(s, io);
  }

  /** Over a list without duplicates, the loader half keeps in progress
      exactly the bundle loaders it leaves not done. */
  lemma LoaderHalfBundles(s: State, env: Env)
    requires Valid(s) && Pollable(s, s.bundleLoading) && Distinct(s.bundleLoading)
    ensures var s' := LoaderHalf(s, env);
            forall id :: id in s'.bundleLoading <==>
              id in s.bundleLoading && id in s'.loaders.objs && !s'.loaders.objs[id].isOver
  {
    var w := LoaderPass(s, env, s.bundleLoading);
    assert LoaderHalf(s, env).bundleLoading == w.kept && LoaderHalf(s, env).loaders == w.state.loaders;
    BundlePassOutcome(s, env);
  }

  /** Over a list without duplicates, the loader half keeps in progress
      exactly the asset loaders it leaves not done. */
  lemma LoaderHalfAssets(s: State, env: Env)
    requires Valid(s) && Pollable(s, s.bundleLoading) && Distinct(s.assetLoading)
    ensures var s' := LoaderHalf(s, env);
            forall id :: id in s'.assetLoading <==>
              id in s.assetLoading && id in s'.assetLoaders.objs && !s'.assetLoaders.objs[id].isOver
  {
    var w := LoaderPass(s, env, s.bundleLoading);
    LoaderPassKeptIn(s, env, s.bundleLoading);
    WithBundleLoading(w.state, s.bundleLoading, w.kept);
    var s3 := w.state.(bundleLoading := w.kept);
    assert s3.assetLoading == s.assetLoading;
    var v := AssetPass(s3, s3.assetLoading);
    assert LoaderHalf(s, env).assetLoading == v.kept && LoaderHalf(s, env).assetLoaders == v.state.assetLoaders;
    AssetPassOutcome(s3);
  }

  /** With nothing in progress and nothing queued, a frame changes nothing. */
  lemma TickIdle(s: State, env: Env, io: Io)
    requires Valid(s) && !IsProcessRunning(s) && s.queue == []
    ensures Pollable(Scheduler.RetirePass(s, io), s.bundleLoading)
    ensures Tick(s, env, io) == s
  {
  }

  /** With no loader in progress the loader half leaves the state as it is. */
  lemma LoaderHalfIdle(s: State, env: Env)
    requires Valid(s) && s.bundleLoading == [] && s.assetLoading == []
    ensures Pollable(s, s.bundleLoading)
    ensures LoaderHalf(s, env) == s
  {
  }

  /** The requester half of a frame bounds the requesters in progress by
      `MaxAssetBundleCreateNum` (or by their number before, when above it),
      admits from the queue only while a slot is free, keeps the requesters
      in flight registered uniquely and publishes the bundles of the cached
      requesters that finish. */
  lemma UpdateFlight(s: State, io: Io)
    requires Valid(s)
    ensures var s2 := Scheduler.Admission(Scheduler.RetirePass(s, io), io);
            && |s2.processing| <= Larger(|s.processing|, MaxAssetBundleCreateNum)
            && (s2.queue != [] ==> |s2.processing| >= MaxAssetBundleCreateNum)
            && |s2.queue| <= |s.queue|
            && (UniqueInFlight(s) ==> UniqueInFlight(s2))
            && (UniqueInFlight(s) ==>
                  s2.bundles.Keys == s.bundles.Keys + Scheduler.CachedKeys(Scheduler.NetOf(s), io, s.processing))
  {
    var s1 := Scheduler.RetirePass(s, io);
    Scheduler.AdmissionSpec(s1, io);
    assert |s1.processing| <= |s.processing| by {
      ProcessingShrinks(s, io);
    }
    if UniqueInFlight(s) {
      Scheduler.RetirePassKeepsUnique(s, io);
      Scheduler.AdmissionKeepsUnique(s1, io);
      Scheduler.FlightParts(s);
      Scheduler.PollPublishesKeys(Scheduler.NetOf(s), io, s.processing);
    }
  }

  /** The requester pass never adds a requester in progress. */
  lemma ProcessingShrinks(s: State, io: Io)
    requires Valid(s)
    ensures |Scheduler.RetirePass(s, io).processing| <= |s.processing|
  {
    var n := Scheduler.NetOf(s);
    Scheduler.PollKeepsAtMost(n, io, s.processing);
  }

  /** Over a list without duplicates, the bundle loaders the pass keeps are
      exactly those of the list it leaves not done. */
  lemma BundlePassOutcome(s: State, env: Env)
    requires Valid(s) && Pollable(s, s.bundleLoading) && Distinct(s.bundleLoading)
    ensures var w := LoaderPass(s, env, s.bundleLoading);
            forall id :: id in w.kept <==> id in s.bundleLoading && !w.state.loaders.objs[id].isOver
  {
    var ids := s.bundleLoading;
    var w := LoaderPass(s, env, ids);
    LoaderPassKeeps(s, env, ids);
    forall id | id in ids
      ensures id in w.kept <==> !w.state.loaders.objs[id].isOver
    {
      var i :| 0 <= i < |ids| && ids[i] == id;
      LoaderPassUpdates(s, env, ids, i);
    }
  }

  /** Over a list without duplicates, the asset loaders the pass keeps are
      exactly those of the list it leaves not done. */
  lemma AssetPassOutcome(s: State)
    requires Valid(s) && AssetLoaders(s, s.assetLoading) && Distinct(s.assetLoading)
    ensures var v := AssetPass(s, s.assetLoading);
            forall id :: id in v.kept <==> id in s.assetLoading && !v.state.assetLoaders.objs[id].isOver
  {
    var ids := s.assetLoading;
    var v := AssetPass(s, ids);
    AssetPassKeeps(s, ids);
    forall id | id in ids
      ensures id in v.kept <==> !v.state.assetLoaders.objs[id].isOver
    {
      var i :| 0 <= i < |ids| && ids[i] == id;
      AssetPassUpdates(s, ids, i);
    }
  }

  /** With nothing in progress and nothing queued, the requester half of a
      frame changes nothing. */
  lemma UpdateIdle(s: State, io: Io)
    requires Valid(s) && s.processing == [] && s.queue == []
    ensures Scheduler.Admission(Scheduler.RetirePass(s, io), io) == s
  {
  }
}
