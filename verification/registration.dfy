/** The request API of `AssetBundleManager`: registering fetches in the
    requesting map and the backlog, and requesting a bundle together with
    its dependencies. */
module Registration {
  import opened Basics
  import Pools
  import opened BundlePaths
  import opened WebRequester
  import BundleLoader
  import opened ManagerState

  /** What a request call hands back. `KeyAlreadyRequested` is the
      `ArgumentException` `Dictionary.Add` throws for a key already being
      requested. */
  datatype Reply = Issued(id: nat) | NullReply | KeyAlreadyRequested

  /** `ResourceWebRequester.Get()` followed by `Init(...)`. */
  function NewRequester(s: State, name: string, url: string, noCache: bool, ab: bool,
                        onlyHeader: bool, timeout: int): (c: Call<nat>)
    requires Valid(s)
    ensures Valid(c.state)
    ensures c.result in c.state.requesters.objs
    ensures var r := c.state.requesters.objs[c.result];
            && r.name == name && r.url == url && r.noCache == noCache && r.ab == ab
            && r.onlyHeader == onlyHeader && r.timeout == timeout && !r.isOver && r.uwr.None?
    ensures c.state == s.(requesters := c.state.requesters)
    ensures c.state.requesters.objs.Keys == s.requesters.objs.Keys + {c.result}
    ensures forall id :: id in s.requesters.objs && id != c.result ==>
              c.state.requesters.objs[id] == s.requesters.objs[id]
    ensures |s.requesters.free| > 0 ==>
              c.result == s.requesters.free[0] && c.state.requesters.free == s.requesters.free[1..]
    ensures |s.requesters.free| == 0 ==>
              c.result !in s.requesters.objs && c.state.requesters.free == []
  {
    var g := Pools.Get(s.requesters, WebRequester.New);
    var r := WebRequester.Init(g.pool.objs[g.id], name, url, noCache, ab, onlyHeader, timeout);
    Call(s.(requesters := Pools.Put(g.pool, g.id, r)), g.id)
  }

  /** A requester fresh from `NewRequester` is not in flight when the state
      before kept the flight invariant. */
  lemma NewRequesterIsIdle(s: State, c: Call<nat>, name: string, url: string, noCache: bool,
                           ab: bool, onlyHeader: bool, timeout: int)
    requires Valid(s) && UniqueInFlight(s)
    requires c == NewRequester(s, name, url, noCache, ab, onlyHeader, timeout)
    ensures c.result !in InFlight(s)
    ensures forall i :: 0 <= i < |c.state.requesters.free| ==>
              c.state.requesters.free[i] !in InFlight(s) && c.state.requesters.free[i] != c.result
    ensures Distinct(c.state.requesters.free)
  {
  }

  /** Register a requester under `key` and append it to the backlog. */
  function Enqueue(s: State, key: string, id: nat): (s': State)
    ensures s'.requesting == s.requesting[key := id] && s'.queue == s.queue + [id]
    ensures s' == s.(requesting := s'.requesting, queue := s'.queue)
    ensures Valid(s) && id in s.requesters.objs ==> Valid(s')
  {
    s.(requesting := s.requesting[key := id], queue := s.queue + [id])
  }

  /** Enqueuing an idle requester under a key nobody is requesting, and
      whose name is that key, keeps at most one requester per key. */
  lemma EnqueueKeepsUnique(s: State, key: string, id: nat)
    requires Valid(s) && UniqueInFlight(s)
    requires key !in s.requesting && id in s.requesters.objs && NameOf(s, id) == key
    requires id !in InFlight(s)
    requires forall i :: 0 <= i < |s.requesters.free| ==> s.requesters.free[i] != id
    ensures Valid(Enqueue(s, key, id)) && UniqueInFlight(Enqueue(s, key, id))
  {
    var s' := Enqueue(s, key, id);
    assert InFlight(s') == s.queue + [id] + s.processing;
    DistinctInsert(s.queue, id, s.processing);
    assert forall x :: x in InFlight(s') <==> x in InFlight(s) || x == id;
    EnqueueKeepsNames(s, key, id);
  }

  /** The naming half of `EnqueueKeepsUnique`: every requester in flight is
      still registered under its own name. */
  lemma EnqueueKeepsNames(s: State, key: string, id: nat)
    requires Valid(s) && UniqueInFlight(s)
    requires key !in s.requesting && id in s.requesters.objs && NameOf(s, id) == key
    ensures var s' := Enqueue(s, key, id);
            Valid(s') &&
            forall i :: 0 <= i < |InFlight(s')| ==>
              NameOf(s', InFlight(s')[i]) in s'.requesting
              && s'.requesting[NameOf(s', InFlight(s')[i])] == InFlight(s')[i]
  {
    var s' := Enqueue(s, key, id);
    forall i | 0 <= i < |InFlight(s')|
      ensures NameOf(s', InFlight(s')[i]) in s'.requesting
      ensures s'.requesting[NameOf(s', InFlight(s')[i])] == InFlight(s')[i]
    {
      if i < |s.queue| {
        assert InFlight(s')[i] == InFlight(s)[i];
      } else if i > |s.queue| {
        assert InFlight(s')[i] == InFlight(s)[i - 1];
      }
    }
  }

  // ---------------------------------------------------------------------
  // Bundle requests

  /** `s'` differs from `s` only in the requests: the requesting map, the
      backlog and the requester pool, which only grows. */
  predicate OnlyRequestsChanged(s: State, s': State) {
    && s' == s.(requesting := s'.requesting, queue := s'.queue, requesters := s'.requesters)
    && s'.requesters.objs.Keys >= s.requesters.objs.Keys
  }

  /** `CreateAssetBundleAsync`: nothing happens for a bundle already cached
      or already being requested; otherwise a requester for it (bundle,
      cached on completion) is registered and appended to the backlog. */
  function CreateAssetBundleAsync(s: State, env: Env, name: string, onlyHeader: bool): (c: Call<bool>)
    requires Valid(s)
    ensures Valid(c.state)
    ensures !c.result <==> name in s.bundles || name in s.requesting
    ensures !c.result ==> c.state == s
    ensures c.result ==>
              && |c.state.queue| == |s.queue| + 1
              && c.state.queue[..|s.queue|] == s.queue
              && c.state.requesting == s.requesting[name := c.state.queue[|s.queue|]]
    ensures OnlyRequestsChanged(s, c.state)
    ensures Known(c.state) == Known(s) + {name}
  {
    if name in s.bundles || name in s.requesting then
      KnownAlready(s, name);
      Call(s, false)
    else
      var url := GetAssetBundleFileUrl(env.config, env.host, name, !onlyHeader);
      var n := NewRequester(s, name, url, false, true, onlyHeader, 0);
      var s' := Enqueue(n.state, name, n.result);
      KnownAfterRegister(s, s', name, n.result);
      Call(s', true)
  }

  /** `CreateAssetBundleAsync` unregisters no key and registers at most the
      bundle itself. */
  lemma CreateAssetBundleAsyncRegisters(s: State, env: Env, name: string, onlyHeader: bool)
    requires Valid(s)
    ensures var c := CreateAssetBundleAsync(s, env, name, onlyHeader);
            && s.requesting.Keys <= c.state.requesting.Keys
            && forall k :: k in c.state.requesting && k !in s.requesting ==> k == name
  {
  }

  /** The requester `CreateAssetBundleAsync` queues fetches the bundle (its
      header only when asked) from wherever the freshest copy lives, and
      caches it on completion. */
  lemma CreateAssetBundleAsyncRequester(s: State, env: Env, name: string, onlyHeader: bool)
    requires Valid(s)
    ensures var c := CreateAssetBundleAsync(s, env, name, onlyHeader);
            c.result ==>
              var r := c.state.requesters.objs[c.state.queue[|s.queue|]];
              && r.name == name && !r.noCache && r.ab && r.onlyHeader == onlyHeader
              && r.url == GetAssetBundleFileUrl(env.config, env.host, name, !onlyHeader)
              && !r.isOver
  {
  }

  /** Registering a fresh requester under a key nobody requests keeps at most
      one requester per key. */
  lemma RegisterFreshKeepsUnique(s: State, key: string, url: string, noCache: bool, ab: bool,
                                 onlyHeader: bool, timeout: int)
    requires Valid(s) && UniqueInFlight(s) && key !in s.requesting
    ensures var n := NewRequester(s, key, url, noCache, ab, onlyHeader, timeout);
            UniqueInFlight(n.state) && UniqueInFlight(Enqueue(n.state, key, n.result))
  {
    var n := NewRequester(s, key, url, noCache, ab, onlyHeader, timeout);
    NewRequesterIsIdle(s, n, key, url, noCache, ab, onlyHeader, timeout);
    assert UniqueInFlight(n.state);
    EnqueueKeepsUnique(n.state, key, n.result);
  }

  /** `CreateAssetBundleAsync` never gives a key a second requester. */
  lemma CreateKeepsUnique(s: State, env: Env, name: string, onlyHeader: bool)
    requires Valid(s) && UniqueInFlight(s)
    ensures UniqueInFlight(CreateAssetBundleAsync(s, env, name, onlyHeader).state)
  {
    if name !in s.bundles && name !in s.requesting {
      RegisterFreshKeepsUnique(s, name, GetAssetBundleFileUrl(env.config, env.host, name, !onlyHeader),
                               false, true, onlyHeader, 0);
    }
  }

  /** Registration with `Dictionary.Add`, shared by the requests that do not
      deduplicate: a key already being requested throws, after the requester
      has been taken from the pool, so nothing is registered or queued. */
  function AddRequest(s: State, key: string, url: string, noCache: bool, ab: bool,
                      onlyHeader: bool, timeout: int): (c: Call<Reply>)
    requires Valid(s)
    ensures Valid(c.state)
    ensures c.result.KeyAlreadyRequested? <==> key in s.requesting
    ensures c.result.KeyAlreadyRequested? ==>
              c.state.requesting == s.requesting && c.state.queue == s.queue
    ensures c.result.Issued? ==>
              && c.state.requesting == s.requesting[key := c.result.id]
              && c.state.queue == s.queue + [c.result.id]
              && c.result.id in c.state.requesters.objs
              && var r := c.state.requesters.objs[c.result.id];
                 && r.name == key && r.url == url && r.noCache == noCache && r.ab == ab
                 && r.onlyHeader == onlyHeader && r.timeout == timeout && !r.isOver
    ensures c.result.Issued? || c.result.KeyAlreadyRequested?
  {
    var n := NewRequester(s, key, url, noCache, ab, onlyHeader, timeout);
    if key in n.state.requesting then Call(n.state, KeyAlreadyRequested)
    else Call(Enqueue(n.state, key, n.result), Issued(n.result))
  }

  /** Registration with `Dictionary.Add` never gives a key a second
      requester, whether it throws or not. */
  lemma AddRequestKeepsUnique(s: State, key: string, url: string, noCache: bool, ab: bool,
                              onlyHeader: bool, timeout: int)
    requires Valid(s) && UniqueInFlight(s)
    ensures UniqueInFlight(AddRequest(s, key, url, noCache, ab, onlyHeader, timeout).state)
  {
    var n := NewRequester(s, key, url, noCache, ab, onlyHeader, timeout);
    NewRequesterIsIdle(s, n, key, url, noCache, ab, onlyHeader, timeout);
    if key !in s.requesting {
      RegisterFreshKeepsUnique(s, key, url, noCache, ab, onlyHeader, timeout);
    }
  }

  /** `DownloadWebResourceAsync`: a plain GET of a full URL, never cached,
      registered under the URL itself. */
  function DownloadWebResourceAsync(s: State, url: string, timeout: int): (c: Call<Reply>)
    requires Valid(s)
    ensures Valid(c.state)
    ensures c.result.KeyAlreadyRequested? <==> url in s.requesting
    ensures c.result.Issued? ==>
              c.result.id in c.state.requesters.objs &&
              var r := c.state.requesters.objs[c.result.id];
              r.name == url && r.url == url && r.noCache && !r.ab && !r.onlyHeader && r.timeout == timeout
  {
    AddRequest(s, url, url, true, false, false, timeout)
  }

  /** `RequestAssetFileAsync`: a local non-bundle file, never cached, from
      streaming assets or from wherever the freshest copy lives. */
  function RequestAssetFileAsync(s: State, env: Env, filePath: string, streamingAssetsOnly: bool): (c: Call<Reply>)
    requires Valid(s)
    ensures Valid(c.state)
    ensures c.result.KeyAlreadyRequested? <==> filePath in s.requesting
    ensures c.result.Issued? ==>
              c.result.id in c.state.requesters.objs &&
              var r := c.state.requesters.objs[c.result.id];
              && r.name == filePath && r.noCache && !r.ab && !r.onlyHeader
              && (streamingAssetsOnly ==> r.url == GetStreamingAssetsFilePath(env.config, env.host, filePath, true))
              && (!streamingAssetsOnly ==> r.url == GetAssetBundleFileUrl(env.config, env.host, filePath, true))
  {
    var url := if streamingAssetsOnly then GetStreamingAssetsFilePath(env.config, env.host, filePath, true)
               else GetAssetBundleFileUrl(env.config, env.host, filePath, true);
    AddRequest(s, filePath, url, true, false, false, 0)
  }

  /** `RequestAssetBundleAsync`: a whole bundle the caller consumes itself
      (the manifest and path-mapping bundles), never cached. */
  function RequestAssetBundleAsync(s: State, env: Env, name: string): (c: Call<Reply>)
    requires Valid(s)
    ensures Valid(c.state)
    ensures c.result.KeyAlreadyRequested? <==> name in s.requesting
    ensures c.result.Issued? ==>
              c.result.id in c.state.requesters.objs &&
              var r := c.state.requesters.objs[c.result.id];
              && r.name == name && r.noCache && r.ab && !r.onlyHeader
              && r.url == GetAssetBundleFileUrl(env.config, env.host, name, true)
  {
    AddRequest(s, name, GetAssetBundleFileUrl(env.config, env.host, name, true), true, true, false, 0)
  }

  /** `DownloadAssetFileAsync` as written: a file from the resource server,
      never cached. Without a download URL nothing happens and null is
      returned; a key already being requested is re-registered to the new
      requester instead of throwing. The `timeout` argument is accepted but
      never handed to `Init`, so the requester always gets timeout 0. */
  function DownloadAssetFileAsyncAsWritten(s: State, env: Env, filePath: string, ab: bool,
                                           timeout: int): (c: Call<Reply>)
    requires Valid(s)
    ensures Valid(c.state)
    ensures c.result.NullReply? <==> env.downloadUrl == []
    ensures c.result.NullReply? ==> c.state == s
    ensures !c.result.KeyAlreadyRequested?
    ensures c.result.Issued? ==>
              && c.state.requesting == s.requesting[filePath := c.result.id]
              && c.state.queue == s.queue + [c.result.id]
              && c.result.id in c.state.requesters.objs
              && var r := c.state.requesters.objs[c.result.id];
                 && r.name == filePath && r.url == env.downloadUrl + filePath && r.noCache
                 && r.ab == ab && !r.onlyHeader && r.timeout == 0
  {
    if env.downloadUrl == [] then Call(s, NullReply)
    else
      var n := NewRequester(s, filePath, env.downloadUrl + filePath, true, ab, false, 0);
      Call(Enqueue(n.state, filePath, n.result), Issued(n.result))
  }

  /** `DownloadAssetFileAsync` with the timeout passed on to `Init`, as its
      signature promises; otherwise the same download. */
  function DownloadAssetFileAsync(s: State, env: Env, filePath: string, ab: bool, timeout: int): (c: Call<Reply>)
    requires Valid(s)
    ensures Valid(c.state)
    ensures c.result.NullReply? <==> env.downloadUrl == []
    ensures c.result.NullReply? ==> c.state == s
    ensures !c.result.KeyAlreadyRequested?
    ensures c.result.Issued? ==>
              && c.state.requesting == s.requesting[filePath := c.result.id]
              && c.state.queue == s.queue + [c.result.id]
              && c.result.id in c.state.requesters.objs
              && var r := c.state.requesters.objs[c.result.id];
                 && r.name == filePath && r.url == env.downloadUrl + filePath && r.noCache
                 && r.ab == ab && !r.onlyHeader && r.timeout == timeout
  {
    if env.downloadUrl == [] then Call(s, NullReply)
    else
      var n := NewRequester(s, filePath, env.downloadUrl + filePath, true, ab, false, timeout);
      Call(Enqueue(n.state, filePath, n.result), Issued(n.result))
  }

  /** The download as written behaves exactly like the corrected one asked
      for timeout 0, whatever timeout it is given. */
  lemma AsWrittenIsZeroTimeout(s: State, env: Env, filePath: string, ab: bool, timeout: int)
    requires Valid(s)
    ensures DownloadAssetFileAsyncAsWritten(s, env, filePath, ab, timeout)
            == DownloadAssetFileAsync(s, env, filePath, ab, 0)
  {
  }

  /** `DownloadAssetBundleAsync` as written: the same download as a plain
      file (kept apart for a future bundle-specific download handler), so
      its timeout is lost too and the requester gets timeout 0. */
  function DownloadAssetBundleAsync(s: State, env: Env, filePath: string, timeout: int): (c: Call<Reply>)
    requires Valid(s)
    ensures Valid(c.state)
    ensures c.result.NullReply? <==> env.downloadUrl == []
    ensures !c.result.KeyAlreadyRequested?
    ensures c.result.Issued? ==>
              c.result.id in c.state.requesters.objs &&
              var r := c.state.requesters.objs[c.result.id];
              r.name == filePath && r.noCache && !r.ab && r.timeout == 0
  {
    DownloadAssetFileAsyncAsWritten(s, env, filePath, false, timeout)
  }

  /** `DownloadAssetBundleAsync` built on the corrected download: the
      requester gets the timeout the caller asked for. */
  function DownloadAssetBundleAsyncCorrected(s: State, env: Env, filePath: string, timeout: int): (c: Call<Reply>)
    requires Valid(s)
    ensures Valid(c.state)
    ensures c.result.NullReply? <==> env.downloadUrl == []
    ensures !c.result.KeyAlreadyRequested?
    ensures c.result.Issued? ==>
              c.result.id in c.state.requesters.objs &&
              var r := c.state.requesters.objs[c.result.id];
              r.name == filePath && r.noCache && !r.ab && r.timeout == timeout
  {
    DownloadAssetFileAsync(s, env, filePath, false, timeout)
  }

  /** The default timeout of `DownloadAssetBundleAsync` (20 seconds) never
      reaches the requester it creates, while the corrected download keeps
      it: the two differ exactly in the timeout. */
  lemma DownloadAssetBundleDropsTimeout(s: State, env: Env, filePath: string)
    requires Valid(s) && env.downloadUrl != []
    ensures var c := DownloadAssetBundleAsync(s, env, filePath, 20);
            var d := DownloadAssetBundleAsyncCorrected(s, env, filePath, 20);
            && c.result.Issued? && c.state.requesters.objs[c.result.id].timeout == 0
            && d.result.Issued? && d.state.requesters.objs[d.result.id].timeout == 20
            && c.result == d.result
            && c.state.requesters.objs[c.result.id] == d.state.requesters.objs[d.result.id].(timeout := 0)
  {
  }

  /** Re-downloading a key that is still in flight leaves the earlier
      requester in flight under the same key, so two requesters for one key
      coexist and the flight invariant no longer holds. */
  lemma DownloadAssetFileReplacesMapping(s: State, env: Env, filePath: string, ab: bool, timeout: int)
    requires Valid(s) && UniqueInFlight(s)
    requires env.downloadUrl != [] && filePath in s.requesting
    ensures var c := DownloadAssetFileAsync(s, env, filePath, ab, timeout);
            && c.result.Issued?
            && s.requesting[filePath] in InFlight(c.state)
            && c.result.id in InFlight(c.state)
            && s.requesting[filePath] != c.result.id
            && NameOf(c.state, s.requesting[filePath]) == NameOf(c.state, c.result.id) == filePath
            && !UniqueInFlight(c.state)
  {
  }

  // ---------------------------------------------------------------------
  // Bundle loading with dependencies

  /** A dependency `LoadAssetBundleAsync` requests: non-empty and not the
      bundle itself. */
  predicate IsWantedDependency(dep: string, name: string) {
    dep != [] && dep != name
  }

  /** The dependencies of `name` that get requested, in manifest order. */
  function WantedDependencies(deps: seq<string>, name: string): (r: seq<string>)
    ensures |r| <= |deps|
    ensures forall d :: d in r <==> d in deps && IsWantedDependency(d, name)
  {
    if |deps| == 0 then []
    else WantedDependencies(deps[..|deps| - 1], name)
         + (if IsWantedDependency(deps[|deps| - 1], name) then [deps[|deps| - 1]] else [])
  }

  /** The `for` loop of `LoadAssetBundleAsync`: `CreateAssetBundleAsync` for
      each wanted dependency, in order. */
  function RequestDependencies(s: State, env: Env, deps: seq<string>, name: string,
                               onlyHeader: bool): (s': State)
    requires Valid(s)
    ensures Valid(s')
    ensures OnlyRequestsChanged(s, s')
    decreases |deps|
  {
    if |deps| == 0 then s
    else
      var s1 := if IsWantedDependency(deps[0], name)
                then CreateAssetBundleAsync(s, env, deps[0], onlyHeader).state else s;
      RequestDependencies(s1, env, deps[1..], name, onlyHeader)
  }

  /** After the loop every wanted dependency is cached or being requested;
      no key is unregistered, and the keys it registers are all wanted
      dependencies. */
  lemma {:induction false} RequestDependenciesCover(s: State, env: Env, deps: seq<string>, name: string,
                                                    onlyHeader: bool)
    requires Valid(s)
    ensures var s' := RequestDependencies(s, env, deps, name, onlyHeader);
            && (forall d :: d in deps && IsWantedDependency(d, name) ==> d in s'.bundles || d in s'.requesting)
            && s.requesting.Keys <= s'.requesting.Keys
            && (forall k :: k in s'.requesting && k !in s.requesting ==> k in deps && IsWantedDependency(k, name))
    decreases |deps|
  {
    if |deps| > 0 {
      var s1 := if IsWantedDependency(deps[0], name)
                then CreateAssetBundleAsync(s, env, deps[0], onlyHeader).state else s;
      RequestDependenciesCover(s1, env, deps[1..], name, onlyHeader);
      assert forall d :: d in deps <==> d == deps[0] || d in deps[1..];
    }
  }

  /** Requesting the dependencies never gives a key a second requester. */
  lemma {:induction false} RequestDependenciesKeepUnique(s: State, env: Env, deps: seq<string>,
                                                         name: string, onlyHeader: bool)
    requires Valid(s) && UniqueInFlight(s)
    ensures UniqueInFlight(RequestDependencies(s, env, deps, name, onlyHeader))
    decreases |deps|
  {
    if |deps| > 0 {
      var s1 := if IsWantedDependency(deps[0], name)
                then CreateAssetBundleAsync(s, env, deps[0], onlyHeader).state else s;
      if IsWantedDependency(deps[0], name) {
        CreateKeepsUnique(s, env, deps[0], onlyHeader);
      }
      RequestDependenciesKeepUnique(s1, env, deps[1..], name, onlyHeader);
    }
  }

  /** The bundles the dependency loop asks for, in manifest order: each
      wanted dependency that is neither `known` (cached or being requested)
      nor asked for earlier in the loop. */
  function NewKeys(deps: seq<string>, name: string, known: set<string>): seq<string>
    decreases |deps|
  {
    if |deps| == 0 then []
    else if IsWantedDependency(deps[0], name) && deps[0] !in known
    then [deps[0]] + NewKeys(deps[1..], name, known + {deps[0]})
    else NewKeys(deps[1..], name, known)
  }

  /** The loop asks for exactly the wanted dependencies not yet known, each
      once. */
  lemma {:induction false} NewKeysSpec(deps: seq<string>, name: string, known: set<string>)
    ensures var keys := NewKeys(deps, name, known);
            && (forall k :: k in keys <==> k in deps && IsWantedDependency(k, name) && k !in known)
            && Distinct(keys)
    decreases |deps|
  {
    if |deps| > 0 {
      var d := deps[0];
      assert forall k :: k in deps <==> k == d || k in deps[1..];
      if IsWantedDependency(d, name) && d !in known {
        NewKeysSpec(deps[1..], name, known + {d});
      } else {
        NewKeysSpec(deps[1..], name, known);
      }
    }
  }

  /** `id` is a requester that fetches bundle `name` (its header only when
      asked) from wherever the freshest copy lives and caches it. */
  predicate BundleRequester(s: State, env: Env, id: nat, name: string, onlyHeader: bool) {
    && id in s.requesters.objs
    && var r := s.requesters.objs[id];
       && r.name == name && !r.noCache && r.ab && r.onlyHeader == onlyHeader
       && r.url == GetAssetBundleFileUrl(env.config, env.host, name, !onlyHeader)
  }

  /** The backlog of `s'` is that of `s` followed by one bundle requester
      per key of `keys`, in order, and the requesters queued in `s` are as
      they were. */
  predicate Extends(s: State, s': State, env: Env, keys: seq<string>, onlyHeader: bool) {
    && |s'.queue| == |s.queue| + |keys| && s'.queue[..|s.queue|] == s.queue
    && (forall j :: 0 <= j < |keys| ==>
          BundleRequester(s', env, s'.queue[|s.queue| + j], keys[j], onlyHeader))
    && forall i :: 0 <= i < |s.queue| ==>
         && s.queue[i] in s.requesters.objs && s.queue[i] in s'.requesters.objs
         && s'.requesters.objs[s.queue[i]] == s.requesters.objs[s.queue[i]]
  }

  /** Two extensions of the backlog compose. */
  lemma ExtendsTrans(a: State, b: State, c: State, env: Env, k1: seq<string>, k2: seq<string>,
                     onlyHeader: bool)
    requires Extends(a, b, env, k1, onlyHeader) && Extends(b, c, env, k2, onlyHeader)
    ensures Extends(a, c, env, k1 + k2, onlyHeader)
  {
    assert c.queue[..|a.queue|] == a.queue by {
      assert c.queue[..|a.queue|] == c.queue[..|b.queue|][..|a.queue|];
    }
    forall j | 0 <= j < |k1 + k2|
      ensures BundleRequester(c, env, c.queue[|a.queue| + j], (k1 + k2)[j], onlyHeader)
    {
      if j < |k1| {
        var id := b.queue[|a.queue| + j];
        assert c.queue[|a.queue| + j] == c.queue[..|b.queue|][|a.queue| + j] == id;
        assert BundleRequester(b, env, id, k1[j], onlyHeader);
        assert id == b.queue[|a.queue| + j];
      } else {
        assert c.queue[|a.queue| + j] == c.queue[|b.queue| + (j - |k1|)];
      }
    }
    forall i | 0 <= i < |a.queue|
      ensures c.requesters.objs[a.queue[i]] == a.requesters.objs[a.queue[i]]
    {
      assert a.queue[i] == b.queue[i] == b.queue[..|a.queue|][i];
    }
  }

  /** A requester that is not in flight when the invariant holds does not
      occupy a queued slot. */
  lemma QueuedAreInFlight(s: State)
    requires Valid(s)
    ensures forall i :: 0 <= i < |s.queue| ==> s.queue[i] in InFlight(s)
  {
    assert forall i :: 0 <= i < |s.queue| ==> s.queue[i] == InFlight(s)[i];
  }

  /** The bundles a state caches or requests. */
  function Known(s: State): set<string> {
    s.bundles.Keys + s.requesting.Keys
  }

  /** Registering a requester under `name` makes exactly `name` known. */
  lemma KnownAfterRegister(s: State, s': State, name: string, id: nat)
    requires s'.bundles == s.bundles && s'.requesting == s.requesting[name := id]
    ensures Known(s') == Known(s) + {name}
  {
    assert s'.requesting.Keys == s.requesting.Keys + {name};
  }

  /** A name already known stays the only thing known when added again. */
  lemma KnownAlready(s: State, name: string)
    requires name in Known(s)
    ensures Known(s) + {name} == Known(s)
  {
  }

  /** `CreateAssetBundleAsync` leaves every queued requester as it was. */
  lemma CreateAssetBundleAsyncKeepsQueued(s: State, env: Env, name: string, onlyHeader: bool)
    requires Valid(s) && UniqueInFlight(s)
    ensures var c := CreateAssetBundleAsync(s, env, name, onlyHeader);
            forall i :: 0 <= i < |s.queue| ==>
              && s.queue[i] in s.requesters.objs && s.queue[i] in c.state.requesters.objs
              && c.state.requesters.objs[s.queue[i]] == s.requesters.objs[s.queue[i]]
  {
    QueuedAreInFlight(s);
    if name !in s.bundles && name !in s.requesting {
      var url := GetAssetBundleFileUrl(env.config, env.host, name, !onlyHeader);
      var n := NewRequester(s, name, url, false, true, onlyHeader, 0);
      NewRequesterIsIdle(s, n, name, url, false, true, onlyHeader, 0);
    }
  }

  /** A state extends itself by nothing. */
  lemma ExtendsRefl(s: State, env: Env, onlyHeader: bool)
    requires Valid(s)
    ensures Extends(s, s, env, [], onlyHeader)
  {
  }

  /** One bundle requester appended behind an unchanged backlog. */
  lemma ExtendsByOne(s: State, s': State, env: Env, name: string, onlyHeader: bool)
    requires |s'.queue| == |s.queue| + 1 && s'.queue[..|s.queue|] == s.queue
    requires BundleRequester(s', env, s'.queue[|s.queue|], name, onlyHeader)
    requires forall i :: 0 <= i < |s.queue| ==>
               && s.queue[i] in s.requesters.objs && s.queue[i] in s'.requesters.objs
               && s'.requesters.objs[s.queue[i]] == s.requesters.objs[s.queue[i]]
    ensures Extends(s, s', env, [name], onlyHeader)
  {
  }

  /** `CreateAssetBundleAsync` appends its requester, if it issues one, to
      the backlog and leaves every requester already queued as it was. */
  lemma CreateAssetBundleAsyncQueues(s: State, env: Env, name: string, onlyHeader: bool)
    requires Valid(s) && UniqueInFlight(s)
    ensures var c := CreateAssetBundleAsync(s, env, name, onlyHeader);
            Extends(s, c.state, env, if c.result then [name] else [], onlyHeader)
  {
    var c := CreateAssetBundleAsync(s, env, name, onlyHeader);
    if c.result {
      CreateAssetBundleAsyncKeepsQueued(s, env, name, onlyHeader);
      CreateAssetBundleAsyncRequester(s, env, name, onlyHeader);
      ExtendsByOne(s, c.state, env, name, onlyHeader);
    } else {
      ExtendsRefl(s, env, onlyHeader);
    }
  }

  /** One turn of the dependency loop appends a wanted dependency not yet
      known to the backlog and skips anything else. */
  lemma DependencyStepQueues(s: State, env: Env, d: string, name: string, onlyHeader: bool)
    requires Valid(s) && UniqueInFlight(s)
    ensures var s1 := if IsWantedDependency(d, name) then CreateAssetBundleAsync(s, env, d, onlyHeader).state else s;
            var issued := IsWantedDependency(d, name) && d !in Known(s);
            Extends(s, s1, env, if issued then [d] else [], onlyHeader)
  {
    if IsWantedDependency(d, name) {
      CreateAssetBundleAsyncQueues(s, env, d, onlyHeader);
    } else {
      QueuedAreInFlight(s);
    }
  }

  /** One turn of the dependency loop makes the dependency it asks for
      known, and nothing else. */
  lemma DependencyStepKnown(s: State, env: Env, d: string, name: string, onlyHeader: bool)
    requires Valid(s)
    ensures var s1 := if IsWantedDependency(d, name) then CreateAssetBundleAsync(s, env, d, onlyHeader).state else s;
            Known(s1) == if IsWantedDependency(d, name) then Known(s) + {d} else Known(s)
  {
  }

  /** The dependency loop appends to the backlog one requester per key of
      `NewKeys`, in that order, all sharing `onlyHeader`, and leaves the
      requesters already queued as they were. */
  lemma {:induction false} RequestDependenciesQueues(s: State, env: Env, deps: seq<string>, name: string,
                                                     onlyHeader: bool)
    requires Valid(s) && UniqueInFlight(s)
    ensures Extends(s, RequestDependencies(s, env, deps, name, onlyHeader), env,
                    NewKeys(deps, name, Known(s)), onlyHeader)
    decreases |deps|
  {
    if |deps| == 0 {
      QueuedAreInFlight(s);
    } else {
      var d := deps[0];
      var issued := IsWantedDependency(d, name) && d !in Known(s);
      var s1 := if IsWantedDependency(d, name) then CreateAssetBundleAsync(s, env, d, onlyHeader).state else s;
      DependencyStepQueues(s, env, d, name, onlyHeader);
      DependencyStepKnown(s, env, d, name, onlyHeader);
      if IsWantedDependency(d, name) {
        CreateKeepsUnique(s, env, d, onlyHeader);
      }
      assert Known(s1) == if issued then Known(s) + {d} else Known(s);
      RequestDependenciesQueues(s1, env, deps[1..], name, onlyHeader);
      var rest := NewKeys(deps[1..], name, Known(s1));
      assert NewKeys(deps, name, Known(s)) == (if issued then [d] else []) + rest;
      ExtendsTrans(s, s1, RequestDependencies(s1, env, deps[1..], name, onlyHeader), env,
                   if issued then [d] else [], rest, onlyHeader);
    }
  }

  /** The dependency list `Init` receives: null while no manifest is loaded. */
  function DependencyList(env: Env, name: string): Option<seq<string>> {
    if env.manifest.Some? then Some(env.manifest.value(name)) else None
  }

  /** The loader half of `LoadAssetBundleAsync`: take a loader from the pool,
      start polling it, and initialise it against the bundle cache. */
  function StartLoader(s: State, name: string, deps: Option<seq<string>>): (c: Call<nat>)
    requires Valid(s)
    ensures Valid(c.state)
    ensures c.state == s.(loaders := c.state.loaders, bundleLoading := c.state.bundleLoading)
    ensures c.state.bundleLoading == s.bundleLoading + [c.result]
    ensures c.result in c.state.loaders.objs
    ensures var l := c.state.loaders.objs[c.result];
            && l.name == name && !l.isOver && l.waitingCount == |l.waiting|
            && (name in l.waiting <==> Lookup(s.bundles, name).None?)
            && (forall d :: d != name ==> (d in l.waiting <==> deps.Some? && d in deps.value && d !in s.bundles))
  {
    var g := Pools.Get(s.loaders, BundleLoader.New);
    var l := BundleLoader.Init(g.pool.objs[g.id], name, deps, s.bundles);
    Call(s.(loaders := Pools.Put(g.pool, g.id, l), bundleLoading := s.bundleLoading + [g.id]), g.id)
  }

  /** `LoadAssetBundleAsync`: take a bundle loader from the pool and start
      polling it, request every wanted dependency, initialise the loader with
      the full dependency list, then request the bundle itself. Requests
      touch neither the loaders nor the bundle cache, so the loader may be
      initialised first. */
  function LoadAssetBundleAsync(s: State, env: Env, name: string, onlyHeader: bool): (c: Call<nat>)
    requires Valid(s)
    ensures Valid(c.state)
    ensures c.state.bundleLoading == s.bundleLoading + [c.result]
    ensures c.result in c.state.loaders.objs
    ensures c.state.loaders.objs[c.result].name == name && !c.state.loaders.objs[c.result].isOver
    ensures c.state.bundles == s.bundles && c.state.processing == s.processing
  {
    var d := LoaderWithDependencies(s, env, name, onlyHeader);
    Call(CreateAssetBundleAsync(d.state, env, name, onlyHeader).state, d.result)
  }

  /** The first half of `LoadAssetBundleAsync`: the loader started and the
      dependencies requested; only the requests change after the loader
      starts. */
  function LoaderWithDependencies(s: State, env: Env, name: string, onlyHeader: bool): (c: Call<nat>)
    requires Valid(s)
    ensures Valid(c.state)
    ensures var l := StartLoader(s, name, DependencyList(env, name));
            c.result == l.result && OnlyRequestsChanged(l.state, c.state)
  {
    var l := StartLoader(s, name, DependencyList(env, name));
    Call(if env.manifest.Some? then RequestDependencies(l.state, env, env.manifest.value(name), name, onlyHeader)
         else l.state, l.result)
  }

  /** After the dependency half every dependency the loader awaits, other
      than the empty name and the bundle itself, is cached or being
      requested; no key is unregistered and only non-empty dependencies the
      manifest lists are registered. */
  lemma {:induction false} LoaderWithDependenciesCover(s: State, env: Env, name: string, onlyHeader: bool)
    requires Valid(s)
    ensures var d := LoaderWithDependencies(s, env, name, onlyHeader);
            && (forall w :: w in d.state.loaders.objs[d.result].waiting && w != [] && w != name ==>
                  w in d.state.bundles || w in d.state.requesting)
            && s.requesting.Keys <= d.state.requesting.Keys
            && (forall k :: k in d.state.requesting && k !in s.requesting ==>
                  env.manifest.Some? && k in env.manifest.value(name) && k != [] && k != name)
  {
    var l := StartLoader(s, name, DependencyList(env, name));
    if env.manifest.Some? {
      RequestDependenciesCover(l.state, env, env.manifest.value(name), name, onlyHeader);
    }
  }

  /** The loader `LoadAssetBundleAsync` hands out awaits the bundle itself
      unless it is cached, and every dependency the manifest lists that is
      not cached. */
  lemma LoadAssetBundleAsyncAwaits(s: State, env: Env, name: string, onlyHeader: bool)
    requires Valid(s)
    ensures var c := LoadAssetBundleAsync(s, env, name, onlyHeader);
            var l := c.state.loaders.objs[c.result];
            && (name in l.waiting <==> Lookup(s.bundles, name).None?)
            && (forall d :: d != name ==>
                  (d in l.waiting <==> env.manifest.Some? && d in env.manifest.value(name) && d !in s.bundles))
  {
  }

  /** `LoadAssetBundleAsync` unregisters no key, and registers only the
      bundle itself and the non-empty dependencies the manifest lists. */
  lemma LoadAssetBundleAsyncRequests(s: State, env: Env, name: string, onlyHeader: bool)
    requires Valid(s)
    ensures var c := LoadAssetBundleAsync(s, env, name, onlyHeader);
            && s.requesting.Keys <= c.state.requesting.Keys
            && forall k :: k in c.state.requesting && k !in s.requesting ==>
                 k == name || (env.manifest.Some? && k in env.manifest.value(name) && k != [])
  {
    var d := LoaderWithDependencies(s, env, name, onlyHeader);
    LoaderWithDependenciesCover(s, env, name, onlyHeader);
    CreateAssetBundleAsyncRegisters(d.state, env, name, onlyHeader);
  }

  /** Once `LoadAssetBundleAsync` returns, every bundle its loader awaits,
      other than the empty name, is cached or being requested. */
  lemma LoadAssetBundleAsyncCovers(s: State, env: Env, name: string, onlyHeader: bool)
    requires Valid(s)
    ensures var c := LoadAssetBundleAsync(s, env, name, onlyHeader);
            forall w :: w in c.state.loaders.objs[c.result].waiting && w != [] ==>
              w in c.state.bundles || w in c.state.requesting
  {
    var d := LoaderWithDependencies(s, env, name, onlyHeader);
    LoaderWithDependenciesCover(s, env, name, onlyHeader);
    var c := CreateAssetBundleAsync(d.state, env, name, onlyHeader);
    assert c.state.loaders == d.state.loaders && c.state.bundles == d.state.bundles;
    assert d.state.requesting.Keys <= c.state.requesting.Keys;
  }

  /** `LoadAssetBundleAsync` never gives a key a second requester. */
  lemma LoadAssetBundleAsyncKeepsUnique(s: State, env: Env, name: string, onlyHeader: bool)
    requires Valid(s) && UniqueInFlight(s)
    ensures UniqueInFlight(LoadAssetBundleAsync(s, env, name, onlyHeader).state)
  {
    var l := StartLoader(s, name, DependencyList(env, name));
    assert UniqueInFlight(l.state);
    if env.manifest.Some? {
      RequestDependenciesKeepUnique(l.state, env, env.manifest.value(name), name, onlyHeader);
    }
    CreateKeepsUnique(LoaderWithDependencies(s, env, name, onlyHeader).state, env, name, onlyHeader);
  }

  /** The dependency half appends a requester for each dependency it asks
      for, in manifest order, after what was already queued. */
  lemma LoaderWithDependenciesQueues(s: State, env: Env, name: string, onlyHeader: bool)
    requires Valid(s) && UniqueInFlight(s)
    ensures var d := LoaderWithDependencies(s, env, name, onlyHeader);
            Extends(s, d.state, env,
                    if env.manifest.Some? then NewKeys(env.manifest.value(name), name, Known(s))
                    else [],
                    onlyHeader)
  {
    var l := StartLoader(s, name, DependencyList(env, name));
    var known := Known(s);
    StartLoaderKeepsUnique(s, name, DependencyList(env, name));
    if env.manifest.Some? {
      RequestDependenciesQueues(l.state, env, env.manifest.value(name), name, onlyHeader);
      ExtendsFromSameQueue(s, l.state, RequestDependencies(l.state, env, env.manifest.value(name), name, onlyHeader),
                           env, NewKeys(env.manifest.value(name), name, known), onlyHeader);
    } else {
      QueuedAreInFlight(s);
    }
  }

  /** Starting a loader touches no requester, so it keeps the flight
      invariant. */
  lemma StartLoaderKeepsUnique(s: State, name: string, deps: Option<seq<string>>)
    requires Valid(s) && UniqueInFlight(s)
    ensures var l := StartLoader(s, name, deps);
            && l.state.queue == s.queue && l.state.requesters == s.requesters
            && l.state.bundles == s.bundles && l.state.requesting == s.requesting
            && UniqueInFlight(l.state)
  {
  }

  /** Only the backlog and the requesters of the state extended matter. */
  lemma ExtendsFromSameQueue(a: State, a': State, b: State, env: Env, keys: seq<string>, onlyHeader: bool)
    requires a'.queue == a.queue && a'.requesters == a.requesters
    requires Extends(a', b, env, keys, onlyHeader)
    ensures Extends(a, b, env, keys, onlyHeader)
  {
  }

  /** The dependency half never gives a key a second requester. */
  lemma LoaderWithDependenciesKeepsUnique(s: State, env: Env, name: string, onlyHeader: bool)
    requires Valid(s) && UniqueInFlight(s)
    ensures UniqueInFlight(LoaderWithDependencies(s, env, name, onlyHeader).state)
  {
    var l := StartLoader(s, name, DependencyList(env, name));
    assert UniqueInFlight(l.state);
    if env.manifest.Some? {
      RequestDependenciesKeepUnique(l.state, env, env.manifest.value(name), name, onlyHeader);
    }
  }

  /** `LoadAssetBundleAsync` appends to the backlog, after what was already
      queued, a requester for each dependency it asks for, in manifest
      order, and then one for the bundle itself unless that is cached or
      being requested; all of them share `onlyHeader`. */
  lemma LoadAssetBundleAsyncQueues(s: State, env: Env, name: string, onlyHeader: bool)
    requires Valid(s) && UniqueInFlight(s)
    ensures var c := LoadAssetBundleAsync(s, env, name, onlyHeader);
            var known := Known(s);
            var deps := if env.manifest.Some? then NewKeys(env.manifest.value(name), name, known) else [];
            Extends(s, c.state, env, deps + (if name !in known then [name] else []), onlyHeader)
  {
    var known := Known(s);
    var deps := if env.manifest.Some? then NewKeys(env.manifest.value(name), name, known) else [];
    var d := LoaderWithDependencies(s, env, name, onlyHeader);
    LoaderWithDependenciesQueues(s, env, name, onlyHeader);
    LoaderWithDependenciesKeepsUnique(s, env, name, onlyHeader);
    LoaderWithDependenciesCover(s, env, name, onlyHeader);
    assert name in Known(d.state) <==> name in known;
    CreateAssetBundleAsyncQueues(d.state, env, name, onlyHeader);
    ExtendsTrans(s, d.state, CreateAssetBundleAsync(d.state, env, name, onlyHeader).state, env,
                 deps, if name !in known then [name] else [], onlyHeader);
  }

  /** A dependency named by the empty string is awaited by the loader but,
      being filtered out of the requests, is never fetched: unless something
      else caches it, that loader can never complete. */
  lemma EmptyDependencyIsNeverRequested(s: State, env: Env, name: string, onlyHeader: bool)
    requires Valid(s) && env.manifest.Some? && name != []
    requires [] in env.manifest.value(name) && [] !in s.bundles && [] !in s.requesting
    ensures var c := LoadAssetBundleAsync(s, env, name, onlyHeader);
            [] in c.state.loaders.objs[c.result].waiting
            && [] !in c.state.bundles && [] !in c.state.requesting
  {
    var l := StartLoader(s, name, DependencyList(env, name));
    var d := LoaderWithDependencies(s, env, name, onlyHeader);
    assert [] in d.state.loaders.objs[d.result].waiting by {
      assert [] in l.state.loaders.objs[l.result].waiting;
    }
    assert [] !in d.state.requesting by {
      LoaderWithDependenciesCover(s, env, name, onlyHeader);
    }
  }

  /** `GetAssetbundleDependenciesCount`: the number of dependencies
      `LoadAssetBundleAsync` requests for a bundle. The original dereferences
      the manifest without a null check, so while no manifest is loaded the
      call throws, modelled as `None`. */
  method GetAssetbundleDependenciesCount(env: Env, name: string) returns (count: Option<nat>)
    ensures count.None? <==> env.manifest.None?
    ensures count.Some? ==> count.value == |WantedDependencies(env.manifest.value(name), name)|
    ensures count.Some? ==> count.value <= |env.manifest.value(name)|
  {
    if env.manifest.None? {
      return None;
    }
    var deps := env.manifest.value(name);
    var n := 0;
    var i := 0;
    while i < |deps|
      invariant 0 <= i <= |deps|
      invariant n == |WantedDependencies(deps[..i], name)|
    {
      assert deps[..i + 1][..i] == deps[..i];
      if deps[i] != [] && deps[i] != name {
        n := n + 1;
      }
      i := i + 1;
    }
    assert deps[..|deps|] == deps;
    count := Some(n);
  }
}
