/** `AssetBundleAsyncLoader`: waits until a bundle and its dependencies have
    all appeared in the bundle cache (an unordered AND-join), then asks the
    manager to pre-cache the bundle's assets. */
module BundleLoader {
  import opened Basics
  import opened Pools

  /** The bundle cache the loader polls: name -> handle, null on error. */
  type BundleCache = map<string, Handle>

  datatype Loader = Loader(
    sequence: nat,
    name: string,            // assetbundleName
    waiting: seq<string>,    // waitingList
    waitingCount: nat,       // length of the waiting list right after Init
    isOver: bool,
    bundle: Handle)          // assetbundle

  /** The constructor `AssetBundleAsyncLoader(sequence)`. */
  function New(sequence: nat): Loader {
    Loader(sequence, [], [], 0, false, None)
  }

  /** The names of `names` not yet in the cache, in order. */
  function Uncached(names: seq<string>, cache: BundleCache): (r: seq<string>)
    ensures |r| <= |names|
    ensures forall x :: x in r <==> x in names && x !in cache
    ensures r == [] <==> forall x :: x in names ==> x in cache
  {
    if |names| == 0 then []
    else Uncached(names[..|names| - 1], cache)
         + (if names[|names| - 1] in cache then [] else [names[|names| - 1]])
  }

  /** `Init(name, dependencies)`: wait for the target when its cached handle
      is null, and for every dependency not yet in the cache. */
  function Init(l: Loader, name: string, deps: Option<seq<string>>, cache: BundleCache): (l': Loader)
    ensures l'.name == name && !l'.isOver && l'.sequence == l.sequence
    ensures l'.waitingCount == |l'.waiting|
    ensures l'.bundle == Lookup(cache, name)
    ensures name in l'.waiting <==> Lookup(cache, name).None?
    ensures forall d :: d != name ==>
              (d in l'.waiting <==> deps.Some? && d in deps.value && d !in cache)
  {
    var target := if Lookup(cache, name).None? then [name] else [];
    var rest := if deps.Some? then Uncached(deps.value, cache) else [];
    var waiting := target + rest;
    l.(name := name, isOver := false, waiting := waiting, waitingCount := |waiting|,
       bundle := Lookup(cache, name))
  }

  /** `IsDone()`. */
  predicate IsDone(l: Loader) {
    l.isOver
  }

  /** The bundle handle the loader holds after a poll of `cache`: re-read
      when the target itself has just left the waiting list. */
  function BundleAfter(l: Loader, cache: BundleCache): Handle {
    if l.name in l.waiting && l.name in cache then cache[l.name] else l.bundle
  }

  /** The original dereferences the held bundle on completion, so a poll that
      completes the loader needs a non-null bundle. */
  predicate SafeToUpdate(l: Loader, cache: BundleCache) {
    l.isOver || |Uncached(l.waiting, cache)| > 0 || BundleAfter(l, cache).Some?
  }

  /** One poll: the loader afterwards, and whether it asked the manager to
      pre-cache the assets of its bundle. */
  datatype Step = Step(loader: Loader, precache: bool)

  /** `Update`: drop the waiting names now cached, complete when none is
      left, and on completion ask for asset pre-caching unless the bundle
      holds only scenes. A finished loader is left alone. */
  function Update(l: Loader, cache: BundleCache, isScene: BundleId -> bool): (s: Step)
    requires SafeToUpdate(l, cache)
    ensures l.isOver ==> s == Step(l, false)
    ensures !l.isOver ==> forall x :: x in s.loader.waiting <==> x in l.waiting && x !in cache
    ensures !l.isOver ==> (s.loader.isOver <==> forall x :: x in l.waiting ==> x in cache)
    ensures !l.isOver && s.loader.isOver ==> s.loader.waiting == [] && s.loader.bundle.Some?
    ensures s.precache <==>
              !l.isOver && s.loader.isOver && s.loader.bundle.Some? && !isScene(s.loader.bundle.value)
    ensures s.loader.name == l.name && s.loader.sequence == l.sequence
    ensures s.loader.waitingCount == l.waitingCount
  {
    if l.isOver then Step(l, false)
    else
      var waiting := Uncached(l.waiting, cache);
      var l1 := l.(waiting := waiting, bundle := BundleAfter(l, cache));
      if |waiting| > 0 then Step(l1, false)
      else Step(l1.(isOver := true), !isScene(l1.bundle.value))
  }

  /** A loader that can be polled can be polled again against the same
      cache: a poll either completes it or leaves it waiting on names still
      missing. */
  lemma UpdateKeepsSafe(l: Loader, cache: BundleCache, isScene: BundleId -> bool)
    requires SafeToUpdate(l, cache)
    ensures SafeToUpdate(Update(l, cache, isScene).loader, cache)
  {
  }

  /** `Dispose`: forget the target, its bundle and the waiting list. */
  function Reset(l: Loader): (l': Loader)
    ensures l'.waiting == [] && l'.waitingCount == 0 && l'.name == [] && l'.bundle.None?
    ensures l'.sequence == l.sequence
  {
    l.(waiting := [], waitingCount := 0, name := [], bundle := None)
  }

  type LoaderPool = Pool<Loader>

  /** `Dispose()`: reset the loader and return it to the pool. */
  function Dispose(p: LoaderPool, id: nat): (q: LoaderPool)
    requires id in p.objs
    ensures Valid(p) ==> Valid(q)
    ensures q.objs.Keys == p.objs.Keys && q.objs[id] == Reset(p.objs[id])
    ensures forall other :: other in p.objs && other != id ==> q.objs[other] == p.objs[other]
    ensures q.free == p.free + [id]
  {
    Recycle(Put(p, id, Reset(p.objs[id])), id)
  }

  // ---------------------------------------------------------------------
  // Completion

  /** Every name of `closure` is either still awaited or already cached. */
  ghost predicate Covers(l: Loader, closure: set<string>, cache: BundleCache) {
    forall x :: x in closure ==> x in l.waiting || x in cache
  }

  /** A finished loader waits for nothing. */
  ghost predicate WellFormed(l: Loader) {
    l.isOver ==> l.waiting == []
  }

  /** The caches seen by successive polls, each containing the one before. */
  ghost predicate Growing(c: BundleCache, caches: seq<BundleCache>) {
    && (|caches| > 0 ==> c.Keys <= caches[0].Keys)
    && (forall i :: 0 <= i < |caches| - 1 ==> caches[i].Keys <= caches[i + 1].Keys)
  }

  /** Every poll of the run is one the original survives. */
  ghost predicate SafeRun(l: Loader, caches: seq<BundleCache>, isScene: BundleId -> bool)
    decreases |caches|
  {
    |caches| > 0 ==>
      && SafeToUpdate(l, caches[0])
      && SafeRun(Update(l, caches[0], isScene).loader, caches[1..], isScene)
  }

  /** The loader after polling once against each cache of `caches`. */
  ghost function Run(l: Loader, caches: seq<BundleCache>, isScene: BundleId -> bool): Loader
    requires SafeRun(l, caches, isScene)
    decreases |caches|
  {
    if |caches| == 0 then l else Run(Update(l, caches[0], isScene).loader, caches[1..], isScene)
  }

  function Last(c: BundleCache, caches: seq<BundleCache>): BundleCache {
    if |caches| == 0 then c else caches[|caches| - 1]
  }

  /** One poll against a cache that contains the one before keeps the
      closure covered. */
  lemma UpdateKeepsCover(l: Loader, closure: set<string>, c: BundleCache, c': BundleCache,
                         isScene: BundleId -> bool)
    requires Covers(l, closure, c) && WellFormed(l) && c.Keys <= c'.Keys && SafeToUpdate(l, c')
    ensures Covers(Update(l, c', isScene).loader, closure, c')
    ensures WellFormed(Update(l, c', isScene).loader)
  {
  }

  /** The caches after the first still grow. */
  lemma GrowingTail(c: BundleCache, caches: seq<BundleCache>)
    requires Growing(c, caches) && |caches| > 0
    ensures Growing(caches[0], caches[1..])
  {
  }

  /** Polling against a growing cache keeps the closure covered. */
  lemma {:induction false} RunKeepsCover(l: Loader, closure: set<string>, c: BundleCache,
                                         caches: seq<BundleCache>, isScene: BundleId -> bool)
    requires Covers(l, closure, c) && WellFormed(l)
    requires Growing(c, caches) && SafeRun(l, caches, isScene)
    ensures Covers(Run(l, caches, isScene), closure, Last(c, caches))
    ensures WellFormed(Run(l, caches, isScene))
    decreases |caches|
  {
    if |caches| > 0 {
      var l1 := Update(l, caches[0], isScene).loader;
      var rest := caches[1..];
      UpdateKeepsCover(l, closure, c, caches[0], isScene);
      GrowingTail(c, caches);
      RunKeepsCover(l1, closure, caches[0], rest, isScene);
      assert Last(caches[0], rest) == Last(c, caches) by {
        if |rest| > 0 {
          assert rest[|rest| - 1] == caches[|caches| - 1];
        }
      }
    }
  }

  /** A loader completes only once its target and every dependency it was
      initialised with are in the bundle cache, provided the cache only grows
      between polls. */
  lemma {:induction false} CompletionMeansClosureCached(
    l: Loader, name: string, deps: seq<string>, c: BundleCache,
    caches: seq<BundleCache>, isScene: BundleId -> bool)
    requires Growing(c, caches)
    requires SafeRun(Init(l, name, Some(deps), c), caches, isScene)
    requires IsDone(Run(Init(l, name, Some(deps), c), caches, isScene))
    ensures name in Last(c, caches)
    ensures forall d :: d in deps ==> d in Last(c, caches)
  {
    var l0 := Init(l, name, Some(deps), c);
    var closure := {name} + set d | d in deps;
    assert Covers(l0, closure, c) by {
      forall x | x in closure
        ensures x in l0.waiting || x in c
      {
        if x != name {
          assert x in deps;
        }
      }
    }
    var last := Last(c, caches);
    assert forall x :: x in closure ==> x in last by {
      RunKeepsCover(l0, closure, c, caches, isScene);
    }
    assert name in closure;
    forall d | d in deps
      ensures d in last
    {
      assert d in closure;
    }
  }

  /** Even a loader with nothing to wait for completes only at its first
      poll, and that poll completes it. */
  lemma EmptyWaitNeedsOnePoll(l: Loader, name: string, deps: seq<string>, c: BundleCache,
                              isScene: BundleId -> bool)
    requires Lookup(c, name).Some?
    requires forall d :: d in deps ==> d in c
    ensures var l0 := Init(l, name, Some(deps), c);
            && !IsDone(l0) && l0.waiting == [] && SafeToUpdate(l0, c)
            && IsDone(Update(l0, c, isScene).loader)
  {
  }
}
