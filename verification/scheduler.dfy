/** The requester half of `AssetBundleManager.Update`: poll every requester
    in progress, retire the finished ones (publishing cached bundles), then
    admit queued requesters while fewer than `MaxAssetBundleCreateNum` are in
    progress. */
module Scheduler {
  import opened Basics
  import Pools
  import WebRequester
  import opened ManagerState

  /** The part of the manager state the requester pass works on: the
      requester pool, the requesting map and the bundle cache. */
  datatype Net = Net(requesters: Pools.Pool<WebRequester.Requester>, requesting: map<string, nat>,
                     bundles: map<string, Handle>)

  function NetOf(s: State): Net {
    Net(s.requesters, s.requesting, s.bundles)
  }

  /** The key a requester is registered under. */
  function Key(n: Net, id: nat): string
    requires id in n.requesters.objs
  {
    n.requesters.objs[id].name
  }

  /** A requester as this tick's poll leaves it. */
  function Polled(n: Net, io: Io, id: nat): WebRequester.Requester
    requires id in n.requesters.objs
  {
    WebRequester.Update(n.requesters.objs[id], io.status(id))
  }

  /** This tick's poll finds the requester done. */
  predicate FinishesNow(n: Net, io: Io, id: nat)
    requires id in n.requesters.objs
  {
    WebRequester.IsDone(Polled(n, io, id))
  }

  /** The requester finishes now and its bundle is cached: the manager
      publishes its content and recycles it. */
  predicate RetiredNow(n: Net, io: Io, id: nat)
    requires id in n.requesters.objs
  {
    FinishesNow(n, io, id) && !Polled(n, io, id).noCache
  }

  /** A requester as the pass leaves it: polled, and with its request handles
      released when the manager recycled it. */
  function AfterPass(n: Net, io: Io, id: nat): WebRequester.Requester
    requires id in n.requesters.objs
  {
    if RetiredNow(n, io, id) then WebRequester.ClearHandles(Polled(n, io, id)) else Polled(n, io, id)
  }

  /** Every identity of `ids` names an existing requester. */
  predicate AllRequesters(n: Net, ids: seq<nat>) {
    forall i :: 0 <= i < |ids| ==> ids[i] in n.requesters.objs
  }

  /** Poll one requester and retire it if it is done: unregister its key and,
      unless it was a no-cache fetch, publish its content (null on error) in
      the bundle cache and recycle it. No-cache requesters are left for their
      callers to dispose. */
  function RetireOne(n: Net, io: Io, id: nat): (n': Net)
    requires id in n.requesters.objs
    ensures n'.requesters.objs.Keys == n.requesters.objs.Keys
    ensures n'.requesters.objs[id] == AfterPass(n, io, id)
    ensures n'.requesting == if FinishesNow(n, io, id) then n.requesting - {Key(n, id)} else n.requesting
    ensures n'.bundles == if RetiredNow(n, io, id)
                          then n.bundles[Key(n, id) := WebRequester.Content(Polled(n, io, id))]
                          else n.bundles
    ensures n'.requesters.free == if RetiredNow(n, io, id) then n.requesters.free + [id] else n.requesters.free
  {
    var r := Polled(n, io, id);
    var q := Pools.Put(n.requesters, id, r);
    if !WebRequester.IsDone(r) then n.(requesters := q)
    else if r.noCache then Net(q, n.requesting - {r.name}, n.bundles)
    else Net(WebRequester.Dispose(q, id), n.requesting - {r.name}, n.bundles[r.name := WebRequester.Content(r)])
  }

  /** Retiring one requester keeps the pool well formed and touches no other
      requester. */
  lemma RetireOneFrame1(n: Net, io: Io, id: nat)
    requires id in n.requesters.objs
    ensures var n' := RetireOne(n, io, id);
            && (Pools.Valid(n.requesters) ==> Pools.Valid(n'.requesters))
            && forall other :: other in n.requesters.objs && other != id ==>
                 n'.requesters.objs[other] == n.requesters.objs[other]
  {
  }

  /** The outcome of a backward pass over a list: what the pass leaves and the
      elements it kept, in their original order. */
  datatype Pass = Pass(net: Net, kept: seq<nat>)

  /** The backward loop over `_processingWebRequester`: retire each requester
      from the last to the first, keeping the unfinished ones. */
  function PollRequesters(n: Net, io: Io, ids: seq<nat>): (p: Pass)
    requires AllRequesters(n, ids)
    ensures p.net.requesters.objs.Keys == n.requesters.objs.Keys
    decreases |ids|
  {
    if |ids| == 0 then Pass(n, [])
    else
      var last := ids[|ids| - 1];
      var p := PollRequesters(RetireOne(n, io, last), io, ids[..|ids| - 1]);
      Pass(p.net, p.kept + if FinishesNow(n, io, last) then [] else [last])
  }

  /** The pass keeps the pool well formed, touches no requester outside the
      list and only ever unregisters keys. */
  lemma {:induction false} PollFrame(n: Net, io: Io, ids: seq<nat>)
    requires AllRequesters(n, ids)
    ensures var p := PollRequesters(n, io, ids);
            && (Pools.Valid(n.requesters) ==> Pools.Valid(p.net.requesters))
            && (forall other :: other in n.requesters.objs && other !in ids ==>
                  p.net.requesters.objs[other] == n.requesters.objs[other])
            && (forall k :: k in p.net.requesting ==> k in n.requesting && p.net.requesting[k] == n.requesting[k])
            && (forall i :: 0 <= i < |p.kept| ==> p.kept[i] in ids)
    decreases |ids|
  {
    if |ids| > 0 {
      var last := ids[|ids| - 1];
      var init := ids[..|ids| - 1];
      var n1 := RetireOne(n, io, last);
      assert PollRequesters(n, io, ids).net == PollRequesters(n1, io, init).net;
      RetireOneFrame1(n, io, last);
      PollFrame(n1, io, init);
      assert forall x :: x in ids <==> x in init || x == last;
    }
  }

  // ---------------------------------------------------------------------
  // What the pass does

  /** No two requesters of `ids` share a key (hence no identity repeats). */
  ghost predicate KeysDistinct(n: Net, ids: seq<nat>)
    requires AllRequesters(n, ids)
  {
    forall i, j :: 0 <= i < j < |ids| ==> Key(n, ids[i]) != Key(n, ids[j])
  }

  /** The requesters the pass keeps in progress. */
  function Unfinished(n: Net, io: Io): nat -> bool {
    (id: nat) => id in n.requesters.objs && !FinishesNow(n, io, id)
  }

  /** The keys of the requesters of `ids` that finish now. */
  function FinishedKeys(n: Net, io: Io, ids: seq<nat>): set<string>
    requires AllRequesters(n, ids)
    decreases |ids|
  {
    if |ids| == 0 then {}
    else
      var last := ids[|ids| - 1];
      FinishedKeys(n, io, ids[..|ids| - 1]) + if FinishesNow(n, io, last) then {Key(n, last)} else {}
  }

  /** The keys whose bundles the pass publishes. */
  function CachedKeys(n: Net, io: Io, ids: seq<nat>): set<string>
    requires AllRequesters(n, ids)
    decreases |ids|
  {
    if |ids| == 0 then {}
    else
      var last := ids[|ids| - 1];
      CachedKeys(n, io, ids[..|ids| - 1]) + if RetiredNow(n, io, last) then {Key(n, last)} else {}
  }

  /** The requesters the pass recycles, in the order it recycles them. */
  function Recycled(n: Net, io: Io, ids: seq<nat>): seq<nat>
    requires AllRequesters(n, ids)
    decreases |ids|
  {
    if |ids| == 0 then []
    else
      var last := ids[|ids| - 1];
      (if RetiredNow(n, io, last) then [last] else []) + Recycled(n, io, ids[..|ids| - 1])
  }

  /** The pass recycles exactly the cached requesters of the list that
      finish, each once. */
  lemma {:induction false} RecycledMembers(n: Net, io: Io, ids: seq<nat>)
    requires AllRequesters(n, ids)
    ensures forall x :: x in Recycled(n, io, ids) <==> x in ids && RetiredNow(n, io, x)
    ensures Distinct(ids) ==> Distinct(Recycled(n, io, ids))
    decreases |ids|
  {
    if |ids| > 0 {
      var last := ids[|ids| - 1];
      var init := ids[..|ids| - 1];
      RecycledMembers(n, io, init);
      assert forall x :: x in ids <==> x in init || x == last;
      if Distinct(ids) {
        assert Distinct(init) && last !in init by {
          assert forall i :: 0 <= i < |init| ==> init[i] == ids[i];
        }
        DistinctAppend(if RetiredNow(n, io, last) then [last] else [], Recycled(n, io, init));
      }
    }
  }

  /** The key of every requester of the list that finishes is among the
      finished keys ... */
  lemma {:induction false} FinishedKeyIn(n: Net, io: Io, ids: seq<nat>, i: nat)
    requires AllRequesters(n, ids) && i < |ids| && FinishesNow(n, io, ids[i])
    ensures Key(n, ids[i]) in FinishedKeys(n, io, ids)
    decreases |ids|
  {
    if i < |ids| - 1 {
      var init := ids[..|ids| - 1];
      assert init[i] == ids[i];
      FinishedKeyIn(n, io, init, i);
    }
  }

  /** ... and every finished key is the key of such a requester. */
  lemma {:induction false} FinishedKeyOwner(n: Net, io: Io, ids: seq<nat>, k: string) returns (i: nat)
    requires AllRequesters(n, ids) && k in FinishedKeys(n, io, ids)
    ensures i < |ids| && FinishesNow(n, io, ids[i]) && Key(n, ids[i]) == k
    decreases |ids|
  {
    var last := ids[|ids| - 1];
    var init := ids[..|ids| - 1];
    if FinishesNow(n, io, last) && Key(n, last) == k {
      i := |ids| - 1;
    } else {
      i := FinishedKeyOwner(n, io, init, k);
      assert init[i] == ids[i];
    }
  }

  /** Retiring the last requester of the list leaves the others untouched. */
  lemma RetireOneFrame(n: Net, io: Io, ids: seq<nat>)
    requires AllRequesters(n, ids) && |ids| > 0 && Distinct(ids)
    ensures var n1 := RetireOne(n, io, ids[|ids| - 1]);
            var init := ids[..|ids| - 1];
            && AllRequesters(n1, init) && Distinct(init) && ids[|ids| - 1] !in init
            && (forall i :: 0 <= i < |init| ==> n1.requesters.objs[init[i]] == n.requesters.objs[init[i]])
  {
  }

  /** What the pass makes of a list depends only on the requesters of the
      list. */
  lemma {:induction false} PassViewCongruent(n: Net, n1: Net, io: Io, ids: seq<nat>)
    requires AllRequesters(n, ids) && AllRequesters(n1, ids)
    requires forall i :: 0 <= i < |ids| ==> n1.requesters.objs[ids[i]] == n.requesters.objs[ids[i]]
    ensures FinishedKeys(n1, io, ids) == FinishedKeys(n, io, ids)
    ensures CachedKeys(n1, io, ids) == CachedKeys(n, io, ids)
    ensures Recycled(n1, io, ids) == Recycled(n, io, ids)
    ensures Filter(ids, Unfinished(n1, io)) == Filter(ids, Unfinished(n, io))
    ensures forall i :: 0 <= i < |ids| ==> AfterPass(n1, io, ids[i]) == AfterPass(n, io, ids[i])
    decreases |ids|
  {
    if |ids| > 0 {
      PassViewCongruent(n, n1, io, ids[..|ids| - 1]);
    }
    FilterCongruent(ids, Unfinished(n1, io), Unfinished(n, io));
  }

  /** The pass never keeps more requesters than it polls. */
  lemma {:induction false} PollKeepsAtMost(n: Net, io: Io, ids: seq<nat>)
    requires AllRequesters(n, ids)
    ensures |PollRequesters(n, io, ids).kept| <= |ids|
    decreases |ids|
  {
    if |ids| > 0 {
      var init := ids[..|ids| - 1];
      var n1 := RetireOne(n, io, ids[|ids| - 1]);
      assert AllRequesters(n1, init) by {
        assert forall i :: 0 <= i < |init| ==> init[i] == ids[i];
      }
      PollKeepsAtMost(n1, io, init);
    }
  }

  /** The pass keeps, in order, exactly the requesters that are not done. */
  lemma {:induction false} PollKeepsUnfinished(n: Net, io: Io, ids: seq<nat>)
    requires AllRequesters(n, ids) && Distinct(ids)
    ensures PollRequesters(n, io, ids).kept == Filter(ids, Unfinished(n, io))
    decreases |ids|
  {
    if |ids| > 0 {
      var init := ids[..|ids| - 1];
      var n1 := RetireOne(n, io, ids[|ids| - 1]);
      RetireOneFrame(n, io, ids);
      PollKeepsUnfinished(n1, io, init);
      PassViewCongruent(n, n1, io, init);
    }
  }

  /** The pass unregisters exactly the keys of the requesters that finish. */
  lemma {:induction false} PollUnregistersFinished(n: Net, io: Io, ids: seq<nat>)
    requires AllRequesters(n, ids) && Distinct(ids)
    ensures PollRequesters(n, io, ids).net.requesting == n.requesting - FinishedKeys(n, io, ids)
    decreases |ids|
  {
    if |ids| > 0 {
      var last := ids[|ids| - 1];
      var init := ids[..|ids| - 1];
      var n1 := RetireOne(n, io, last);
      var A := if FinishesNow(n, io, last) then {Key(n, last)} else {};
      var r := PollRequesters(n1, io, init).net.requesting;
      assert PollRequesters(n, io, ids).net.requesting == r;
      assert r == n1.requesting - FinishedKeys(n, io, init) by {
        RetireOneFrame(n, io, ids);
        PollUnregistersFinished(n1, io, init);
        PassViewCongruent(n, n1, io, init);
      }
      assert n1.requesting == n.requesting - A;
      assert FinishedKeys(n, io, ids) == FinishedKeys(n, io, init) + A;
      RemoveKeysTwice(n.requesting, A, FinishedKeys(n, io, init));
    }
  }

  /** Distinct keys in a list mean distinct requesters, and they stay
      distinct for the rest of the list once its last requester is retired. */
  lemma KeysDistinctStep(n: Net, io: Io, ids: seq<nat>)
    requires AllRequesters(n, ids) && KeysDistinct(n, ids) && |ids| > 0
    ensures Distinct(ids)
    ensures var n1 := RetireOne(n, io, ids[|ids| - 1]);
            AllRequesters(n1, ids[..|ids| - 1]) && KeysDistinct(n1, ids[..|ids| - 1])
  {
  }

  /** The bundle cache gains exactly the keys the pass publishes. */
  lemma {:induction false} PollPublishesKeys(n: Net, io: Io, ids: seq<nat>)
    requires AllRequesters(n, ids) && Distinct(ids)
    ensures PollRequesters(n, io, ids).net.bundles.Keys == n.bundles.Keys + CachedKeys(n, io, ids)
    decreases |ids|
  {
    if |ids| > 0 {
      var last := ids[|ids| - 1];
      var init := ids[..|ids| - 1];
      var n1 := RetireOne(n, io, last);
      var C := if RetiredNow(n, io, last) then {Key(n, last)} else {};
      var b := PollRequesters(n1, io, init).net.bundles;
      assert PollRequesters(n, io, ids).net.bundles == b;
      assert b.Keys == n1.bundles.Keys + CachedKeys(n, io, init) by {
        RetireOneFrame(n, io, ids);
        PollPublishesKeys(n1, io, init);
        PassViewCongruent(n, n1, io, init);
      }
      assert n1.bundles.Keys == n.bundles.Keys + C;
      assert CachedKeys(n, io, ids) == CachedKeys(n, io, init) + C;
      UnionRegroup(n.bundles.Keys, CachedKeys(n, io, init), C);
    }
  }

  /** The pass leaves alone every key of the bundle cache it does not
      publish. */
  lemma {:induction false} PollKeepsOtherBundles(n: Net, io: Io, ids: seq<nat>, k: string)
    requires AllRequesters(n, ids) && KeysDistinct(n, ids)
    requires k in n.bundles && k !in CachedKeys(n, io, ids)
    ensures var b := PollRequesters(n, io, ids).net.bundles;
            k in b && b[k] == n.bundles[k]
    decreases |ids|
  {
    if |ids| > 0 {
      var last := ids[|ids| - 1];
      var init := ids[..|ids| - 1];
      var n1 := RetireOne(n, io, last);
      assert PollRequesters(n, io, ids).net == PollRequesters(n1, io, init).net;
      KeysDistinctStep(n, io, ids);
      RetireOneFrame(n, io, ids);
      PassViewCongruent(n, n1, io, init);
      assert CachedKeys(n, io, ids) == CachedKeys(n, io, init) + if RetiredNow(n, io, last) then {Key(n, last)} else {};
      assert k in n1.bundles && n1.bundles[k] == n.bundles[k];
      PollKeepsOtherBundles(n1, io, init, k);
    }
  }

  /** The pass publishes the content of every cached requester that finishes
      under its key. */
  lemma {:induction false} PollPublishesRetired(n: Net, io: Io, ids: seq<nat>, i: nat)
    requires AllRequesters(n, ids) && KeysDistinct(n, ids)
    requires i < |ids| && RetiredNow(n, io, ids[i])
    ensures var b := PollRequesters(n, io, ids).net.bundles;
            Key(n, ids[i]) in b && b[Key(n, ids[i])] == WebRequester.Content(Polled(n, io, ids[i]))
    decreases |ids|
  {
    var last := ids[|ids| - 1];
    var init := ids[..|ids| - 1];
    var n1 := RetireOne(n, io, last);
    var b := PollRequesters(n1, io, init).net.bundles;
    assert PollRequesters(n, io, ids).net.bundles == b;
    KeysDistinctStep(n, io, ids);
    if i == |ids| - 1 {
      var K := Key(n, last);
      assert K in n1.bundles && n1.bundles[K] == WebRequester.Content(Polled(n, io, last));
      assert K !in CachedKeys(n1, io, init) by {
        RetireOneFrame(n, io, ids);
        PassViewCongruent(n, n1, io, init);
        KeyNotCached(n, io, ids);
      }
      PollKeepsOtherBundles(n1, io, init, K);
    } else {
      assert ids[i] == init[i];
      assert RetiredNow(n1, io, init[i]) && Key(n1, init[i]) == Key(n, ids[i])
          && Polled(n1, io, init[i]) == Polled(n, io, ids[i]) by {
        RetireOneFrame(n, io, ids);
      }
      PollPublishesRetired(n1, io, init, i);
    }
  }

  /** A cached download that fails is remembered as a null bundle under its
      key, so later loads of that bundle see the failure rather than request
      it again. */
  lemma PollPublishesNullOnError(n: Net, io: Io, ids: seq<nat>, i: nat)
    requires AllRequesters(n, ids) && KeysDistinct(n, ids)
    requires i < |ids| && RetiredNow(n, io, ids[i])
    requires WebRequester.Error(Polled(n, io, ids[i])).Some?
    ensures var b := PollRequesters(n, io, ids).net.bundles;
            Key(n, ids[i]) in b && b[Key(n, ids[i])].None?
  {
    PollPublishesRetired(n, io, ids, i);
  }

  /** With distinct keys, the last requester's key is not among those the
      rest of the list publishes. */
  lemma {:induction false} KeyNotCached(n: Net, io: Io, ids: seq<nat>)
    requires AllRequesters(n, ids) && KeysDistinct(n, ids) && |ids| > 0
    ensures Key(n, ids[|ids| - 1]) !in CachedKeys(n, io, ids[..|ids| - 1])
  {
    var k := Key(n, ids[|ids| - 1]);
    var init := ids[..|ids| - 1];
    assert forall i :: 0 <= i < |init| ==> Key(n, init[i]) != k by {
      assert forall i :: 0 <= i < |init| ==> init[i] == ids[i];
    }
    KeysOfCached(n, io, init, k);
  }

  /** A key no finishing requester of the list carries is not unregistered. */
  lemma {:induction false} NotFinishedKey(n: Net, io: Io, ids: seq<nat>, k: string)
    requires AllRequesters(n, ids)
    requires forall i :: 0 <= i < |ids| && FinishesNow(n, io, ids[i]) ==> Key(n, ids[i]) != k
    ensures k !in FinishedKeys(n, io, ids)
    decreases |ids|
  {
    if |ids| > 0 {
      var init := ids[..|ids| - 1];
      assert forall i :: 0 <= i < |init| ==> init[i] == ids[i];
      NotFinishedKey(n, io, init, k);
    }
  }

  /** A key the pass publishes belongs to a requester of the list. */
  lemma {:induction false} KeysOfCached(n: Net, io: Io, ids: seq<nat>, k: string)
    requires AllRequesters(n, ids) && forall i :: 0 <= i < |ids| ==> Key(n, ids[i]) != k
    ensures k !in CachedKeys(n, io, ids) && k !in FinishedKeys(n, io, ids)
    decreases |ids|
  {
    if |ids| > 0 {
      KeysOfCached(n, io, ids[..|ids| - 1], k);
    }
  }

  /** The pass leaves each of its requesters polled, with its handles
      released when the manager recycled it. */
  lemma {:induction false} PollUpdatesRequesters(n: Net, io: Io, ids: seq<nat>)
    requires AllRequesters(n, ids) && Distinct(ids)
    ensures var q := PollRequesters(n, io, ids).net.requesters;
            forall i :: 0 <= i < |ids| ==> q.objs[ids[i]] == AfterPass(n, io, ids[i])
    decreases |ids|
  {
    if |ids| > 0 {
      var last := ids[|ids| - 1];
      var init := ids[..|ids| - 1];
      var n1 := RetireOne(n, io, last);
      var q := PollRequesters(n1, io, init).net.requesters;
      assert PollRequesters(n, io, ids).net.requesters == q;
      assert q.objs[last] == AfterPass(n, io, last) by {
        RetireOneFrame(n, io, ids);
        PollFrame(n1, io, init);
      }
      assert forall i :: 0 <= i < |init| ==> q.objs[init[i]] == AfterPass(n, io, init[i]) by {
        RetireOneFrame(n, io, ids);
        PollUpdatesRequesters(n1, io, init);
        PassViewCongruent(n, n1, io, init);
      }
      forall i | 0 <= i < |ids|
        ensures q.objs[ids[i]] == AfterPass(n, io, ids[i])
      {
        if i < |init| {
          assert ids[i] == init[i];
        }
      }
    }
  }

  /** The pass recycles exactly the cached requesters that finish, the last
      of the list first. */
  lemma {:induction false} PollRecyclesRetired(n: Net, io: Io, ids: seq<nat>)
    requires AllRequesters(n, ids) && Distinct(ids)
    ensures PollRequesters(n, io, ids).net.requesters.free == n.requesters.free + Recycled(n, io, ids)
    decreases |ids|
  {
    if |ids| > 0 {
      var last := ids[|ids| - 1];
      var init := ids[..|ids| - 1];
      var n1 := RetireOne(n, io, last);
      var R := if RetiredNow(n, io, last) then [last] else [];
      var p := PollRequesters(n1, io, init);
      assert PollRequesters(n, io, ids).net == p.net;
      RetireOneFrame(n, io, ids);
      PollRecyclesRetired(n1, io, init);
      PassViewCongruent(n, n1, io, init);
      assert p.net.requesters.free == n1.requesters.free + Recycled(n, io, init);
      assert n1.requesters.free == n.requesters.free + R;
      assert Recycled(n, io, ids) == R + Recycled(n, io, init);
      AppendAssoc(n.requesters.free, R, Recycled(n, io, init));
    }
  }

  // ---------------------------------------------------------------------
  // The pass on the manager state

  /** The backward loop of `OnProcessingWebRequester` on the manager state:
      the requesters still in progress stay in `_processingWebRequester`. */
  function RetirePass(s: State, io: Io): (s': State)
    requires Valid(s)
    ensures Valid(s')
    ensures s' == s.(requesters := s'.requesters, requesting := s'.requesting, bundles := s'.bundles,
                     processing := s'.processing)
    ensures s'.requesters.objs.Keys == s.requesters.objs.Keys
    ensures forall i :: 0 <= i < |s'.processing| ==> s'.processing[i] in s.processing
    ensures forall k :: k in s'.requesting ==> k in s.requesting && s'.requesting[k] == s.requesting[k]
  {
    var p := PollRequesters(NetOf(s), io, s.processing);
    PollFrame(NetOf(s), io, s.processing);
    s.(requesters := p.net.requesters, requesting := p.net.requesting, bundles := p.net.bundles,
       processing := p.kept)
  }

  /** The queue and the requesters in progress are each free of duplicates
      and share none. */
  lemma FlightParts(s: State)
    requires Valid(s) && UniqueInFlight(s)
    ensures Distinct(s.queue) && Distinct(s.processing)
    ensures forall i, j :: 0 <= i < |s.queue| && 0 <= j < |s.processing| ==> s.queue[i] != s.processing[j]
  {
    DistinctAppend(s.queue, s.processing);
  }

  /** The pass renames no requester. */
  lemma RetirePassKeepsNames(s: State, io: Io)
    requires Valid(s) && Distinct(s.processing)
    ensures var s' := RetirePass(s, io);
            forall id :: id in s.requesters.objs ==> s'.requesters.objs[id].name == s.requesters.objs[id].name
  {
    var n := NetOf(s);
    var q := RetirePass(s, io).requesters;
    PollFrame(n, io, s.processing);
    PollUpdatesRequesters(n, io, s.processing);
    forall id | id in s.requesters.objs
      ensures q.objs[id].name == s.requesters.objs[id].name
    {
      if id in s.processing {
        var i :| 0 <= i < |s.processing| && s.processing[i] == id;
        assert q.objs[id] == AfterPass(n, io, id);
      }
    }
  }

  /** What the pass does to the manager state, when the requesters in
      flight are registered uniquely: it keeps in progress exactly the
      requesters not done, in order; it unregisters exactly the keys of those
      that finish; it recycles the cached ones that finish. */
  lemma RetirePassSpec(s: State, io: Io)
    requires Valid(s) && UniqueInFlight(s)
    ensures var s' := RetirePass(s, io);
            var n := NetOf(s);
            && s'.processing == Filter(s.processing, Unfinished(n, io))
            && s'.requesting == s.requesting - FinishedKeys(n, io, s.processing)
            && s'.requesters.free == s.requesters.free + Recycled(n, io, s.processing)
            && (forall i :: 0 <= i < |s.processing| ==>
                  s'.requesters.objs[s.processing[i]] == AfterPass(n, io, s.processing[i]))
  {
    FlightParts(s);
    var n := NetOf(s);
    PollKeepsUnfinished(n, io, s.processing);
    PollUnregistersFinished(n, io, s.processing);
    PollRecyclesRetired(n, io, s.processing);
    PollUpdatesRequesters(n, io, s.processing);
  }

  /** After the pass the queue and the requesters kept in progress are still
      free of duplicates. */
  lemma RetirePassFlightDistinct(s: State, io: Io)
    requires Valid(s) && UniqueInFlight(s)
    ensures Distinct(InFlight(RetirePass(s, io)))
  {
    var s' := RetirePass(s, io);
    FlightParts(s);
    RetirePassSpec(s, io);
    FilterDistinct(s.processing, Unfinished(NetOf(s), io));
    forall i, j | 0 <= i < |s'.queue| && 0 <= j < |s'.processing|
      ensures s'.queue[i] != s'.processing[j]
    {
      var k :| 0 <= k < |s.processing| && s.processing[k] == s'.processing[j];
    }
    DistinctAppend(s'.queue, s'.processing);
  }

  /** After the pass every key still registered names a requester in flight
      registered under it. */
  lemma RetirePassRegisteredInFlight(s: State, io: Io)
    requires Valid(s) && UniqueInFlight(s)
    ensures var s' := RetirePass(s, io);
            forall k :: k in s'.requesting ==> s'.requesting[k] in InFlight(s') && NameOf(s', s'.requesting[k]) == k
  {
    var s' := RetirePass(s, io);
    var n := NetOf(s);
    RetirePassSpec(s, io);
    FlightParts(s);
    RetirePassKeepsNames(s, io);
    forall k | k in s'.requesting
      ensures s'.requesting[k] in InFlight(s') && NameOf(s', s'.requesting[k]) == k
    {
      var id := s.requesting[k];
      assert s'.requesting[k] == id && id in InFlight(s) && NameOf(s, id) == k;
      if id !in s.queue {
        var j :| 0 <= j < |s.processing| && s.processing[j] == id;
        if FinishesNow(n, io, id) {
          FinishedKeyIn(n, io, s.processing, j);
          assert false;
        }
        assert id in s'.processing;
      }
    }
  }

  /** A queued requester, or one in progress that is not done, is still
      registered under its key after the pass. */
  lemma StaysRegistered(s: State, io: Io, x: nat)
    requires Valid(s) && UniqueInFlight(s)
    requires x in s.queue || (x in s.processing && !FinishesNow(NetOf(s), io, x))
    ensures var s' := RetirePass(s, io);
            x in s.requesters.objs && NameOf(s, x) in s'.requesting && s'.requesting[NameOf(s, x)] == x
  {
    var n := NetOf(s);
    var k := NameOf(s, x);
    FlightParts(s);
    var ix: nat;
    if x in s.queue {
      ix :| 0 <= ix < |s.queue| && s.queue[ix] == x;
    } else {
      var j :| 0 <= j < |s.processing| && s.processing[j] == x;
      ix := |s.queue| + j;
    }
    assert InFlight(s)[ix] == x;
    assert k in s.requesting && s.requesting[k] == x;
    forall j | 0 <= j < |s.processing| && FinishesNow(n, io, s.processing[j])
      ensures Key(n, s.processing[j]) != k
    {
      var y := s.processing[j];
      assert InFlight(s)[|s.queue| + j] == y;
      assert s.requesting[NameOf(s, y)] == y;
      assert y != x;
    }
    NotFinishedKey(n, io, s.processing, k);
    PollUnregistersFinished(n, io, s.processing);
  }

  /** After the pass every requester in flight is registered under its own
      key. */
  lemma RetirePassInFlightRegistered(s: State, io: Io)
    requires Valid(s) && UniqueInFlight(s)
    ensures var s' := RetirePass(s, io);
            forall i :: 0 <= i < |InFlight(s')| ==>
              NameOf(s', InFlight(s')[i]) in s'.requesting
              && s'.requesting[NameOf(s', InFlight(s')[i])] == InFlight(s')[i]
  {
    var s' := RetirePass(s, io);
    forall x | x in s'.queue || x in s'.processing
      ensures NameOf(s', x) in s'.requesting && s'.requesting[NameOf(s', x)] == x
    {
      KeptStaysRegistered(s, io, x);
    }
    forall i | 0 <= i < |InFlight(s')|
      ensures NameOf(s', InFlight(s')[i]) in s'.requesting
              && s'.requesting[NameOf(s', InFlight(s')[i])] == InFlight(s')[i]
    {
      assert InFlight(s')[i] in s'.queue + s'.processing;
    }
  }

  /** A requester in flight after the pass keeps its name and its
      registration. */
  lemma KeptStaysRegistered(s: State, io: Io, x: nat)
    requires Valid(s) && UniqueInFlight(s)
    requires x in s.queue || x in RetirePass(s, io).processing
    ensures var s' := RetirePass(s, io);
            x in s'.requesters.objs && NameOf(s', x) in s'.requesting && s'.requesting[NameOf(s', x)] == x
  {
    var n := NetOf(s);
    FlightParts(s);
    if x !in s.queue {
      PollKeepsUnfinished(n, io, s.processing);
      assert x in s.processing && !FinishesNow(n, io, x);
    }
    RetirePassKeepsNames(s, io);
    StaysRegistered(s, io, x);
  }

  /** After the pass no requester in flight sits in the pool, and none sits
      in it twice. */
  lemma RetirePassFreeIdle(s: State, io: Io)
    requires Valid(s) && UniqueInFlight(s)
    ensures var s' := RetirePass(s, io);
            && (forall i :: 0 <= i < |s'.requesters.free| ==> s'.requesters.free[i] !in InFlight(s'))
            && Distinct(s'.requesters.free)
  {
    var s' := RetirePass(s, io);
    var n := NetOf(s);
    var R := Recycled(n, io, s.processing);
    RetirePassSpec(s, io);
    FlightParts(s);
    RecycledMembers(n, io, s.processing);
    forall i | 0 <= i < |s'.requesters.free|
      ensures s'.requesters.free[i] !in InFlight(s')
    {
      var e := s'.requesters.free[i];
      if i < |s.requesters.free| {
        assert e == s.requesters.free[i] && e !in InFlight(s);
        assert e !in s.queue && e !in s.processing;
        assert e !in s'.processing;
      } else {
        assert e == R[i - |s.requesters.free|];
        assert e in s.processing && RetiredNow(n, io, e);
        var j :| 0 <= j < |s.processing| && s.processing[j] == e;
        assert e !in s.queue;
        assert e !in s'.processing;
      }
    }
    forall i, j | 0 <= i < |s.requesters.free| && 0 <= j < |R|
      ensures s.requesters.free[i] != R[j]
    {
      assert R[j] in s.processing;
      assert R[j] in InFlight(s);
    }
    DistinctAppend(s.requesters.free, R);
  }

  /** The pass keeps the requesters in flight registered uniquely. */
  lemma RetirePassKeepsUnique(s: State, io: Io)
    requires Valid(s) && UniqueInFlight(s)
    ensures UniqueInFlight(RetirePass(s, io))
  {
    RetirePassFlightDistinct(s, io);
    RetirePassRegisteredInFlight(s, io);
    RetirePassInFlightRegistered(s, io);
    RetirePassFreeIdle(s, io);
  }

  // ---------------------------------------------------------------------
  // Admission

  /** How many of `queued` waiting requesters the admission loop starts
      beside `running` in progress: one per free slot below
      `MaxAssetBundleCreateNum`, and no more than are queued. */
  function Slots(running: nat, queued: nat): (k: nat)
    ensures k <= queued
    ensures k == 0 || running + k <= MaxAssetBundleCreateNum
    ensures k < queued ==> running + k >= MaxAssetBundleCreateNum
  {
    if running >= MaxAssetBundleCreateNum then 0
    else if MaxAssetBundleCreateNum - running < queued then MaxAssetBundleCreateNum - running
    else queued
  }

  /** The number of queued requesters admission starts in state `s`. */
  function Admitted(s: State): nat
  {
    Slots(|s.processing|, |s.queue|)
  }

  /** Start the requesters of `ids` in turn. */
  function StartAll(p: Pools.Pool<WebRequester.Requester>, ids: seq<nat>, io: Io): (q: Pools.Pool<WebRequester.Requester>)
    requires forall i :: 0 <= i < |ids| ==> ids[i] in p.objs
    ensures q.objs.Keys == p.objs.Keys
    decreases |ids|
  {
    if |ids| == 0 then p
    else
      var q := StartAll(p, ids[..|ids| - 1], io);
      var id := ids[|ids| - 1];
      Pools.Put(q, id, WebRequester.Start(q.objs[id], io.created(id)))
  }

  /** Starting one more requester extends the run of starts by one step. */
  lemma StartAllSnoc(p: Pools.Pool<WebRequester.Requester>, ids: seq<nat>, k: nat, io: Io)
    requires forall i :: 0 <= i < |ids| ==> ids[i] in p.objs
    requires k < |ids|
    ensures var q := StartAll(p, ids[..k], io);
            && ids[k] in q.objs
            && StartAll(p, ids[..k + 1], io) == Pools.Put(q, ids[k], WebRequester.Start(q.objs[ids[k]], io.created(ids[k])))
  {
    assert ids[..k + 1][..k] == ids[..k];
    assert ids[..k + 1][k] == ids[k];
  }

  /** Starting requesters keeps the pool well formed and its free list as it
      is, touches no other requester, and starts each requester of a list
      without duplicates from the state it was queued in. */
  lemma {:induction false} StartAllFacts(p: Pools.Pool<WebRequester.Requester>, ids: seq<nat>, io: Io)
    requires forall i :: 0 <= i < |ids| ==> ids[i] in p.objs
    ensures var q := StartAll(p, ids, io);
            && (Pools.Valid(p) ==> Pools.Valid(q))
            && q.free == p.free
            && (forall id :: id in p.objs && id !in ids ==> q.objs[id] == p.objs[id])
            && (Distinct(ids) ==>
                  forall i :: 0 <= i < |ids| ==> q.objs[ids[i]] == WebRequester.Start(p.objs[ids[i]], io.created(ids[i])))
    decreases |ids|
  {
    if |ids| > 0 {
      var init := ids[..|ids| - 1];
      var last := ids[|ids| - 1];
      StartAllFacts(p, init, io);
      assert forall x :: x in ids <==> x in init || x == last;
      if Distinct(ids) {
        assert Distinct(init) && last !in init by {
          assert forall i :: 0 <= i < |init| ==> init[i] == ids[i];
        }
        forall i | 0 <= i < |ids|
          ensures StartAll(p, ids, io).objs[ids[i]] == WebRequester.Start(p.objs[ids[i]], io.created(ids[i]))
        {
          if i < |init| {
            assert ids[i] == init[i] && ids[i] != last;
          }
        }
      }
    }
  }

  /** What the admission loop leaves: the `Admitted(s)` oldest queued
      requesters started and moved, in order, behind those in progress. */
  function Admission(s: State, io: Io): (s': State)
    requires Valid(s)
    ensures Valid(s')
    ensures s' == s.(queue := s'.queue, processing := s'.processing, requesters := s'.requesters)
  {
    var k := Admitted(s);
    var started := s.queue[..k];
    StartAllFacts(s.requesters, started, io);
    ValidWithFlight(s, s.queue[k..], s.processing + started, StartAll(s.requesters, started, io));
    s.(queue := s.queue[k..], processing := s.processing + started, requesters := StartAll(s.requesters, started, io))
  }

  /** Admission moves the `Admitted(s)` oldest queued requesters, in order,
      behind those in progress, starts each of them once (the queue holding
      no duplicates), and touches no other requester. */
  lemma AdmissionSpec(s: State, io: Io)
    requires Valid(s)
    ensures var s' := Admission(s, io);
            && s'.queue == s.queue[Admitted(s)..]
            && s'.processing == s.processing + s.queue[..Admitted(s)]
            && s'.requesters.objs.Keys == s.requesters.objs.Keys && s'.requesters.free == s.requesters.free
            && (forall id :: id in s.requesters.objs && id !in s.queue[..Admitted(s)] ==>
                  s'.requesters.objs[id] == s.requesters.objs[id])
            && (Distinct(s.queue) ==>
                  forall i :: 0 <= i < Admitted(s) ==>
                    s'.requesters.objs[s.queue[i]] == WebRequester.Start(s.requesters.objs[s.queue[i]], io.created(s.queue[i])))
  {
    var k := Admitted(s);
    var started := s.queue[..k];
    StartAllFacts(s.requesters, started, io);
    if Distinct(s.queue) {
      assert Distinct(started);
      assert forall i :: 0 <= i < k ==> s.queue[i] == started[i];
    }
  }

  /** The admission loop of `OnProcessingWebRequester` on its own data:
      while a slot is free and a requester is queued, dequeue the oldest,
      start it and put it in progress. */
  method AdmitLoop(queue0: seq<nat>, processing0: seq<nat>, pool0: Pools.Pool<WebRequester.Requester>, io: Io)
    returns (queue: seq<nat>, processing: seq<nat>, pool: Pools.Pool<WebRequester.Requester>)
    requires forall i :: 0 <= i < |queue0| ==> queue0[i] in pool0.objs
    ensures var k := Slots(|processing0|, |queue0|);
            && queue == queue0[k..]
            && processing == processing0 + queue0[..k]
            && pool == StartAll(pool0, queue0[..k], io)
  {
    queue, processing, pool := queue0, processing0, pool0;
    var slotCount := |processing|;
    ghost var admitted := 0;
    while slotCount < MaxAssetBundleCreateNum && |queue| > 0
      invariant admitted <= Slots(|processing0|, |queue0|)
      invariant slotCount == |processing0| + admitted
      invariant queue == queue0[admitted..]
      invariant processing == processing0 + queue0[..admitted]
      invariant pool == StartAll(pool0, queue0[..admitted], io)
      decreases |queue|
    {
      var creator := queue[0];
      assert creator == queue0[admitted];
      StartAllSnoc(pool0, queue0, admitted, io);
      assert queue0[..admitted + 1] == queue0[..admitted] + [creator];
      pool := Pools.Put(pool, creator, WebRequester.Start(pool.objs[creator], io.created(creator)));
      queue := queue[1..];
      processing := processing + [creator];
      slotCount := slotCount + 1;
      admitted := admitted + 1;
    }
  }

  /** The admission step of `OnProcessingWebRequester` on the manager. */
  method Admit(s: State, io: Io) returns (s': State)
    requires Valid(s)
    ensures s' == Admission(s, io)
  {
    var queue, processing, pool := AdmitLoop(s.queue, s.processing, s.requesters, io);
    s' := s.(queue := queue, processing := processing, requesters := pool);
  }

  /** Rotating the first `k` queued requesters behind those in progress
      keeps the flight free of duplicates and holding the same requesters. */
  lemma RotateFlight(q: seq<nat>, p: seq<nat>, k: nat)
    requires Distinct(q + p) && k <= |q|
    ensures Distinct(q[k..] + (p + q[..k]))
    ensures forall x :: x in q[k..] + (p + q[..k]) <==> x in q + p
  {
    DistinctAppend(q, p);
    assert q == q[..k] + q[k..];
    DistinctAppend(q[..k], q[k..]);
    forall i, j | 0 <= i < |p| && 0 <= j < |q[..k]| ensures p[i] != q[..k][j] {
      assert q[..k][j] == q[j];
    }
    DistinctAppend(p, q[..k]);
    forall i, j | 0 <= i < |q[k..]| && 0 <= j < |p + q[..k]| ensures q[k..][i] != (p + q[..k])[j] {
      assert q[k..][i] == q[k + i];
      if j >= |p| {
        assert (p + q[..k])[j] == q[..k][j - |p|];
      }
    }
    DistinctAppend(q[k..], p + q[..k]);
  }

  /** A step that keeps the registrations, the free list and the names, and
      holds the same requesters in flight without duplicates, keeps the
      requesters in flight registered uniquely. */
  lemma SameFlightKeepsUnique(s: State, s': State)
    requires Valid(s) && Valid(s') && UniqueInFlight(s)
    requires s'.requesting == s.requesting && s'.requesters.free == s.requesters.free
    requires s'.requesters.objs.Keys == s.requesters.objs.Keys
    requires forall id :: id in s.requesters.objs ==> s'.requesters.objs[id].name == s.requesters.objs[id].name
    requires forall x :: x in InFlight(s') <==> x in InFlight(s)
    requires Distinct(InFlight(s'))
    ensures UniqueInFlight(s')
  {
    forall i | 0 <= i < |InFlight(s')|
      ensures NameOf(s', InFlight(s')[i]) in s'.requesting
              && s'.requesting[NameOf(s', InFlight(s')[i])] == InFlight(s')[i]
    {
      var x := InFlight(s')[i];
      assert x in InFlight(s);
      var j :| 0 <= j < |InFlight(s)| && InFlight(s)[j] == x;
    }
  }

  /** Admission keeps the requesters in flight registered uniquely. */
  lemma AdmissionKeepsUnique(s: State, io: Io)
    requires Valid(s) && UniqueInFlight(s)
    ensures UniqueInFlight(Admission(s, io))
  {
    var s' := Admission(s, io);
    var k := Admitted(s);
    AdmissionSpec(s, io);
    FlightParts(s);
    RotateFlight(s.queue, s.processing, k);
    assert InFlight(s') == s.queue[k..] + (s.processing + s.queue[..k]);
    forall id | id in s.requesters.objs
      ensures s'.requesters.objs[id].name == s.requesters.objs[id].name
    {
      if id in s.queue[..k] {
        var i :| 0 <= i < k && s.queue[..k][i] == id;
        assert s.queue[i] == id;
      }
    }
    SameFlightKeepsUnique(s, s');
  }
}
