/** `WeakReferenceUtility`: a pool of reusable weak-reference wrappers.
    A wrapper's `target` is the asset it still reaches; the garbage
    collector's reclamation of that asset is the environment step `Reclaim`. */
module WeakRefs {
  import opened Basics
  import opened Pools

  datatype WeakRef = WeakRef(target: Option<AssetId>)

  /** `Get(t)`: reuse the oldest recycled wrapper, or create a new one, and
      point it at `t`. */
  function Get(p: Pool<WeakRef>, t: Option<AssetId>): (g: Got<WeakRef>)
    requires Valid(p)
    ensures Valid(g.pool)
    ensures g.id in g.pool.objs && g.pool.objs[g.id].target == t
    ensures g.pool.objs.Keys == p.objs.Keys + {g.id}
    ensures forall other :: other in p.objs && other != g.id ==> g.pool.objs[other] == p.objs[other]
    ensures |p.free| > 0 ==> g.id == p.free[0] && g.pool.free == p.free[1..]
    ensures |p.free| == 0 ==> g.id !in p.objs && g.pool.free == p.free
  {
    var got := Pools.Get(p, (_: nat) => WeakRef(t));
    Got(got.id, Put(got.pool, got.id, WeakRef(t)))
  }

  /** `Recover(w)`: a null wrapper is ignored; otherwise the wrapper lets go
      of its target and goes back into the pool. */
  function Recover(p: Pool<WeakRef>, w: Option<nat>): (q: Pool<WeakRef>)
    requires w.Some? ==> w.value in p.objs
    ensures Valid(p) ==> Valid(q)
    ensures w.None? ==> q == p
    ensures w.Some? ==>
              && q.free == p.free + [w.value]
              && q.objs.Keys == p.objs.Keys
              && q.objs[w.value].target == None
              && (forall other :: other in p.objs && other != w.value ==> q.objs[other] == p.objs[other])
  {
    match w
    case None => p
    case Some(id) => Recycle(Put(p, id, WeakRef(None)), id)
  }

  /** The garbage collector reclaims the asset a wrapper points at. */
  function Reclaim(p: Pool<WeakRef>, id: nat): (q: Pool<WeakRef>)
    requires id in p.objs
    ensures Valid(p) ==> Valid(q)
    ensures q.objs.Keys == p.objs.Keys && q.objs[id].target == None && q.free == p.free
    ensures forall other :: other in p.objs && other != id ==> q.objs[other] == p.objs[other]
  {
    Put(p, id, WeakRef(None))
  }

  /** A recovered wrapper is the next one handed out when the pool was empty,
      and it then points at the new target: wrappers cycle through the pool
      instead of being reallocated. */
  lemma RecoverThenGetReuses(p: Pool<WeakRef>, w: nat, t: Option<AssetId>)
    requires Valid(p) && w in p.objs && |p.free| == 0
    ensures var g := Get(Recover(p, Some(w)), t);
            g.id == w && g.pool.objs[w].target == t && g.pool.free == []
  {
  }
}
