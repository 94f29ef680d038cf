/** The object pools of the engine (`ResourceWebRequester.pool`,
    `AssetBundleAsyncLoader.pool`, `WeakReferenceUtility.Pool`) modelled as one
    arena: every object ever created lives in `objs` under its identity, `free`
    is the FIFO queue of recycled identities, and `sequence` is the static
    counter that numbered the last object created. */
module Pools {

  datatype Pool<T> = Pool(objs: map<nat, T>, free: seq<nat>, sequence: nat)

  /** Identities are exactly 1..sequence, and only existing objects are pooled. */
  ghost predicate Valid<T>(p: Pool<T>) {
    && (forall id: nat :: id in p.objs <==> 1 <= id <= p.sequence)
    && (forall i :: 0 <= i < |p.free| ==> p.free[i] in p.objs)
  }

  function Empty<T>(): (p: Pool<T>)
    ensures Valid(p) && p.objs == map[] && p.free == []
  {
    Pool(map[], [], 0)
  }

  /** The result of `Get`: the identity handed out and the pool afterwards. */
  datatype Got<T> = Got(id: nat, pool: Pool<T>)

  /** `Get()`: dequeue the oldest recycled object, or create object number
      `++sequence` with `make`, the constructor. */
  function Get<T>(p: Pool<T>, make: nat -> T): (g: Got<T>)
    requires Valid(p)
    ensures Valid(g.pool)
    ensures g.id in g.pool.objs
    ensures g.pool.objs.Keys == p.objs.Keys + {g.id}
    ensures |p.free| > 0 ==> g.id == p.free[0] && g.pool == p.(free := p.free[1..])
    ensures |p.free| == 0 ==>
              && g.id !in p.objs
              && (forall other :: other in p.objs ==> other < g.id)
              && g.pool.objs == p.objs[g.id := make(g.id)]
              && g.pool.free == p.free
  {
    if |p.free| > 0 then
      Got(p.free[0], p.(free := p.free[1..]))
    else
      var id := p.sequence + 1;
      Got(id, Pool(p.objs[id := make(id)], p.free, id))
  }

  /** Replace the state of an existing object. */
  function Put<T>(p: Pool<T>, id: nat, v: T): (q: Pool<T>)
    requires id in p.objs
    ensures Valid(p) ==> Valid(q)
    ensures q.objs.Keys == p.objs.Keys && q.objs[id] == v
    ensures forall other :: other in p.objs && other != id ==> q.objs[other] == p.objs[other]
    ensures q.free == p.free && q.sequence == p.sequence
  {
    p.(objs := p.objs[id := v])
  }

  /** `Recycle(x)`: enqueue an object for reuse. */
  function Recycle<T>(p: Pool<T>, id: nat): (q: Pool<T>)
    requires id in p.objs
    ensures Valid(p) ==> Valid(q)
    ensures q.objs == p.objs && q.sequence == p.sequence
    ensures q.free == p.free + [id] && |q.free| == |p.free| + 1
  {
    p.(free := p.free + [id])
  }

  /** Identities handed out by successive `Get`s on an empty free list are
      strictly increasing, so no two objects ever share a sequence number. */
  lemma FreshIdsIncrease<T>(p: Pool<T>, make: nat -> T)
    requires Valid(p) && |p.free| == 0
    ensures var g1 := Get(p, make);
            var g2 := Get(g1.pool, make);
            g1.id < g2.id && g2.id !in p.objs
  {
  }
}
