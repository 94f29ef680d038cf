/** Shared vocabulary of the bundle-loading engine: nullable values, the opaque
    handles the engine passes around, and small sequence helpers. */
module Basics {

  /** A value that may be null in the C# original. */
  datatype Option<+T> = None | Some(value: T)

  /** Opaque handle of a loaded bundle (Unity `AssetBundle`). */
  datatype BundleId = BundleId(id: nat)

  /** Opaque handle of an asset loaded out of a bundle (Unity `Object`). */
  datatype AssetId = AssetId(id: nat)

  /** A cached bundle handle; `None` records a fetch that finished with an error. */
  type Handle = Option<BundleId>

  /** `Dictionary.TryGetValue` on a map whose values are nullable:
      a missing key reads as null. */
  function Lookup<K, V>(m: map<K, Option<V>>, k: K): (r: Option<V>)
    ensures r.Some? ==> k in m && m[k] == r
    ensures k in m ==> r == m[k]
  {
    if k in m then m[k] else None
  }

  /** The elements of `xs` satisfying `keep`, in their original order.
      Defined from the end, the way the engine's backward `RemoveAt` loops
      walk their lists. */
  function Filter<T>(xs: seq<T>, keep: T -> bool): (r: seq<T>)
    ensures |r| <= |xs|
    ensures forall i :: 0 <= i < |r| ==> r[i] in xs && keep(r[i])
    ensures forall i :: 0 <= i < |xs| && keep(xs[i]) ==> xs[i] in r
    ensures (forall i :: 0 <= i < |xs| ==> !keep(xs[i])) ==> r == []
  {
    if |xs| == 0 then []
    else Filter(xs[..|xs| - 1], keep) + (if keep(xs[|xs| - 1]) then [xs[|xs| - 1]] else [])
  }

  /** No element occurs twice. */
  predicate Distinct<T(==)>(xs: seq<T>) {
    forall i, j :: 0 <= i < j < |xs| ==> xs[i] != xs[j]
  }

  /** Filtering keeps a list free of duplicates. */
  lemma {:induction false} FilterDistinct<T>(xs: seq<T>, keep: T -> bool)
    requires Distinct(xs)
    ensures Distinct(Filter(xs, keep))
  {
    if |xs| > 0 {
      var init := xs[..|xs| - 1];
      assert Distinct(init);
      FilterDistinct(init, keep);
      var last := xs[|xs| - 1];
      assert last !in init;
      assert last !in Filter(init, keep);
    }
  }

  /** Two predicates that agree on the elements of `xs` filter it alike. */
  lemma {:induction false} FilterCongruent<T>(xs: seq<T>, f: T -> bool, g: T -> bool)
    requires forall i :: 0 <= i < |xs| ==> f(xs[i]) == g(xs[i])
    ensures Filter(xs, f) == Filter(xs, g)
  {
    if |xs| > 0 {
      FilterCongruent(xs[..|xs| - 1], f, g);
    }
  }

  /** Inserting an element that does not occur keeps a list free of duplicates. */
  lemma DistinctInsert<T>(xs: seq<T>, x: T, ys: seq<T>)
    requires Distinct(xs + ys) && x !in xs + ys
    ensures Distinct(xs + [x] + ys)
  {
    var zs := xs + [x] + ys;
    forall i, j | 0 <= i < j < |zs|
      ensures zs[i] != zs[j]
    {
      if i < |xs| && j > |xs| {
        assert zs[j] == (xs + ys)[j - 1];
        assert zs[i] == (xs + ys)[i];
      } else if i > |xs| {
        assert zs[i] == (xs + ys)[i - 1] && zs[j] == (xs + ys)[j - 1];
      } else if j < |xs| {
        assert zs[i] == (xs + ys)[i] && zs[j] == (xs + ys)[j];
      } else if i == |xs| {
        assert zs[j] == (xs + ys)[j - 1];
      } else {
        assert zs[i] == (xs + ys)[i];
      }
    }
  }

  /** Two lists joined are free of duplicates exactly when each is and they
      share no element. */
  lemma DistinctAppend<T>(a: seq<T>, b: seq<T>)
    ensures Distinct(a + b) <==>
              Distinct(a) && Distinct(b) && forall i, j :: 0 <= i < |a| && 0 <= j < |b| ==> a[i] != b[j]
  {
    var ab := a + b;
    if Distinct(a) && Distinct(b) && forall i, j :: 0 <= i < |a| && 0 <= j < |b| ==> a[i] != b[j] {
      forall i, j | 0 <= i < j < |ab|
        ensures ab[i] != ab[j]
      {
        if j < |a| {
          assert ab[i] == a[i] && ab[j] == a[j];
        } else if i >= |a| {
          assert ab[i] == b[i - |a|] && ab[j] == b[j - |a|];
        } else {
          assert ab[i] == a[i] && ab[j] == b[j - |a|];
        }
      }
    }
    if Distinct(ab) {
      forall i, j | 0 <= i < j < |b|
        ensures b[i] != b[j]
      {
        assert b[i] == ab[i + |a|] && b[j] == ab[j + |a|];
      }
      forall i, j | 0 <= i < |a| && 0 <= j < |b|
        ensures a[i] != b[j]
      {
        assert a[i] == ab[i] && b[j] == ab[j + |a|];
      }
      assert forall i :: 0 <= i < |a| ==> a[i] == ab[i];
    }
  }

  lemma AppendAssoc<T>(a: seq<T>, b: seq<T>, c: seq<T>)
    ensures (a + b) + c == a + (b + c)
  {
  }

  /** Removing two sets of keys in turn removes their union. */
  lemma RemoveKeysTwice<K, V>(m: map<K, V>, a: set<K>, b: set<K>)
    ensures (m - a) - b == m - (a + b)
  {
  }

  /** Union regrouped. */
  lemma UnionRegroup<T>(a: set<T>, b: set<T>, c: set<T>)
    ensures (a + c) + b == a + (b + c)
  {
  }
}
