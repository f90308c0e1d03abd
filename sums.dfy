/**
 * Sums of real values over a map's entries, and left folds over sequences
 * (the shape of `Array.prototype.forEach` applied to an accumulator).
 */
module Sums {

  /** The sum of `m`'s values over `keys` */
  ghost function SumOver<K>(m: map<K, real>, keys: set<K>): real
    requires keys <= m.Keys
    decreases keys
  {
    if keys == {} then 0.0
    else
      var k :| k in keys;
      m[k] + SumOver(m, keys - {k})
  }

  /** The sum of all of `m`'s values */
  ghost function MapSum<K>(m: map<K, real>): real {
    SumOver(m, m.Keys)
  }

  /** Any key may be taken out of a sum first. */
  lemma {:induction false} SumOverRemove<K>(m: map<K, real>, keys: set<K>, k: K)
    requires keys <= m.Keys && k in keys
    ensures SumOver(m, keys) == m[k] + SumOver(m, keys - {k})
    decreases keys
  {
    var j :| j in keys && SumOver(m, keys) == m[j] + SumOver(m, keys - {j});
    if j != k {
      SumOverRemove(m, keys - {j}, k);
      SumOverRemove(m, keys - {k}, j);
      assert keys - {j} - {k} == keys - {k} - {j};
    }
  }

  /** A sum only depends on the values at the keys summed over. */
  lemma {:induction false} SumOverFrame<K>(m1: map<K, real>, m2: map<K, real>, keys: set<K>)
    requires keys <= m1.Keys && keys <= m2.Keys
    requires forall k :: k in keys ==> m1[k] == m2[k]
    ensures SumOver(m1, keys) == SumOver(m2, keys)
    decreases keys
  {
    if keys != {} {
      var k :| k in keys;
      SumOverRemove(m1, keys, k);
      SumOverRemove(m2, keys, k);
      SumOverFrame(m1, m2, keys - {k});
    }
  }

  /** Setting one entry changes the total by the difference (a new key counts as 0 before). */
  lemma MapSumUpdate<K>(m: map<K, real>, k: K, v: real)
    ensures MapSum(m[k := v]) == MapSum(m) - (if k in m then m[k] else 0.0) + v
  {
    var m' := m[k := v];
    SumOverRemove(m', m'.Keys, k);
    SumOverFrame(m, m', m.Keys - {k});
    if k in m {
      SumOverRemove(m, m.Keys, k);
      assert m'.Keys - {k} == m.Keys - {k};
    } else {
      assert m'.Keys - {k} == m.Keys;
      assert m.Keys - {k} == m.Keys;
    }
  }

  /** `x` added up `n` times */
  function Times(n: nat, x: real): real {
    if n == 0 then 0.0 else Times(n - 1, x) + x
  }

  lemma {:induction false} TimesIsProduct(n: nat, x: real)
    ensures Times(n, x) == n as real * x
  {
    if n > 0 {
      TimesIsProduct(n - 1, x);
    }
  }

  /** `n` equal shares of `x / n` add up to `x`. */
  lemma EqualShares(n: nat, x: real)
    requires n > 0
    ensures Times(n, x / n as real) == x
  {
    TimesIsProduct(n, x / n as real);
  }

  /** `xs.forEach(x => acc = f(acc, x))` starting from `init` */
  function FoldLeft<A, T>(f: (A, T) -> A, init: A, xs: seq<T>): A
    decreases |xs|
  {
    if xs == [] then init else f(FoldLeft(f, init, xs[..|xs| - 1]), xs[|xs| - 1])
  }

  /** One more element at the end of the sequence is one more step of the fold. */
  lemma FoldLeftSnoc<A, T>(f: (A, T) -> A, init: A, xs: seq<T>, x: T)
    ensures FoldLeft(f, init, xs + [x]) == f(FoldLeft(f, init, xs), x)
  {
    assert (xs + [x])[..|xs|] == xs;
  }

  /** Two steps of `f` may be taken in either order. */
  ghost predicate Commutes<A(!new), T(!new)>(f: (A, T) -> A) {
    forall a, x, y :: f(f(a, x), y) == f(f(a, y), x)
  }

  /** With commuting steps, an element may be moved to the end of the sequence. */
  lemma {:induction false} FoldMoveToEnd<A(!new), T(!new)>(f: (A, T) -> A, init: A, ys: seq<T>, x: T, zs: seq<T>)
    requires Commutes(f)
    ensures FoldLeft(f, init, ys + [x] + zs) == FoldLeft(f, init, ys + zs + [x])
    decreases |zs|
  {
    if zs != [] {
      var zs', z := zs[..|zs| - 1], zs[|zs| - 1];
      assert ys + [x] + zs == (ys + [x] + zs') + [z];
      assert ys + zs == (ys + zs') + [z];
      FoldLeftSnoc(f, init, ys + [x] + zs', z);
      FoldMoveToEnd(f, init, ys, x, zs');
      FoldLeftSnoc(f, init, ys + zs', x);
      FoldLeftSnoc(f, init, ys + zs', z);
      FoldLeftSnoc(f, init, ys + zs, x);
    } else {
      assert ys + [x] + zs == ys + zs + [x];
    }
  }

  /** With commuting steps, the fold does not depend on the order of the elements. */
  lemma {:induction false} FoldPermutation<A(!new), T(!new)>(f: (A, T) -> A, init: A, xs: seq<T>, ys: seq<T>)
    requires Commutes(f)
    requires multiset(xs) == multiset(ys)
    ensures FoldLeft(f, init, xs) == FoldLeft(f, init, ys)
    decreases |xs|
  {
    if xs == [] {
      assert |ys| == |multiset(ys)| == 0;
    } else {
      var xs', x := xs[..|xs| - 1], xs[|xs| - 1];
      assert xs == xs' + [x];
      assert x in multiset(ys);
      var i :| 0 <= i < |ys| && ys[i] == x;
      var ys' := ys[..i] + ys[i + 1..];
      assert ys == ys[..i] + [x] + ys[i + 1..];
      assert multiset(ys') == multiset(ys) - multiset{x};
      assert multiset(xs') == multiset(xs) - multiset{x};
      FoldPermutation(f, init, xs', ys');
      FoldMoveToEnd(f, init, ys[..i], x, ys[i + 1..]);
      FoldLeftSnoc(f, init, ys', x);
      FoldLeftSnoc(f, init, xs', x);
    }
  }
}
