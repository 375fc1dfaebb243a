/**
 * Folding a finite set of keys with a commutative monoid.
 *
 * Go's `for k, v := range m` visits the keys of a map in an unspecified
 * order.  Every loop of this kind in the shuffler only adds up
 * contributions, so its result is a fold of the keys under a commutative
 * monoid.  `Fold` takes the keys in an arbitrary order; `FoldRemove` shows
 * that the order does not matter.
 */
module Folds {

  ghost predicate IsCommutativeMonoid<V(!new)>(zero: V, plus: (V, V) -> V)
  {
    && (forall a :: plus(zero, a) == a)
    && (forall a, b :: plus(a, b) == plus(b, a))
    && (forall a, b, c :: plus(plus(a, b), c) == plus(a, plus(b, c)))
  }

  /** Combines f(k) for every k in keys, taking the keys in an arbitrary order. */
  ghost function Fold<K, V>(keys: set<K>, f: K -> V, zero: V, plus: (V, V) -> V): V
    decreases keys
  {
    if keys == {} then zero
    else
      var k :| k in keys;
      plus(f(k), Fold(keys - {k}, f, zero, plus))
  }

  /** Any key can be taken first: the fold does not depend on the visiting order. */
  lemma {:induction false} FoldRemove<K, V(!new)>(keys: set<K>, f: K -> V, zero: V, plus: (V, V) -> V, k: K)
    requires IsCommutativeMonoid(zero, plus)
    requires k in keys
    ensures Fold(keys, f, zero, plus) == plus(f(k), Fold(keys - {k}, f, zero, plus))
    decreases keys
  {
    var j :| j in keys && Fold(keys, f, zero, plus) == plus(f(j), Fold(keys - {j}, f, zero, plus));
    if j != k {
      FoldRemove(keys - {j}, f, zero, plus, k);
      FoldRemove(keys - {k}, f, zero, plus, j);
      assert keys - {j} - {k} == keys - {k} - {j};
    }
  }

  /** Two folds agree when their functions agree on the keys. */
  lemma {:induction false} FoldExt<K, V(!new)>(keys: set<K>, f: K -> V, g: K -> V, zero: V, plus: (V, V) -> V)
    requires IsCommutativeMonoid(zero, plus)
    requires forall k :: k in keys ==> f(k) == g(k)
    ensures Fold(keys, f, zero, plus) == Fold(keys, g, zero, plus)
    decreases keys
  {
    if keys != {} {
      var k :| k in keys;
      FoldRemove(keys, f, zero, plus, k);
      FoldRemove(keys, g, zero, plus, k);
      FoldExt(keys - {k}, f, g, zero, plus);
    }
  }

  /** A property that holds of zero and of every f(k), and that plus keeps, holds of the fold. */
  lemma {:induction false} FoldClosed<K, V(!new)>(keys: set<K>, f: K -> V, zero: V, plus: (V, V) -> V, P: V -> bool)
    requires IsCommutativeMonoid(zero, plus)
    requires P(zero)
    requires forall a, b :: P(a) && P(b) ==> P(plus(a, b))
    requires forall k :: k in keys ==> P(f(k))
    ensures P(Fold(keys, f, zero, plus))
    decreases keys
  {
    if keys != {} {
      var k :| k in keys;
      FoldRemove(keys, f, zero, plus, k);
      FoldClosed(keys - {k}, f, zero, plus, P);
    }
  }

  /** One more key in a fold, as a loop over a map visits it. */
  lemma FoldStep<K, V(!new)>(done: set<K>, f: K -> V, zero: V, plus: (V, V) -> V, k: K)
    requires IsCommutativeMonoid(zero, plus)
    requires k !in done
    ensures Fold(done + {k}, f, zero, plus) == plus(Fold(done, f, zero, plus), f(k))
  {
    FoldRemove(done + {k}, f, zero, plus, k);
    assert (done + {k}) - {k} == done;
  }

  function Plus(a: int, b: int): int { a + b }

  /** The sum of f(k) over the keys. */
  ghost function Sum<K>(keys: set<K>, f: K -> int): int
  {
    Fold(keys, f, 0, Plus)
  }

  lemma PlusIsCommutativeMonoid()
    ensures IsCommutativeMonoid(0, Plus)
  {
  }

  lemma SumRemove<K>(keys: set<K>, f: K -> int, k: K)
    requires k in keys
    ensures Sum(keys, f) == f(k) + Sum(keys - {k}, f)
  {
    PlusIsCommutativeMonoid();
    FoldRemove(keys, f, 0, Plus, k);
  }

  /** One more key in a sum, as a loop over a map visits it. */
  lemma SumStep<K>(done: set<K>, f: K -> int, k: K)
    requires k !in done
    ensures Sum(done + {k}, f) == Sum(done, f) + f(k)
  {
    SumRemove(done + {k}, f, k);
    assert (done + {k}) - {k} == done;
  }

  lemma SumExt<K>(keys: set<K>, f: K -> int, g: K -> int)
    requires forall k :: k in keys ==> f(k) == g(k)
    ensures Sum(keys, f) == Sum(keys, g)
  {
    PlusIsCommutativeMonoid();
    FoldExt(keys, f, g, 0, Plus);
  }

  /** Sums are monotonic in the summed function. */
  lemma {:induction false} SumMono<K>(keys: set<K>, f: K -> int, g: K -> int)
    requires forall k :: k in keys ==> f(k) <= g(k)
    ensures Sum(keys, f) <= Sum(keys, g)
    decreases keys
  {
    if keys != {} {
      var k :| k in keys;
      SumRemove(keys, f, k);
      SumRemove(keys, g, k);
      SumMono(keys - {k}, f, g);
    }
  }

  lemma {:induction false} SumNonNegative<K>(keys: set<K>, f: K -> int)
    requires forall k :: k in keys ==> 0 <= f(k)
    ensures 0 <= Sum(keys, f)
    decreases keys
  {
    if keys != {} {
      var k :| k in keys;
      SumRemove(keys, f, k);
      SumNonNegative(keys - {k}, f);
    }
  }

  /** Summing 1 for every key counts the keys. */
  lemma {:induction false} SumOnes<K>(keys: set<K>, f: K -> int)
    requires forall k :: k in keys ==> f(k) == 1
    ensures Sum(keys, f) == |keys|
    decreases keys
  {
    if keys != {} {
      var k :| k in keys;
      SumRemove(keys, f, k);
      SumOnes(keys - {k}, f);
    }
  }

  /** Sums are additive in the summed function. */
  lemma {:induction false} SumAdd<K>(keys: set<K>, f: K -> int, g: K -> int, h: K -> int)
    requires forall k :: k in keys ==> h(k) == f(k) + g(k)
    ensures Sum(keys, h) == Sum(keys, f) + Sum(keys, g)
    decreases keys
  {
    if keys != {} {
      var k :| k in keys;
      SumRemove(keys, f, k);
      SumRemove(keys, g, k);
      SumRemove(keys, h, k);
      SumAdd(keys - {k}, f, g, h);
    }
  }

  /** Keys on which f is zero add nothing to a sum. */
  lemma {:induction false} SumSubset<K>(small: set<K>, big: set<K>, f: K -> int)
    requires small <= big
    requires forall k :: k in big && k !in small ==> f(k) == 0
    ensures Sum(big, f) == Sum(small, f)
    decreases big
  {
    if big != small {
      var k :| k in big && k !in small;
      SumRemove(big, f, k);
      SumSubset(small, big - {k}, f);
    }
  }

  /** A map h from a monoid into int that turns plus into + turns a fold into a sum. */
  lemma {:induction false} FoldToSum<K, V(!new)>(keys: set<K>, f: K -> V, zero: V, plus: (V, V) -> V, h: V -> int, g: K -> int)
    requires IsCommutativeMonoid(zero, plus)
    requires h(zero) == 0
    requires forall a, b :: h(plus(a, b)) == h(a) + h(b)
    requires forall k :: k in keys ==> g(k) == h(f(k))
    ensures h(Fold(keys, f, zero, plus)) == Sum(keys, g)
    decreases keys
  {
    if keys == {} {
      PlusIsCommutativeMonoid();
    } else {
      var k :| k in keys;
      FoldRemove(keys, f, zero, plus, k);
      SumRemove(keys, g, k);
      FoldToSum(keys - {k}, f, zero, plus, h, g);
    }
  }
}
