/** Small mathematical helpers shared by the models: an option type, order, and finite sums and cardinalities. */
module Common {

  datatype Option<+T> = None | Some(value: T)

  function Min(a: int, b: int): int {
    if a <= b then a else b
  }

  function Max(a: int, b: int): int {
    if a <= b then b else a
  }

  /** A set included in another has no more elements. */
  lemma SubsetSize<T>(a: set<T>, b: set<T>)
    requires a <= b
    ensures |a| <= |b|
  {
    assert b == a + (b - a);
  }

  /** The sum of f over the set s. */
  ghost function SumOver<K(!new)>(s: set<K>, f: K -> int): int
    decreases |s|
  {
    if s == {} then 0
    else
      var k :| k in s;
      f(k) + SumOver(s - {k}, f)
  }

  /** A sum does not depend on which element is taken out first. */
  lemma {:induction false} SumOverRemove<K(!new)>(s: set<K>, f: K -> int, k: K)
    requires k in s
    ensures SumOver(s, f) == f(k) + SumOver(s - {k}, f)
    decreases |s|
  {
    var first :| first in s && SumOver(s, f) == f(first) + SumOver(s - {first}, f);
    if first != k {
      SumOverRemove(s - {first}, f, k);
      SumOverRemove(s - {k}, f, first);
      assert s - {first} - {k} == s - {k} - {first};
    }
  }

  /** Sums over the same set compare as their terms do. */
  lemma {:induction false} SumOverMono<K(!new)>(s: set<K>, f: K -> int, g: K -> int)
    requires forall k :: k in s ==> f(k) <= g(k)
    ensures SumOver(s, f) <= SumOver(s, g)
    decreases |s|
  {
    if s != {} {
      var k :| k in s;
      SumOverRemove(s, f, k);
      SumOverRemove(s, g, k);
      SumOverMono(s - {k}, f, g);
    }
  }

  lemma {:induction false} SumOverZero<K(!new)>(s: set<K>, f: K -> int)
    requires forall k :: k in s ==> f(k) == 0
    ensures SumOver(s, f) == 0
    decreases |s|
  {
    if s != {} {
      var k :| k in s;
      SumOverRemove(s, f, k);
      SumOverZero(s - {k}, f);
    }
  }

  /** Raising one term raises the sum by as much. */
  lemma SumOverBump<K(!new)>(s: set<K>, f: K -> int, g: K -> int, k: K)
    requires k in s
    requires forall x :: x in s && x != k ==> f(x) == g(x)
    ensures SumOver(s, g) == SumOver(s, f) + g(k) - f(k)
  {
    SumOverRemove(s, f, k);
    SumOverRemove(s, g, k);
    SumOverMono(s - {k}, f, g);
    SumOverMono(s - {k}, g, f);
  }
}
