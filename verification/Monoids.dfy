/** Repeated squaring in any monoid. */
module Monoids {

  ghost predicate MonoidLaws<T>(mul: (T, T) -> T, one: T, a: T, b: T, c: T) {
    && mul(mul(a, b), c) == mul(a, mul(b, c))
    && mul(a, one) == a
  }

  /** Names an instance of the laws. */
  predicate Grouped<T>(a: T, b: T, c: T) {
    true
  }

  ghost predicate IsMonoid<T(!new)>(mul: (T, T) -> T, one: T) {
    forall a, b, c {:trigger Grouped(a, b, c)} :: MonoidLaws(mul, one, a, b, c)
  }

  /** a^(2^k) */
  function SquareTimes<T>(mul: (T, T) -> T, a: T, k: nat): T
    decreases k, a
  {
    if k == 0 then a else mul(SquareTimes(mul, a, k - 1), SquareTimes(mul, a, k - 1))
  }

  /** a^2 * a^4 * ... * a^(2^k) */
  function SquareProduct<T>(mul: (T, T) -> T, one: T, a: T, k: nat): T
    decreases k, a
  {
    if k == 0 then one else mul(SquareProduct(mul, one, a, k - 1), SquareTimes(mul, a, k))
  }

  lemma SquareTimesUnfold<T>(mul: (T, T) -> T, one: T, a: T, k: nat)
    ensures SquareTimes(mul, a, 0) == a && SquareProduct(mul, one, a, 0) == one
    ensures SquareTimes(mul, a, k + 1) == mul(SquareTimes(mul, a, k), SquareTimes(mul, a, k))
    ensures SquareProduct(mul, one, a, k + 1) == mul(SquareProduct(mul, one, a, k), SquareTimes(mul, a, k + 1))
  {}

  /** a * (a * (a^2 * ... * a^(2^k))) = a^(2^(k+1)) */
  lemma {:induction false} ProductTelescopes<T(!new)>(mul: (T, T) -> T, one: T, a: T, k: nat)
    requires IsMonoid(mul, one)
    ensures mul(a, mul(a, SquareProduct(mul, one, a, k))) == SquareTimes(mul, a, k + 1)
  {
    if k == 0 {
      assert Grouped(a, a, a);
      SquareTimesUnfold(mul, one, a, 0);
    } else {
      var p, s := SquareProduct(mul, one, a, k - 1), SquareTimes(mul, a, k);
      ProductTelescopes(mul, one, a, k - 1);
      SquareTimesUnfold(mul, one, a, k - 1);
      SquareTimesUnfold(mul, one, a, k);
      assert Grouped(a, p, s);
      assert Grouped(a, mul(a, p), s);
    }
  }
}
