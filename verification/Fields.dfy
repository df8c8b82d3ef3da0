/** Fields of characteristic two, given by their operations. The interpolation theory
    in `Polynomials` is proved for every such field and used at GF(256). */
module Fields {

  datatype Field<!T> = Field(zero: T, one: T, add: (T, T) -> T, mul: (T, T) -> T, inv: T -> T)

  ghost predicate Laws<T>(f: Field<T>, a: T, b: T, c: T) {
    && f.add(a, b) == f.add(b, a)
    && f.add(f.add(a, b), c) == f.add(a, f.add(b, c))
    && f.add(a, f.zero) == a
    && f.add(a, a) == f.zero
    && f.mul(a, b) == f.mul(b, a)
    && f.mul(f.mul(a, b), c) == f.mul(a, f.mul(b, c))
    && f.mul(a, f.one) == a
    && f.mul(a, f.add(b, c)) == f.add(f.mul(a, b), f.mul(a, c))
    && (a != f.zero ==> f.mul(a, f.inv(a)) == f.one)
  }

  /** Names an instance of the laws, so that they are used only where asked for. */
  predicate At<T>(a: T, b: T, c: T) {
    true
  }

  ghost predicate IsField<T(!new)>(f: Field<T>) {
    && f.zero != f.one
    && forall a, b, c {:trigger At(a, b, c)} :: Laws(f, a, b, c)
  }

  lemma Use<T(!new)>(f: Field<T>, a: T, b: T, c: T)
    requires IsField(f)
    ensures Laws(f, a, b, c)
  {
    assert At(a, b, c);
  }

  lemma MulZero<T(!new)>(f: Field<T>, a: T)
    requires IsField(f)
    ensures f.mul(a, f.zero) == f.zero
    ensures f.mul(f.zero, a) == f.zero
  {
    Use(f, f.zero, f.zero, a);
    Use(f, a, f.zero, f.zero);
    Use(f, f.mul(a, f.zero), f.zero, f.zero);
  }

  lemma AddCancels<T(!new)>(f: Field<T>, a: T, b: T)
    requires IsField(f)
    ensures f.add(f.add(a, b), b) == a
    ensures f.add(b, f.add(b, a)) == a
    ensures f.add(f.zero, a) == a
  {
    Use(f, a, b, b);
    Use(f, b, b, a);
    Use(f, b, a, b);
    Use(f, f.zero, a, a);
  }

  lemma AddIsZero<T(!new)>(f: Field<T>, a: T, b: T)
    requires IsField(f)
    ensures f.add(a, b) == f.zero <==> a == b
  {
    AddCancels(f, a, b);
    AddCancels(f, b, b);
    Use(f, a, b, b);
  }

  /** (p + q) + (r + s) = (p + r) + (q + s) */
  lemma AddSwap<T(!new)>(f: Field<T>, p: T, q: T, r: T, s: T)
    requires IsField(f)
    ensures f.add(f.add(p, q), f.add(r, s)) == f.add(f.add(p, r), f.add(q, s))
  {
    Use(f, p, q, f.add(r, s));
    Use(f, q, r, s);
    Use(f, r, q, s);
    Use(f, p, r, f.add(q, s));
  }

  /** (p * q) * (r * s) = (p * r) * (q * s) */
  lemma MulSwap<T(!new)>(f: Field<T>, p: T, q: T, r: T, s: T)
    requires IsField(f)
    ensures f.mul(f.mul(p, q), f.mul(r, s)) == f.mul(f.mul(p, r), f.mul(q, s))
  {
    Use(f, p, q, f.mul(r, s));
    Use(f, q, r, s);
    Use(f, r, q, s);
    Use(f, p, r, f.mul(q, s));
  }

  lemma MulDistributesLeft<T(!new)>(f: Field<T>, a: T, b: T, c: T)
    requires IsField(f)
    ensures f.mul(f.add(a, b), c) == f.add(f.mul(a, c), f.mul(b, c))
  {
    Use(f, c, a, b);
    Use(f, f.add(a, b), c, c);
    Use(f, c, b, c);
  }

  lemma NoZeroDivisors<T(!new)>(f: Field<T>, a: T, b: T)
    requires IsField(f)
    requires a != f.zero && b != f.zero
    ensures f.mul(a, b) != f.zero
  {
    Use(f, a, b, f.zero);
    Use(f, f.inv(a), a, b);
    Use(f, b, f.one, f.zero);
    MulZero(f, f.inv(a));
  }

  lemma InverseIsUnique<T(!new)>(f: Field<T>, a: T, b: T)
    requires IsField(f)
    requires f.mul(a, b) == f.one
    ensures b == f.inv(a)
  {
    MulZero(f, b);
    Use(f, a, b, f.zero);
    Use(f, f.inv(a), a, b);
    Use(f, b, f.one, f.zero);
    Use(f, f.inv(a), f.one, f.zero);
  }

  lemma InverseOfProduct<T(!new)>(f: Field<T>, a: T, b: T)
    requires IsField(f)
    requires a != f.zero && b != f.zero
    ensures f.inv(f.mul(a, b)) == f.mul(f.inv(a), f.inv(b))
  {
    MulSwap(f, a, b, f.inv(a), f.inv(b));
    Use(f, a, b, b);
    Use(f, b, a, a);
    Use(f, f.one, f.one, f.one);
    InverseIsUnique(f, f.mul(a, b), f.mul(f.inv(a), f.inv(b)));
  }

  /** From k * u = k with k nonzero, u is one. */
  lemma CancelFactor<T(!new)>(f: Field<T>, k: T, u: T)
    requires IsField(f)
    requires k != f.zero
    requires f.mul(k, u) == k
    ensures u == f.one
  {
    Use(f, k, f.inv(k), u);
    Use(f, f.inv(k), k, u);
    Use(f, u, f.one, u);
  }
}
