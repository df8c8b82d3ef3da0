/** Polynomials over a field of characteristic two: evaluation, division by x + r,
    Lagrange interpolation at zero, and existence and uniqueness of interpolants. */
module Polynomials {

  import opened Fields

  /** Horner evaluation; `c[k]` is the coefficient of x^k. */
  function Eval<T>(f: Field<T>, c: seq<T>, x: T): T {
    if |c| == 0 then f.zero else f.add(c[0], f.mul(x, Eval(f, c[1..], x)))
  }

  predicate Distinct<T(==)>(xs: seq<T>) {
    forall i, j :: 0 <= i < j < |xs| ==> xs[i] != xs[j]
  }

  // ----- division by x + r -----

  function Quotient<T>(f: Field<T>, c: seq<T>, r: T): (q: seq<T>)
    ensures |q| == if |c| == 0 then 0 else |c| - 1
  {
    if |c| <= 1 then [] else [Eval(f, c[1..], r)] + Quotient(f, c[1..], r)
  }

  /** c = (x + r) * Quotient(c, r) + c(r) */
  lemma {:induction false} Division<T(!new)>(f: Field<T>, c: seq<T>, r: T, x: T)
    requires IsField(f)
    ensures Eval(f, c, x) == f.add(Eval(f, c, r), f.mul(f.add(x, r), Eval(f, Quotient(f, c, r), x)))
  {
    if |c| <= 1 {
      MulZero(f, f.add(x, r));
      Use(f, Eval(f, c, r), f.zero, f.zero);
      MulZero(f, x);
      MulZero(f, r);
      if |c| == 1 {
        assert Eval(f, c[1..], x) == f.zero == Eval(f, c[1..], r);
      }
    } else {
      var c' := c[1..];
      var q := Quotient(f, c, r);
      assert q[1..] == Quotient(f, c', r);
      Division(f, c', r, x);
      DivisionStep(f, c[0], x, r, Eval(f, c', r), Eval(f, q[1..], x));
    }
  }

  /** k + x(v + (x + r)w) = (k + rv) + (x + r)(v + xw) */
  lemma DivisionStep<T(!new)>(f: Field<T>, k: T, x: T, r: T, v: T, w: T)
    requires IsField(f)
    ensures f.add(k, f.mul(x, f.add(v, f.mul(f.add(x, r), w))))
         == f.add(f.add(k, f.mul(r, v)), f.mul(f.add(x, r), f.add(v, f.mul(x, w))))
  {
    var d := f.add(x, r);
    var xv, rv, xdw := f.mul(x, v), f.mul(r, v), f.mul(d, f.mul(x, w));
    Use(f, x, v, f.mul(d, w));
    Use(f, x, d, w);
    Use(f, d, x, w);
    assert f.mul(x, f.mul(d, w)) == xdw;
    Use(f, d, v, f.mul(x, w));
    MulDistributesLeft(f, x, r, v);
    assert f.mul(d, f.add(v, f.mul(x, w))) == f.add(f.add(xv, rv), xdw);
    // (k + rv) + ((xv + rv) + xdw) = k + (xv + xdw)
    Use(f, xv, rv, xdw);
    Use(f, rv, xv, xdw);
    AddCancels(f, f.add(xv, xdw), rv);
    Use(f, k, rv, f.add(rv, f.add(xv, xdw)));
    assert f.add(f.add(xv, rv), xdw) == f.add(rv, f.add(xv, xdw));
  }

  // ----- the Lagrange functional at zero -----

  /** The product of `xs[j]` over j < n, j != i. */
  function Num<T>(f: Field<T>, xs: seq<T>, i: nat, n: nat): T
    requires n <= |xs|
  {
    if n == 0 then f.one
    else if n - 1 == i then Num(f, xs, i, n - 1)
    else f.mul(Num(f, xs, i, n - 1), xs[n - 1])
  }

  /** The product of `x + xs[j]` over j < n, j != i. */
  function Den<T>(f: Field<T>, xs: seq<T>, i: nat, x: T, n: nat): T
    requires n <= |xs|
  {
    if n == 0 then f.one
    else if n - 1 == i then Den(f, xs, i, x, n - 1)
    else f.mul(Den(f, xs, i, x, n - 1), f.add(x, xs[n - 1]))
  }

  /** The weight of the i-th sample. */
  function Weight<T>(f: Field<T>, xs: seq<T>, i: nat): T
    requires i < |xs|
  {
    f.mul(Num(f, xs, i, |xs|), f.inv(Den(f, xs, i, xs[i], |xs|)))
  }

  /** The weighted sum of the first n samples. */
  function Lagrange<T>(f: Field<T>, xs: seq<T>, ys: seq<T>, n: nat): T
    requires n <= |xs| && |xs| <= |ys|
  {
    if n == 0 then f.zero
    else f.add(Lagrange(f, xs, ys, n - 1), f.mul(ys[n - 1], Weight(f, xs, n - 1)))
  }

  lemma {:induction false} ProductsOfPrefix<T>(f: Field<T>, s: seq<T>, t: seq<T>, i: nat, x: T, n: nat)
    requires n <= |s|
    ensures Num(f, s + t, i, n) == Num(f, s, i, n)
    ensures Den(f, s + t, i, x, n) == Den(f, s, i, x, n)
  {
    if n > 0 {
      ProductsOfPrefix(f, s, t, i, x, n - 1);
    }
  }

  lemma {:induction false} DenNonzero<T(!new)>(f: Field<T>, xs: seq<T>, i: nat, x: T, n: nat)
    requires IsField(f) && n <= |xs|
    requires forall j :: 0 <= j < n && j != i ==> xs[j] != x
    ensures Den(f, xs, i, x, n) != f.zero
  {
    if n > 0 {
      DenNonzero(f, xs, i, x, n - 1);
      if n - 1 != i {
        AddIsZero(f, x, xs[n - 1]);
        NoZeroDivisors(f, Den(f, xs, i, x, n - 1), f.add(x, xs[n - 1]));
      }
    }
  }

  /** Appending the point r multiplies the weight of an old point by r / (x_i + r). */
  lemma WeightAppend<T(!new)>(f: Field<T>, s: seq<T>, r: T, i: nat)
    requires IsField(f)
    requires i < |s| && Distinct(s + [r])
    ensures f.mul(f.add(s[i], r), Weight(f, s + [r], i)) == f.mul(r, Weight(f, s, i))
  {
    var xs := s + [r];
    var d := f.add(s[i], r);
    var num, den := Num(f, s, i, |s|), Den(f, s, i, s[i], |s|);
    ProductsOfPrefix(f, s, [r], i, s[i], |s|);
    assert xs[i] != xs[|s|];
    AddIsZero(f, s[i], r);
    assert forall j :: 0 <= j < |s| && j != i ==> s[j] != s[i] by {
      forall j | 0 <= j < |s| && j != i ensures s[j] != s[i] {
        assert xs[j] == s[j] && xs[i] == s[i];
      }
    }
    DenNonzero(f, s, i, s[i], |s|);
    InverseOfProduct(f, den, d);
    CancelInWeight(f, num, r, f.inv(den), d);
  }

  /** d * ((n * r) * (e * d^-1)) = r * (n * e) */
  lemma CancelInWeight<T(!new)>(f: Field<T>, n: T, r: T, e: T, d: T)
    requires IsField(f) && d != f.zero
    ensures f.mul(d, f.mul(f.mul(n, r), f.mul(e, f.inv(d)))) == f.mul(r, f.mul(n, e))
  {
    var i := f.inv(d);
    MulSwap(f, n, r, e, i);
    var ne, ri := f.mul(n, e), f.mul(r, i);
    Use(f, d, ne, ri);
    Use(f, ne, d, ri);
    Use(f, d, r, i);
    Use(f, r, d, i);
    Use(f, d, i, i);
    Use(f, r, f.one, f.one);
    Use(f, ne, r, r);
    assert f.mul(d, f.mul(ne, ri)) == f.mul(ne, f.mul(d, ri));
    assert f.mul(d, ri) == r;
  }

  /** Samples that all carry the factor x + r reduce to the samples without r. */
  lemma {:induction false} LagrangeFactor<T(!new)>(f: Field<T>, s: seq<T>, r: T, ys: seq<T>, q: seq<T>, n: nat)
    requires IsField(f) && Distinct(s + [r])
    requires n <= |s| && |ys| == |s| + 1 && |q| == |s|
    requires forall i :: 0 <= i < |s| ==> ys[i] == f.mul(f.add(s[i], r), q[i])
    ensures Lagrange(f, s + [r], ys, n) == f.mul(r, Lagrange(f, s, q, n))
  {
    MulZero(f, r);
    if n > 0 {
      LagrangeFactor(f, s, r, ys, q, n - 1);
      WeightAppend(f, s, r, n - 1);
      var w, w' := Weight(f, s, n - 1), Weight(f, s + [r], n - 1);
      FactorTerm(f, f.add(s[n - 1], r), q[n - 1], w', r, w);
      Use(f, r, Lagrange(f, s, q, n - 1), f.mul(q[n - 1], w));
    }
  }

  /** (d * q) * w' = r * (q * w) when d * w' = r * w */
  lemma FactorTerm<T(!new)>(f: Field<T>, d: T, q: T, w': T, r: T, w: T)
    requires IsField(f) && f.mul(d, w') == f.mul(r, w)
    ensures f.mul(f.mul(d, q), w') == f.mul(r, f.mul(q, w))
  {
    Use(f, d, q, w');
    Use(f, q, d, w');
    Use(f, q, r, w);
    Use(f, r, q, w);
  }

  lemma LagrangeFactorAll<T(!new)>(f: Field<T>, s: seq<T>, r: T, ys: seq<T>, q: seq<T>)
    requires IsField(f) && Distinct(s + [r])
    requires |ys| == |s| + 1 && |q| == |s|
    requires forall i :: 0 <= i < |s| ==> ys[i] == f.mul(f.add(s[i], r), q[i])
    requires ys[|s|] == f.zero
    ensures Lagrange(f, s + [r], ys, |s| + 1) == f.mul(r, Lagrange(f, s, q, |s|))
  {
    LagrangeFactor(f, s, r, ys, q, |s|);
    var w := Weight(f, s + [r], |s|);
    MulZero(f, w);
    Use(f, Lagrange(f, s + [r], ys, |s|), f.zero, f.zero);
  }

  /** The functional is linear in the samples: ys = p + k * zs. */
  lemma {:induction false} LagrangeLinear<T(!new)>(f: Field<T>, xs: seq<T>, ys: seq<T>, p: seq<T>,
                                                   k: T, zs: seq<T>, n: nat)
    requires IsField(f)
    requires n <= |xs| == |ys| == |p| == |zs|
    requires forall i :: 0 <= i < |xs| ==> ys[i] == f.add(p[i], f.mul(k, zs[i]))
    ensures Lagrange(f, xs, ys, n) == f.add(Lagrange(f, xs, p, n), f.mul(k, Lagrange(f, xs, zs, n)))
  {
    if n == 0 {
      MulZero(f, k);
      Use(f, f.zero, f.zero, f.zero);
    } else {
      LagrangeLinear(f, xs, ys, p, k, zs, n - 1);
      var w := Weight(f, xs, n - 1);
      var lp, lz := Lagrange(f, xs, p, n - 1), Lagrange(f, xs, zs, n - 1);
      var pn, zn := p[n - 1], zs[n - 1];
      MulDistributesLeft(f, pn, f.mul(k, zn), w);
      Use(f, k, zn, w);
      Use(f, k, lz, f.mul(zn, w));
      AddSwap(f, lp, f.mul(k, lz), f.mul(pn, w), f.mul(k, f.mul(zn, w)));
    }
  }

  // ----- exchanging the last two points -----

  lemma WeightExchange<T(!new)>(f: Field<T>, s: seq<T>, a: T, b: T, i: nat)
    requires IsField(f) && i < |s|
    ensures Weight(f, s + [a, b], i) == Weight(f, s + [b, a], i)
  {
    var n, x := |s|, s[i];
    ProductsOfPrefix(f, s, [a, b], i, x, n);
    ProductsOfPrefix(f, s, [b, a], i, x, n);
    TwoMoreFactors(f, s, a, b, i, x);
    TwoMoreFactors(f, s, b, a, i, x);
    MulExchange(f, Num(f, s, i, n), a, b);
    MulExchange(f, Den(f, s, i, x, n), f.add(x, a), f.add(x, b));
  }

  lemma TwoMoreFactors<T>(f: Field<T>, s: seq<T>, a: T, b: T, i: nat, x: T)
    requires i < |s|
    ensures var xs := s + [a, b];
            && Num(f, xs, i, |s| + 2) == f.mul(f.mul(Num(f, xs, i, |s|), a), b)
            && Den(f, xs, i, x, |s| + 2) == f.mul(f.mul(Den(f, xs, i, x, |s|), f.add(x, a)), f.add(x, b))
  {
    var xs := s + [a, b];
    assert Num(f, xs, i, |s| + 1) == f.mul(Num(f, xs, i, |s|), a);
    assert Den(f, xs, i, x, |s| + 1) == f.mul(Den(f, xs, i, x, |s|), f.add(x, a));
  }

  lemma MulExchange<T(!new)>(f: Field<T>, p: T, a: T, b: T)
    requires IsField(f)
    ensures f.mul(f.mul(p, a), b) == f.mul(f.mul(p, b), a)
  {
    Use(f, p, a, b);
    Use(f, a, b, p);
    Use(f, p, b, a);
  }

  lemma {:induction false} ProductsSkipNothing<T>(f: Field<T>, xs: seq<T>, i: nat, i': nat, x: T, n: nat)
    requires n <= |xs| && n <= i && n <= i'
    ensures Num(f, xs, i, n) == Num(f, xs, i', n)
    ensures Den(f, xs, i, x, n) == Den(f, xs, i', x, n)
  {
    if n > 0 {
      ProductsSkipNothing(f, xs, i, i', x, n - 1);
    }
  }

  /** The weight of `a` does not depend on whether it stands before or after `b`. */
  lemma LastWeightExchange<T>(f: Field<T>, s: seq<T>, a: T, b: T)
    ensures Weight(f, s + [a, b], |s|) == Weight(f, s + [b, a], |s| + 1)
  {
    var n := |s|;
    var xs, xs' := s + [a, b], s + [b, a];
    ProductsOfPrefix(f, s, [a, b], n, a, n);
    ProductsOfPrefix(f, s, [b, a], n + 1, a, n);
    ProductsSkipNothing(f, s, n, n + 1, a, n);
    assert Num(f, xs, n, n + 1) == Num(f, xs, n, n);
    assert Den(f, xs, n, a, n + 1) == Den(f, xs, n, a, n);
    assert Num(f, xs', n + 1, n + 2) == Num(f, xs', n + 1, n + 1);
    assert Den(f, xs', n + 1, a, n + 2) == Den(f, xs', n + 1, a, n + 1);
  }

  lemma {:induction false} LagrangeExchangePrefix<T(!new)>(f: Field<T>, s: seq<T>, a: T, b: T,
                                                           ys: seq<T>, ys': seq<T>, n: nat)
    requires IsField(f) && n <= |s|
    requires |ys| == |ys'| == |s| + 2 && ys[..|s|] == ys'[..|s|]
    ensures Lagrange(f, s + [a, b], ys, n) == Lagrange(f, s + [b, a], ys', n)
  {
    hide Weight;
    if n > 0 {
      LagrangeExchangePrefix(f, s, a, b, ys, ys', n - 1);
      WeightExchange(f, s, a, b, n - 1);
      assert ys[n - 1] == ys[..|s|][n - 1] == ys'[n - 1];
    }
  }

  lemma LagrangeExchange<T(!new)>(f: Field<T>, s: seq<T>, a: T, b: T, zs: seq<T>, u: T, v: T)
    requires IsField(f) && |zs| == |s|
    ensures Lagrange(f, s + [a, b], zs + [u, v], |s| + 2) == Lagrange(f, s + [b, a], zs + [v, u], |s| + 2)
  {
    var n := |s|;
    var xs, ys, xs', ys' := s + [a, b], zs + [u, v], s + [b, a], zs + [v, u];
    LagrangeExchangePrefix(f, s, a, b, ys, ys', n);
    LastWeightExchange(f, s, a, b);
    LastWeightExchange(f, s, b, a);
    var l, ua, vb := Lagrange(f, xs, ys, n), f.mul(u, Weight(f, xs, n)), f.mul(v, Weight(f, xs, n + 1));
    assert Lagrange(f, xs, ys, n + 1) == f.add(l, ua);
    assert Lagrange(f, xs', ys', n + 1) == f.add(l, vb);
    Use(f, l, ua, vb);
    Use(f, ua, vb, l);
    Use(f, l, vb, ua);
  }

  // ----- the weights sum to one -----

  function Repeat<T>(v: T, n: nat): (r: seq<T>)
    ensures |r| == n && forall i :: 0 <= i < n ==> r[i] == v
  {
    if n == 0 then [] else Repeat(v, n - 1) + [v]
  }

  /** The identity samples, seen through one end point: L(x) + b * L(1) = b. */
  lemma LagrangeIdentity<T(!new)>(f: Field<T>, s: seq<T>, b: T)
    requires IsField(f) && Distinct(s + [b])
    requires Lagrange(f, s, Repeat(f.one, |s|), |s|) == f.one
    ensures var xs := s + [b];
            f.add(Lagrange(f, xs, xs, |xs|), f.mul(b, Lagrange(f, xs, Repeat(f.one, |xs|), |xs|))) == b
  {
    var xs, ones := s + [b], Repeat(f.one, |s| + 1);
    var ys := seq(|xs|, i requires 0 <= i < |xs| => f.add(xs[i], f.mul(b, ones[i])));
    LagrangeLinear(f, xs, ys, xs, b, ones, |xs|);
    Use(f, b, f.one, f.one);
    var q := Repeat(f.one, |s|);
    forall i | 0 <= i < |s| ensures ys[i] == f.mul(f.add(s[i], b), q[i]) {
      Use(f, f.add(s[i], b), f.one, f.one);
    }
    LagrangeFactorAll(f, s, b, ys, q);
  }

  lemma {:induction false} WeightsSumToOne<T(!new)>(f: Field<T>, xs: seq<T>)
    requires IsField(f) && Distinct(xs) && |xs| >= 1
    ensures Lagrange(f, xs, Repeat(f.one, |xs|), |xs|) == f.one
    decreases |xs|
  {
    var n := |xs|;
    var u := Lagrange(f, xs, Repeat(f.one, n), n);
    if n == 1 {
      assert Num(f, xs, 0, 1) == f.one && Den(f, xs, 0, xs[0], 1) == f.one;
      Use(f, f.one, f.inv(f.one), f.one);
      AddCancels(f, f.one, f.zero);
      assert Lagrange(f, xs, Repeat(f.one, 1), 0) == f.zero;
    } else {
      var s, a, b := xs[..n - 2], xs[n - 2], xs[n - 1];
      assert xs == s + [a, b] && xs == (s + [a]) + [b];
      var xs' := s + [b, a];
      assert xs' == (s + [b]) + [a];
      assert Distinct(xs') && Distinct(s + [a]) && Distinct(s + [b]) by {
        DistinctExchange(s, a, b);
      }
      WeightsSumToOne(f, s + [a]);
      WeightsSumToOne(f, s + [b]);
      LagrangeIdentity(f, s + [a], b);
      LagrangeIdentity(f, s + [b], a);
      LagrangeExchange(f, s, a, b, s, a, b);
      LagrangeExchange(f, s, a, b, Repeat(f.one, n - 2), f.one, f.one);
      assert Repeat(f.one, n) == Repeat(f.one, n - 2) + [f.one, f.one];
      SolveForOne(f, a, b, Lagrange(f, xs, xs, n), u);
    }
  }

  lemma DistinctExchange<T>(s: seq<T>, a: T, b: T)
    requires Distinct(s + [a, b])
    ensures Distinct(s + [b, a]) && Distinct(s + [a]) && Distinct(s + [b]) && a != b
  {
    var xs := s + [a, b];
    assert forall i :: 0 <= i < |s| ==> s[i] == xs[i];
    assert xs[|s|] == a && xs[|s| + 1] == b;
  }

  /** v + a * u = a and v + b * u = b with a != b force u = 1. */
  lemma SolveForOne<T(!new)>(f: Field<T>, a: T, b: T, v: T, u: T)
    requires IsField(f) && a != b
    requires f.add(v, f.mul(a, u)) == a
    requires f.add(v, f.mul(b, u)) == b
    ensures u == f.one
  {
    var au, bu := f.mul(a, u), f.mul(b, u);
    AddSwap(f, v, au, v, bu);
    Use(f, v, v, v);
    AddCancels(f, f.add(au, bu), f.zero);
    MulDistributesLeft(f, a, b, u);
    AddIsZero(f, a, b);
    CancelFactor(f, f.add(a, b), u);
  }

  // ----- interpolation at zero -----

  lemma EvalAtZero<T(!new)>(f: Field<T>, c: seq<T>)
    requires IsField(f) && |c| > 0
    ensures Eval(f, c, f.zero) == c[0]
  {
    MulZero(f, Eval(f, c[1..], f.zero));
    Use(f, c[0], f.zero, f.zero);
  }

  /** Weighted sums of enough samples of a polynomial give its value at zero. */
  lemma {:induction false} LagrangeAtZero<T(!new)>(f: Field<T>, xs: seq<T>, c: seq<T>, ys: seq<T>)
    requires IsField(f) && Distinct(xs)
    requires |c| <= |xs| == |ys|
    requires forall i :: 0 <= i < |xs| ==> ys[i] == Eval(f, c, xs[i])
    ensures Lagrange(f, xs, ys, |xs|) == Eval(f, c, f.zero)
    decreases |xs|
  {
    if |xs| > 0 {
      var n := |xs| - 1;
      var s, r := xs[..n], xs[n];
      assert xs == s + [r];
      var q := Quotient(f, c, r);
      var value := Eval(f, c, r);
      var qs := seq(n, i requires 0 <= i < n => Eval(f, q, s[i]));
      LagrangeAtZero(f, s, q, qs);
      var zs := seq(|xs|, i requires 0 <= i < |xs| => f.mul(f.add(xs[i], r), Eval(f, q, xs[i])));
      var ones := Repeat(f.one, |xs|);
      forall i | 0 <= i < |xs| ensures ys[i] == f.add(zs[i], f.mul(value, ones[i])) {
        Division(f, c, r, xs[i]);
        Use(f, value, f.one, f.one);
        Use(f, value, zs[i], zs[i]);
      }
      LagrangeLinear(f, xs, ys, zs, value, ones, |xs|);
      WeightsSumToOne(f, xs);
      AddIsZero(f, r, r);
      MulZero(f, Eval(f, q, r));
      LagrangeFactorAll(f, s, r, zs, qs);
      Division(f, c, r, f.zero);
      AddCancels(f, r, f.zero);
      Use(f, value, f.one, f.one);
      Use(f, value, f.mul(r, Eval(f, q, f.zero)), f.zero);
    }
  }

  // ----- uniqueness and existence of interpolants -----

  lemma {:induction false} VanishingQuotient<T(!new)>(f: Field<T>, c: seq<T>, r: T)
    requires IsField(f) && Eval(f, c, r) == f.zero
    requires forall i :: 0 <= i < |c| - 1 ==> Quotient(f, c, r)[i] == f.zero
    ensures forall i :: 0 <= i < |c| ==> c[i] == f.zero
  {
    if |c| > 0 {
      var c' := c[1..];
      MulZero(f, r);
      if |c| > 1 {
        var q := Quotient(f, c, r);
        assert q[0] == Eval(f, c', r);
        assert q[1..] == Quotient(f, c', r);
        assert forall i :: 0 <= i < |c'| - 1 ==> Quotient(f, c', r)[i] == q[i + 1];
        VanishingQuotient(f, c', r);
      }
      Use(f, c[0], f.zero, f.zero);
      assert Eval(f, c', r) == f.zero;
    }
  }

  /** A polynomial with as many roots as coefficients is zero. */
  lemma {:induction false} TooManyRoots<T(!new)>(f: Field<T>, c: seq<T>, xs: seq<T>)
    requires IsField(f) && Distinct(xs) && |c| <= |xs|
    requires forall i :: 0 <= i < |xs| ==> Eval(f, c, xs[i]) == f.zero
    ensures forall i :: 0 <= i < |c| ==> c[i] == f.zero
    decreases |xs|
  {
    if |c| > 0 {
      var n := |xs| - 1;
      var s, r := xs[..n], xs[n];
      var q := Quotient(f, c, r);
      forall i | 0 <= i < n ensures Eval(f, q, s[i]) == f.zero {
        Division(f, c, r, xs[i]);
        var d, e := f.add(xs[i], r), Eval(f, q, xs[i]);
        AddCancels(f, f.mul(d, e), f.zero);
        AddIsZero(f, xs[i], r);
        if e != f.zero {
          NoZeroDivisors(f, d, e);
        }
      }
      TooManyRoots(f, q, s);
      VanishingQuotient(f, c, r);
    }
  }

  function Sum<T>(f: Field<T>, c: seq<T>, d: seq<T>): (e: seq<T>)
    requires |c| == |d|
    ensures |e| == |c| && forall i :: 0 <= i < |c| ==> e[i] == f.add(c[i], d[i])
  {
    seq(|c|, i requires 0 <= i < |c| => f.add(c[i], d[i]))
  }

  lemma {:induction false} EvalOfSum<T(!new)>(f: Field<T>, c: seq<T>, d: seq<T>, x: T)
    requires IsField(f) && |c| == |d|
    ensures Eval(f, Sum(f, c, d), x) == f.add(Eval(f, c, x), Eval(f, d, x))
  {
    if |c| == 0 {
      Use(f, f.zero, f.zero, f.zero);
    } else {
      assert Sum(f, c, d)[1..] == Sum(f, c[1..], d[1..]);
      EvalOfSum(f, c[1..], d[1..], x);
      var u, v := Eval(f, c[1..], x), Eval(f, d[1..], x);
      Use(f, x, u, v);
      AddSwap(f, c[0], d[0], f.mul(x, u), f.mul(x, v));
    }
  }

  /** At most one polynomial with |xs| coefficients takes given values at distinct points. */
  lemma InterpolantUnique<T(!new)>(f: Field<T>, xs: seq<T>, c: seq<T>, d: seq<T>)
    requires IsField(f) && Distinct(xs) && |c| == |d| <= |xs|
    requires forall i :: 0 <= i < |xs| ==> Eval(f, c, xs[i]) == Eval(f, d, xs[i])
    ensures c == d
  {
    var e := Sum(f, c, d);
    forall i | 0 <= i < |xs| ensures Eval(f, e, xs[i]) == f.zero {
      EvalOfSum(f, c, d, xs[i]);
      AddIsZero(f, Eval(f, c, xs[i]), Eval(f, d, xs[i]));
    }
    TooManyRoots(f, e, xs);
    forall i | 0 <= i < |c| ensures c[i] == d[i] {
      AddIsZero(f, c[i], d[i]);
    }
  }

  /** The polynomial with quotient `q` and remainder `v` on division by x + r. */
  function Undivide<T>(f: Field<T>, q: seq<T>, r: T, v: T): (c: seq<T>)
    ensures |c| == |q| + 1
  {
    if |q| == 0 then [v] else [f.add(v, f.mul(r, q[0]))] + Undivide(f, q[1..], r, q[0])
  }

  lemma {:induction false} EvalOfUndivide<T(!new)>(f: Field<T>, q: seq<T>, r: T, v: T, x: T)
    requires IsField(f)
    ensures Eval(f, Undivide(f, q, r, v), x) == f.add(v, f.mul(f.add(x, r), Eval(f, q, x)))
  {
    if |q| == 0 {
      MulZero(f, x);
      MulZero(f, f.add(x, r));
      assert Undivide(f, q, r, v)[1..] == [];
      assert Eval(f, Undivide(f, q, r, v)[1..], x) == f.zero;
    } else {
      var c' := Undivide(f, q[1..], r, q[0]);
      assert Undivide(f, q, r, v)[1..] == c';
      EvalOfUndivide(f, q[1..], r, q[0], x);
      var w := Eval(f, q[1..], x);
      DivisionStep(f, f.add(v, f.mul(r, q[0])), x, r, q[0], w);
      AddCancels(f, v, f.mul(r, q[0]));
    }
  }

  /** Every choice of values at distinct points has an interpolant with |xs| coefficients. */
  lemma {:induction false} InterpolantExists<T(!new)>(f: Field<T>, xs: seq<T>, ys: seq<T>) returns (c: seq<T>)
    requires IsField(f) && Distinct(xs) && |xs| == |ys|
    ensures |c| == |xs|
    ensures forall i :: 0 <= i < |xs| ==> Eval(f, c, xs[i]) == ys[i]
    decreases |xs|
  {
    if |xs| == 0 {
      c := [];
    } else {
      var n := |xs| - 1;
      var s, r, v := xs[..n], xs[n], ys[n];
      var slopes := seq(n, i requires 0 <= i < n => f.mul(f.add(ys[i], v), f.inv(f.add(s[i], r))));
      var q := InterpolantExists(f, s, slopes);
      c := Undivide(f, q, r, v);
      forall i | 0 <= i < |xs| ensures Eval(f, c, xs[i]) == ys[i] {
        EvalOfUndivide(f, q, r, v, xs[i]);
        if i < n {
          assert s[i] == xs[i] && xs[i] != r;
          RebuildValue(f, ys[i], v, f.add(xs[i], r), xs[i], r);
        } else {
          AddIsZero(f, r, r);
          MulZero(f, Eval(f, q, r));
          Use(f, v, f.zero, f.zero);
        }
      }
    }
  }

  /** v + d * ((y + v) * d^-1) = y */
  lemma RebuildValue<T(!new)>(f: Field<T>, y: T, v: T, d: T, x: T, r: T)
    requires IsField(f) && d == f.add(x, r) && x != r
    ensures f.add(v, f.mul(d, f.mul(f.add(y, v), f.inv(d)))) == y
  {
    AddIsZero(f, x, r);
    var k, i := f.add(y, v), f.inv(d);
    Use(f, d, k, i);
    Use(f, k, d, i);
    Use(f, d, i, i);
    Use(f, k, f.one, f.one);
    AddCancels(f, y, v);
    Use(f, v, k, k);
  }
}
