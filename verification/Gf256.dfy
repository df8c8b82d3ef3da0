/** The field GF(256): polynomials over GF(2) modulo x^8 + x^4 + x^3 + x + 1.
    An element is its eight coefficients, so every law below is about polynomial
    arithmetic; module `GfBytes` ties the byte loops of the source to it. */
module Gf256 {

  import opened Monoids

  datatype Elem = Elem(b0: bool, b1: bool, b2: bool, b3: bool, b4: bool, b5: bool, b6: bool, b7: bool)

  const ZERO := Elem(false, false, false, false, false, false, false, false)
  const ONE := Elem(true, false, false, false, false, false, false, false)

  function Add(a: Elem, b: Elem): Elem {
    Elem(a.b0 != b.b0, a.b1 != b.b1, a.b2 != b.b2, a.b3 != b.b3, a.b4 != b.b4, a.b5 != b.b5, a.b6 != b.b6, a.b7 != b.b7)
  }

  /** Multiplication by x, reduced with x^8 = x^4 + x^3 + x + 1. */
  function TimesX(a: Elem): Elem {
    Elem(a.b7, a.b0 != a.b7, a.b1, a.b2 != a.b7, a.b3 != a.b7, a.b4, a.b5, a.b6)
  }

  /** The quotient of division by x: the constant coefficient is dropped. */
  function DropX(b: Elem): Elem {
    Elem(b.b1, b.b2, b.b3, b.b4, b.b5, b.b6, b.b7, false)
  }

  function Pick(bit: bool, a: Elem): Elem {
    if bit then a else ZERO
  }

  /** The product of `a` with the `n` lowest terms of `b`. */
  function MulSteps(a: Elem, b: Elem, n: nat): Elem
    decreases n, a, b
  {
    if n == 0 then ZERO
    else Add(Pick(b.b0, a), MulSteps(TimesX(a), DropX(b), n - 1))
  }

  function Mul(a: Elem, b: Elem): Elem {
    MulSteps(a, b, 8)
  }

  // ----- the additive group -----

  lemma AddLaws(a: Elem)
    ensures Add(a, ZERO) == a
    ensures Add(ZERO, a) == a
    ensures Add(a, a) == ZERO
  {}

  lemma AddAssociates(a: Elem, b: Elem, c: Elem)
    ensures Add(Add(a, b), c) == Add(a, Add(b, c))
  {}

  lemma AddSwap(p: Elem, q: Elem, r: Elem, s: Elem)
    ensures Add(Add(p, q), Add(r, s)) == Add(Add(p, r), Add(q, s))
  {}

  lemma PickOfXor(p: bool, q: bool, a: Elem)
    ensures Pick(p != q, a) == Add(Pick(p, a), Pick(q, a))
  {}

  lemma TimesXOfSum(a: Elem, b: Elem)
    ensures TimesX(Add(a, b)) == Add(TimesX(a), TimesX(b))
  {}

  lemma DropXOfSum(a: Elem, b: Elem)
    ensures DropX(Add(a, b)) == Add(DropX(a), DropX(b))
  {}

  // ----- bilinearity -----

  lemma {:induction false} MulStepsOfSumLeft(a: Elem, b: Elem, c: Elem, n: nat)
    ensures MulSteps(Add(a, b), c, n) == Add(MulSteps(a, c, n), MulSteps(b, c, n))
    decreases n
  {
    if n > 0 {
      TimesXOfSum(a, b);
      MulStepsOfSumLeft(TimesX(a), TimesX(b), DropX(c), n - 1);
      AddSwap(Pick(c.b0, a), Pick(c.b0, b), MulSteps(TimesX(a), DropX(c), n - 1), MulSteps(TimesX(b), DropX(c), n - 1));
    }
  }

  lemma {:induction false} MulStepsOfSumRight(a: Elem, b: Elem, c: Elem, n: nat)
    ensures MulSteps(a, Add(b, c), n) == Add(MulSteps(a, b, n), MulSteps(a, c, n))
    decreases n
  {
    if n > 0 {
      DropXOfSum(b, c);
      MulStepsOfSumRight(TimesX(a), DropX(b), DropX(c), n - 1);
      PickOfXor(b.b0, c.b0, a);
      AddSwap(Pick(b.b0, a), Pick(c.b0, a), MulSteps(TimesX(a), DropX(b), n - 1), MulSteps(TimesX(a), DropX(c), n - 1));
    }
  }

  lemma {:induction false} MulStepsTimesX(a: Elem, b: Elem, n: nat)
    ensures MulSteps(TimesX(a), b, n) == TimesX(MulSteps(a, b, n))
    decreases n
  {
    if n > 0 {
      MulStepsTimesX(TimesX(a), DropX(b), n - 1);
      TimesXOfSum(Pick(b.b0, a), MulSteps(TimesX(a), DropX(b), n - 1));
    }
  }

  lemma MulOfSumLeft(a: Elem, b: Elem, c: Elem)
    ensures Mul(Add(a, b), c) == Add(Mul(a, c), Mul(b, c))
  {
    MulStepsOfSumLeft(a, b, c, 8);
  }

  lemma MulOfSumRight(a: Elem, b: Elem, c: Elem)
    ensures Mul(a, Add(b, c)) == Add(Mul(a, b), Mul(a, c))
  {
    MulStepsOfSumRight(a, b, c, 8);
  }

  lemma MulTimesXLeft(a: Elem, b: Elem)
    ensures Mul(TimesX(a), b) == TimesX(Mul(a, b))
  {
    MulStepsTimesX(a, b, 8);
  }

  lemma MulZero(a: Elem)
    ensures Mul(a, ZERO) == ZERO
    ensures Mul(ZERO, a) == ZERO
  {
    AddLaws(ZERO);
    MulOfSumLeft(ZERO, ZERO, a);
    MulOfSumRight(a, ZERO, ZERO);
    AddLaws(Mul(a, ZERO));
    AddLaws(Mul(ZERO, a));
  }

  // ----- multiplication by x on the right -----

  /** Terms beyond the degree of `b` contribute nothing. */
  lemma {:induction false} MulStepsBeyondDegree(a: Elem, b: Elem, n: nat)
    requires Below(b, n)
    ensures MulSteps(a, b, n + 1) == MulSteps(a, b, n)
    decreases n
  {
    if n > 0 {
      MulStepsBeyondDegree(TimesX(a), DropX(b), n - 1);
    } else {
      AddLaws(ZERO);
    }
  }

  /** `b` has degree less than `n`. */
  predicate Below(b: Elem, n: nat)
    decreases n
  {
    if n == 0 then b == ZERO else Below(DropX(b), n - 1)
  }

  lemma BelowEight(b: Elem)
    ensures Below(b, 8)
    ensures !b.b7 ==> Below(b, 7)
  {
    var d1 := DropX(b);
    var d2 := DropX(d1);
    var d3 := DropX(d2);
    var d4 := DropX(d3);
    var d5 := DropX(d4);
    var d6 := DropX(d5);
    var d7 := DropX(d6);
    assert Below(DropX(d7), 0);
    assert Below(d7, 1) && Below(d6, 2) && Below(d5, 3) && Below(d4, 4);
    if !b.b7 {
      assert Below(d7, 0);
      assert Below(d6, 1) && Below(d5, 2) && Below(d4, 3) && Below(d3, 4);
    }
  }

  lemma MulTimesXRightNoCarry(a: Elem, b: Elem)
    requires !b.b7
    ensures Mul(a, TimesX(b)) == TimesX(Mul(a, b))
  {
    assert DropX(TimesX(b)) == b;
    AddLaws(MulSteps(TimesX(a), b, 7));
    BelowEight(b);
    MulStepsBeyondDegree(TimesX(a), b, 7);
    MulTimesXLeft(a, b);
  }

  lemma MulOneRight(a: Elem)
    ensures Mul(a, ONE) == a
  {
    assert DropX(ONE) == ZERO;
    var x := TimesX(a);
    MulStepsOfSumRight(x, ZERO, ZERO, 7);
    AddLaws(ZERO);
    AddLaws(MulSteps(x, ZERO, 7));
    AddLaws(a);
  }

  function FourTimesX(a: Elem): Elem {
    TimesX(TimesX(TimesX(TimesX(a))))
  }

  /** x^4 + x^3 + x + 1, times a. */
  function LowPart(a: Elem): Elem {
    var x3 := TimesX(TimesX(TimesX(a)));
    Add(Add(a, TimesX(a)), Add(x3, TimesX(x3)))
  }

  lemma FourTimesXOfSum(a: Elem, b: Elem)
    ensures FourTimesX(Add(a, b)) == Add(FourTimesX(a), FourTimesX(b))
  {
    TimesXOfSum(a, b);
    var a1, b1 := TimesX(a), TimesX(b);
    TimesXOfSum(a1, b1);
    var a2, b2 := TimesX(a1), TimesX(b1);
    TimesXOfSum(a2, b2);
    TimesXOfSum(TimesX(a2), TimesX(b2));
    hide TimesX, Add;
  }

  lemma LowPartOfSum(a: Elem, b: Elem)
    ensures LowPart(Add(a, b)) == Add(LowPart(a), LowPart(b))
  {
    hide TimesX, Add;
    var a1, b1 := TimesX(a), TimesX(b);
    var a2, b2 := TimesX(a1), TimesX(b1);
    var a3, b3 := TimesX(a2), TimesX(b2);
    TimesXOfSum(a, b);
    TimesXOfSum(a1, b1);
    TimesXOfSum(a2, b2);
    TimesXOfSum(a3, b3);
    AddSwap(a, b, a1, b1);
    AddSwap(a3, b3, TimesX(a3), TimesX(b3));
    AddSwap(Add(a, a1), Add(b, b1), Add(a3, TimesX(a3)), Add(b3, TimesX(b3)));
  }

  lemma LowPartOfTimesX(a: Elem)
    ensures LowPart(TimesX(a)) == TimesX(LowPart(a))
  {
    hide TimesX, Add;
    var a1 := TimesX(a);
    var a3 := TimesX(TimesX(a1));
    TimesXOfSum(Add(a, a1), Add(a3, TimesX(a3)));
    TimesXOfSum(a, a1);
    TimesXOfSum(a3, TimesX(a3));
  }

  lemma ReductionOfOne()
    ensures FourTimesX(FourTimesX(ONE)) == LowPart(ONE)
    ensures FourTimesX(FourTimesX(ZERO)) == LowPart(ZERO)
  {
    assert FourTimesX(ONE) == Elem(false, false, false, false, true, false, false, false);
    assert FourTimesX(ZERO) == ZERO;
  }

  lemma {:induction false} ReductionBelow(a: Elem, n: nat)
    requires Below(a, n)
    ensures FourTimesX(FourTimesX(a)) == LowPart(a)
    decreases n
  {
    ReductionOfOne();
    hide FourTimesX, LowPart, TimesX, Add;
    if n > 0 {
      var low, rest := Pick(a.b0, ONE), DropX(a);
      var high := TimesX(rest);
      ReductionBelow(rest, n - 1);
      SplitLowTerm(a);
      FourTimesXOfSum(low, high);
      FourTimesXOfSum(FourTimesX(low), FourTimesX(high));
      LowPartOfSum(low, high);
      LowPartOfTimesX(rest);
      FourTimesXShifts(rest);
      FourTimesXShifts(FourTimesX(rest));
    }
  }

  lemma FourTimesXShifts(a: Elem)
    ensures FourTimesX(TimesX(a)) == TimesX(FourTimesX(a))
  {
    hide TimesX;
  }

  /** x^8 = x^4 + x^3 + x + 1, times any a. */
  lemma ReductionPolynomial(a: Elem)
    ensures var x3 := TimesX(TimesX(TimesX(a)));
            var x7 := TimesX(TimesX(TimesX(TimesX(x3))));
            TimesX(x7) == Add(Add(a, TimesX(a)), Add(x3, TimesX(x3)))
  {
    BelowEight(a);
    hide TimesX, Add, Below;
    ReductionBelow(a, 8);
  }

  const X1 := TimesX(ONE)
  const X3 := TimesX(TimesX(X1))
  const X4 := TimesX(X3)
  const X7 := TimesX(TimesX(TimesX(X4)))

  lemma MulPowersOfX(a: Elem)
    ensures var x3 := TimesX(TimesX(TimesX(a)));
            var x7 := TimesX(TimesX(TimesX(TimesX(x3))));
            Mul(a, X7) == x7 && Mul(a, TimesX(X7)) == TimesX(x7)
  {
    MulOneRight(a);
    MulTimesXRightNoCarry(a, ONE);
    MulTimesXRightNoCarry(a, X1);
    MulTimesXRightNoCarry(a, TimesX(X1));
    MulTimesXRightNoCarry(a, X3);
    MulTimesXRightNoCarry(a, X4);
    MulTimesXRightNoCarry(a, TimesX(X4));
    MulTimesXRightNoCarry(a, TimesX(TimesX(X4)));
    ReductionPolynomial(a);
    ReductionPolynomial(ONE);
    MulOfSumRight(a, Add(ONE, X1), Add(X3, X4));
    MulOfSumRight(a, ONE, X1);
    MulOfSumRight(a, X3, X4);
  }

  lemma MulTimesXRight(a: Elem, b: Elem)
    ensures Mul(a, TimesX(b)) == TimesX(Mul(a, b))
  {
    if b.b7 {
      var low := Add(b, X7);
      assert Add(low, X7) == b by {
        AddAssociates(b, X7, X7);
        AddLaws(X7);
        AddLaws(b);
      }
      assert !low.b7;
      MulTimesXRightNoCarry(a, low);
      MulPowersOfX(a);
      TimesXOfSum(low, X7);
      MulOfSumRight(a, low, X7);
      MulOfSumRight(a, TimesX(low), TimesX(X7));
      TimesXOfSum(Mul(a, low), Mul(a, X7));
    } else {
      MulTimesXRightNoCarry(a, b);
    }
  }

  // ----- the ring laws -----

  lemma SplitLowTerm(b: Elem)
    ensures b == Add(Pick(b.b0, ONE), TimesX(DropX(b)))
  {}

  lemma {:induction false} CommutesBelow(a: Elem, b: Elem, n: nat)
    requires Below(b, n)
    ensures Mul(a, b) == Mul(b, a)
    decreases n
  {
    MulZero(a);
    if n > 0 {
      var low, rest := Pick(b.b0, ONE), DropX(b);
      CommutesBelow(a, rest, n - 1);
      SplitLowTerm(b);
      MulTimesXRight(a, rest);
      MulTimesXLeft(rest, a);
      MulOfSumRight(a, low, TimesX(rest));
      MulOfSumLeft(low, TimesX(rest), a);
      MulOneBothSides(a, b.b0);
    }
  }

  lemma MulOneBothSides(a: Elem, bit: bool)
    ensures Mul(a, Pick(bit, ONE)) == Mul(Pick(bit, ONE), a)
  {
    MulZero(a);
    MulOneRight(a);
    BelowEight(a);
    MulOneLeft(a, 8);
  }

  lemma {:induction false} MulOneLeft(b: Elem, n: nat)
    requires Below(b, n)
    ensures Mul(ONE, b) == b
    decreases n
  {
    hide Add, TimesX, Mul;
    MulZero(ONE);
    if n > 0 {
      var low, rest := Pick(b.b0, ONE), DropX(b);
      MulOneLeft(rest, n - 1);
      SplitLowTerm(b);
      MulTimesXRight(ONE, rest);
      MulOfSumRight(ONE, low, TimesX(rest));
      MulOneRight(ONE);
    }
  }

  lemma MulCommutes(a: Elem, b: Elem)
    ensures Mul(a, b) == Mul(b, a)
  {
    BelowEight(b);
    CommutesBelow(a, b, 8);
  }

  lemma {:induction false} MulStepsAssociate(a: Elem, b: Elem, c: Elem, n: nat)
    ensures MulSteps(Mul(a, b), c, n) == Mul(a, MulSteps(b, c, n))
    decreases n
  {
    MulZero(a);
    if n > 0 {
      MulTimesXRight(a, b);
      MulStepsAssociate(a, TimesX(b), DropX(c), n - 1);
      MulOfSumRight(a, Pick(c.b0, b), MulSteps(TimesX(b), DropX(c), n - 1));
    }
  }

  lemma MulAssociates(a: Elem, b: Elem, c: Elem)
    ensures Mul(Mul(a, b), c) == Mul(a, Mul(b, c))
  {
    MulStepsAssociate(a, b, c, 8);
  }

  // ----- inverses -----

  function Square(a: Elem): Elem {
    Mul(a, a)
  }

  /** Squaring, on coefficients. */
  function SquareBits(a: Elem): Elem {
    Elem((a.b0 != a.b4) != a.b6, (a.b4 != a.b6) != a.b7, a.b1 != a.b5, (a.b4 != a.b5) != (a.b6 != a.b7),
         (a.b2 != a.b4) != a.b7, a.b5 != a.b6, a.b3 != a.b5, a.b6 != a.b7)
  }

  lemma SquareBitsStep(b: Elem)
    ensures SquareBits(b) == Add(Pick(b.b0, ONE), TimesX(TimesX(SquareBits(DropX(b)))))
  {}

  lemma SquareOfSum(a: Elem, b: Elem)
    ensures Square(Add(a, b)) == Add(Square(a), Square(b))
  {
    MulOfSumLeft(a, b, Add(a, b));
    MulOfSumRight(a, a, b);
    MulOfSumRight(b, a, b);
    MulCommutes(a, b);
    var m := Mul(a, b);
    CrossTermsVanish(Square(a), m, Square(b));
  }

  lemma CrossTermsVanish(p: Elem, m: Elem, q: Elem)
    ensures Add(Add(p, m), Add(m, q)) == Add(p, q)
  {}

  lemma SquareOfTimesX(a: Elem)
    ensures Square(TimesX(a)) == TimesX(TimesX(Square(a)))
  {
    MulTimesXLeft(a, TimesX(a));
    MulTimesXRight(a, a);
  }

  lemma SquareOfPick(bit: bool)
    ensures Square(Pick(bit, ONE)) == Pick(bit, ONE)
  {
    MulZero(ZERO);
    MulOneRight(ONE);
    hide Mul;
  }

  lemma SquareBitsOfZero()
    ensures SquareBits(ZERO) == ZERO
  {
  }

  lemma {:induction false} SquareIsSquareBits(b: Elem, n: nat)
    requires Below(b, n)
    ensures Square(b) == SquareBits(b)
    decreases n
  {
    hide SquareBits, Square, TimesX, Add, DropX;
    if n > 0 {
      var low, rest := Pick(b.b0, ONE), DropX(b);
      SquareIsSquareBits(rest, n - 1);
      SplitLowTerm(b);
      SquareOfSum(low, TimesX(rest));
      SquareOfTimesX(rest);
      SquareOfPick(b.b0);
      SquareBitsStep(b);
    } else {
      SquareOfPick(false);
      SquareBitsOfZero();
    }
  }

  /** Only 0 and 1 are their own square. */
  lemma Idempotents(a: Elem)
    requires Square(a) == a
    ensures a == ZERO || a == ONE
  {
    BelowEight(a);
    hide Square, SquareBits, Below;
    SquareIsSquareBits(a, 8);
    IdempotentBits(a);
  }

  lemma IdempotentBits(a: Elem)
    requires SquareBits(a) == a
    ensures a == ZERO || a == ONE
  {}

  /** a^4, on coefficients. */
  function FourthPower(a: Elem): Elem {
    Elem(((((a.b0 != a.b2) != a.b3) != a.b5) != a.b6) != a.b7,
         (((a.b2 != a.b3) != a.b4) != a.b5) != a.b6,
         (a.b4 != a.b5) != a.b7,
         (a.b2 != a.b3) != a.b4,
         (((a.b1 != a.b2) != a.b4) != a.b5) != a.b6,
         a.b3 != a.b6,
         a.b4 != a.b7,
         ((a.b3 != a.b5) != a.b6) != a.b7)
  }

  /** a^16, on coefficients. */
  function SixteenthPower(a: Elem): Elem {
    Elem(((a.b0 != a.b4) != a.b5) != a.b6,
         a.b1,
         (((a.b1 != a.b2) != a.b4) != a.b6) != a.b7,
         (((a.b1 != a.b3) != a.b4) != a.b6) != a.b7,
         (a.b1 != a.b5) != a.b6,
         (a.b2 != a.b3) != a.b7,
         (((a.b1 != a.b2) != a.b3) != a.b4) != a.b7,
         (a.b2 != a.b3) != a.b5)
  }

  lemma FrobeniusOrder(a: Elem)
    ensures SquareBits(SquareBits(a)) == FourthPower(a)
    ensures FourthPower(FourthPower(a)) == SixteenthPower(a)
    ensures SixteenthPower(SixteenthPower(a)) == a
  {}

  lemma SquareTimesIsBits(a: Elem, k: nat)
    ensures SquareTimes(Mul, a, k + 1) == SquareBits(SquareTimes(Mul, a, k))
  {
    var s := SquareTimes(Mul, a, k);
    SquareTimesUnfold(Mul, ONE, a, k);
    BelowEight(s);
    SquareIsSquareBits(s, 8);
  }

  /** a^256 = a */
  lemma SquareEightTimes(a: Elem)
    ensures SquareTimes(Mul, a, 8) == a
  {
    SquareTimesIsBits(a, 0);
    SquareTimesIsBits(a, 1);
    SquareTimesIsBits(a, 2);
    SquareTimesIsBits(a, 3);
    SquareTimesIsBits(a, 4);
    SquareTimesIsBits(a, 5);
    SquareTimesIsBits(a, 6);
    SquareTimesIsBits(a, 7);
    FrobeniusOrder(a);
    FrobeniusOrder(SquareTimes(Mul, a, 2));
    FrobeniusOrder(SquareTimes(Mul, a, 4));
    FrobeniusOrder(SquareTimes(Mul, a, 6));
  }

  /** The Fermat inverse a^254. */
  function Inverse(a: Elem): Elem {
    SquareProduct(Mul, ONE, a, 7)
  }

  lemma MulIsMonoidAt(a: Elem, b: Elem, c: Elem)
    ensures MonoidLaws(Mul, ONE, a, b, c)
  {
    MulAssociates(a, b, c);
    MulOneRight(a);
  }

  lemma MulIsMonoid()
    ensures IsMonoid(Mul, ONE)
  {
    forall a, b, c ensures MonoidLaws(Mul, ONE, a, b, c) {
      MulIsMonoidAt(a, b, c);
    }
  }

  lemma NormFacts(a: Elem, norm: Elem, p: Elem)
    requires p == Inverse(a) && norm == Mul(a, p)
    ensures Mul(a, norm) == a
    ensures Square(norm) == norm
  {
    MulIsMonoid();
    ProductTelescopes(Mul, ONE, a, 7);
    SquareEightTimes(a);
    MulAssociates(norm, a, p);
    MulCommutes(norm, a);
  }

  /** a * a^254 = 1 for every nonzero a. */
  lemma FermatInverse(a: Elem)
    requires a != ZERO
    ensures Mul(a, Inverse(a)) == ONE
  {
    var norm := Mul(a, Inverse(a));
    NormFacts(a, norm, Inverse(a));
    Idempotents(norm);
    MulZero(a);
  }
}
