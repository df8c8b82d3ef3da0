/** The GF(256) arithmetic of pkg/recovery on bytes: bit k of a byte is the
    coefficient of x^k. */
module GfBytes {

  import opened Bytes
  import opened Fields
  import Monoids
  import G = Gf256

  function Bits(a: byte): G.Elem {
    G.Elem(a & 1 == 1, a & 2 == 2, a & 4 == 4, a & 8 == 8, a & 16 == 16, a & 32 == 32, a & 64 == 64, a & 128 == 128)
  }

  function Flag(bit: bool, weight: byte): byte {
    if bit then weight else 0
  }

  function FromBits(e: G.Elem): byte {
    Flag(e.b0, 1) | Flag(e.b1, 2) | Flag(e.b2, 4) | Flag(e.b3, 8)
    | Flag(e.b4, 16) | Flag(e.b5, 32) | Flag(e.b6, 64) | Flag(e.b7, 128)
  }

  lemma BitsRoundTrip(a: byte)
    ensures FromBits(Bits(a)) == a
  {}

  lemma FromBitsRoundTrip(e: G.Elem)
    ensures Bits(FromBits(e)) == e
  {}

  lemma BitsOfXor(a: byte, b: byte)
    ensures Bits(a ^ b) == G.Add(Bits(a), Bits(b))
  {
  }

  lemma BitsOfShift(a: byte)
    ensures a & 0x80 != 0 ==> Bits((a << 1) ^ 0x1b) == G.TimesX(Bits(a))
    ensures a & 0x80 == 0 ==> Bits(a << 1) == G.TimesX(Bits(a))
    ensures Bits(a >> 1) == G.DropX(Bits(a))
    ensures (a & 1 != 0) == Bits(a).b0
    ensures Bits(0) == G.ZERO && Bits(1) == G.ONE
  {}

  // ----- the field of bytes -----

  function Mul(a: byte, b: byte): byte {
    FromBits(G.Mul(Bits(a), Bits(b)))
  }

  function Inv(a: byte): byte {
    if a == 0 then 0 else Monoids.SquareProduct(Mul, 1, a, 7)
  }

  function Xor(a: byte, b: byte): byte {
    a ^ b
  }

  const GF: Field<byte> := Field(0, 1, Xor, Mul, Inv)

  lemma XorLaws(a: byte, b: byte, c: byte)
    ensures Xor(a, b) == Xor(b, a)
    ensures Xor(Xor(a, b), c) == Xor(a, Xor(b, c))
    ensures Xor(a, 0) == a
    ensures Xor(a, a) == 0
  {}

  lemma BitsOfMul(a: byte, b: byte)
    ensures Bits(Mul(a, b)) == G.Mul(Bits(a), Bits(b))
  {
    FromBitsRoundTrip(G.Mul(Bits(a), Bits(b)));
  }

  lemma BitsInjective(a: byte, b: byte)
    requires Bits(a) == Bits(b)
    ensures a == b
  {
    BitsRoundTrip(a);
    BitsRoundTrip(b);
  }

  lemma MulCommutes(a: byte, b: byte)
    ensures Mul(a, b) == Mul(b, a)
  {
    G.MulCommutes(Bits(a), Bits(b));
  }

  lemma MulAssociates(a: byte, b: byte, c: byte)
    ensures Mul(Mul(a, b), c) == Mul(a, Mul(b, c))
  {
    BitsOfMul(a, b);
    BitsOfMul(b, c);
    G.MulAssociates(Bits(a), Bits(b), Bits(c));
  }

  lemma MulOne(a: byte)
    ensures Mul(a, 1) == a
  {
    BitsOfShift(1);
    G.MulOneRight(Bits(a));
    BitsRoundTrip(a);
  }

  lemma MulDistributes(a: byte, b: byte, c: byte)
    ensures Mul(a, Xor(b, c)) == Xor(Mul(a, b), Mul(a, c))
  {
    BitsOfXor(b, c);
    G.MulOfSumRight(Bits(a), Bits(b), Bits(c));
    BitsOfMul(a, b);
    BitsOfMul(a, c);
    BitsOfMul(a, Xor(b, c));
    BitsOfXor(Mul(a, b), Mul(a, c));
    BitsInjective(Mul(a, Xor(b, c)), Xor(Mul(a, b), Mul(a, c)));
  }

  lemma {:induction false} BitsOfSquareTimes(a: byte, k: nat)
    ensures Bits(Monoids.SquareTimes(Mul, a, k)) == Monoids.SquareTimes(G.Mul, Bits(a), k)
  {
    hide Mul, G.Mul, Bits;
    if k > 0 {
      BitsOfSquareTimes(a, k - 1);
      var s := Monoids.SquareTimes(Mul, a, k - 1);
      BitsOfMul(s, s);
    }
  }

  lemma {:induction false} BitsOfSquareProduct(a: byte, k: nat)
    ensures Bits(Monoids.SquareProduct(Mul, 1, a, k)) == Monoids.SquareProduct(G.Mul, G.ONE, Bits(a), k)
  {
    hide Mul, G.Mul, Bits;
    if k > 0 {
      BitsOfSquareProduct(a, k - 1);
      BitsOfSquareTimes(a, k);
      BitsOfMul(Monoids.SquareProduct(Mul, 1, a, k - 1), Monoids.SquareTimes(Mul, a, k));
    } else {
      BitsOfShift(1);
    }
  }

  lemma MulInverse(a: byte)
    requires a != 0
    ensures Mul(a, Inv(a)) == 1
  {
    BitsOfShift(0);
    if Bits(a) == G.ZERO {
      BitsInjective(a, 0);
    }
    G.FermatInverse(Bits(a));
    BitsOfSquareProduct(a, 7);
    BitsRoundTrip(1);
  }

  lemma GfLawsAt(a: byte, b: byte, c: byte)
    ensures Laws(GF, a, b, c)
  {
    XorLaws(a, b, c);
    MulCommutes(a, b);
    MulAssociates(a, b, c);
    MulOne(a);
    MulDistributes(a, b, c);
    if a != 0 {
      MulInverse(a);
    }
  }

  /** Bytes under XOR and the source's product are a field of characteristic two. */
  lemma GfIsField()
    ensures IsField(GF)
  {
    forall a, b, c ensures Laws(GF, a, b, c) {
      GfLawsAt(a, b, c);
    }
  }

  // ----- the source's loops -----

  function ShiftReduce(a: byte): byte {
    if a & 0x80 != 0 then (a << 1) ^ 0x1b else a << 1
  }

  /** The accumulator after `n` more rounds of the shift-and-XOR loop. */
  function MulRounds(p: byte, a: byte, b: byte, n: nat): byte
    decreases n, p, a, b
  {
    if n == 0 then p
    else MulRounds(if b & 1 != 0 then p ^ a else p, ShiftReduce(a), b >> 1, n - 1)
  }

  lemma MulStepSum(p: G.Elem, a: G.Elem, b: G.Elem, n: nat)
    ensures G.Add(p, G.MulSteps(a, b, n + 1))
         == G.Add(if b.b0 then G.Add(p, a) else p, G.MulSteps(G.TimesX(a), G.DropX(b), n))
  {
    var rest := G.MulSteps(G.TimesX(a), G.DropX(b), n);
    G.AddAssociates(p, G.Pick(b.b0, a), rest);
    G.AddLaws(p);
  }

  lemma {:induction false} MulRoundsSum(p: byte, a: byte, b: byte, n: nat)
    ensures Bits(MulRounds(p, a, b, n)) == G.Add(Bits(p), G.MulSteps(Bits(a), Bits(b), n))
    decreases n
  {
    hide Bits, G.Add, G.TimesX, G.DropX;
    G.AddLaws(Bits(p));
    if n > 0 {
      MulRoundsSum(if b & 1 != 0 then p ^ a else p, ShiftReduce(a), b >> 1, n - 1);
      BitsOfShift(a);
      BitsOfShift(b);
      BitsOfXor(p, a);
      MulStepSum(Bits(p), Bits(a), Bits(b), n - 1);
    }
  }

  /** Eight rounds of the loop multiply polynomials modulo the reduction polynomial. */
  lemma MulRoundsMultiply(a: byte, b: byte)
    ensures MulRounds(0, a, b, 8) == Mul(a, b)
  {
    MulRoundsSum(0, a, b, 8);
    BitsOfShift(0);
    G.AddLaws(G.Mul(Bits(a), Bits(b)));
    BitsRoundTrip(MulRounds(0, a, b, 8));
  }

  /** recovery.go:110-124 */
  method GfMul(a0: byte, b0: byte) returns (p: byte)
    ensures p == Mul(a0, b0)
  {
    p := GfMulLoop(a0, b0);
    MulRoundsMultiply(a0, b0);
  }

  method GfMulLoop(a0: byte, b0: byte) returns (p: byte)
    ensures p == MulRounds(0, a0, b0, 8)
  {
    var a, b := a0, b0;
    p := 0;
    for i := 0 to 8
      invariant MulRounds(p, a, b, 8 - i) == MulRounds(0, a0, b0, 8)
    {
      if b & 1 != 0 {
        p := p ^ a;
      }
      var hi := a & 0x80;
      a := a << 1;
      if hi != 0 {
        a := a ^ 0x1b;
      }
      b := b >> 1;
    }
  }

  /** The exponent after `k` halvings of 254. */
  function Exponent(k: nat): byte {
    if k <= 8 then [254, 127, 63, 31, 15, 7, 3, 1, 0][k] else 0
  }

  lemma ExponentHalves(k: nat)
    requires k < 8
    ensures Exponent(k) > 0
    ensures Exponent(k) >> 1 == Exponent(k + 1)
    ensures Exponent(k) & 1 != 0 <==> k > 0
  {}

  /** recovery.go:134-148 */
  method GfInv(a0: byte) returns (result: byte)
    ensures result == Inv(a0)
  {
    hide Mul;
    if a0 == 0 {
      return 0;
    }
    var a := a0;
    result := 1;
    var exp: byte := 254;
    ghost var k := 0;
    while exp > 0
      invariant k <= 8 && exp == Exponent(k)
      invariant a == Monoids.SquareTimes(Mul, a0, k)
      invariant result == Monoids.SquareProduct(Mul, 1, a0, if k == 0 then 0 else k - 1)
      decreases 8 - k
    {
      Monoids.SquareTimesUnfold(Mul, 1, a0, k);
      ExponentHalves(k);
      if exp & 1 != 0 {
        result := GfMul(result, a);
      }
      a := GfMul(a, a);
      exp := exp >> 1;
      k := k + 1;
    }
  }
}
