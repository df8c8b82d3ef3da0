/** Bytes, big-endian integers and XOR, as the Go and Rust sources use them. */
module Bytes {

  type byte = bv8

  /** A string as the bytes it is stored in. */
  type Text = seq<byte>

  function Ascii(s: string): (t: Text)
    ensures |t| == |s|
  {
    seq(|s|, i requires 0 <= i < |s| => ((s[i] as int) % 256) as byte)
  }

  lemma Successor(b: byte)
    requires b as int < 255
    ensures (b + 1) as int == b as int + 1
  {}

  lemma Converted(k: int, b: byte)
    requires 0 <= k < 256 && b as int == k
    ensures k as byte == b
  {}

  lemma {:induction false} ByteFor(k: int) returns (b: byte)
    requires 0 <= k < 256
    ensures b as int == k
  {
    if k == 0 {
      b := 0;
    } else {
      var c := ByteFor(k - 1);
      Successor(c);
      b := c + 1;
    }
  }

  lemma ByteOfInt(k: int)
    requires 0 <= k < 256
    ensures (k as byte) as int == k
  {
    var b := ByteFor(k);
    Converted(k, b);
  }

  lemma IntOfByte(b: byte)
    ensures (b as int) as byte == b
  {}

  // ----- big-endian integers -----

  function Power256(k: nat): (p: nat)
    ensures p > 0
  {
    if k == 0 then 1 else 256 * Power256(k - 1)
  }

  /** The low `k` bytes of `n`, most significant first. */
  function BigEndian(n: nat, k: nat): (r: seq<byte>)
    ensures |r| == k
  {
    if k == 0 then [] else BigEndian(n / 256, k - 1) + [(n % 256) as byte]
  }

  function FromBigEndian(bs: seq<byte>): nat {
    if |bs| == 0 then 0 else 256 * FromBigEndian(bs[..|bs| - 1]) + bs[|bs| - 1] as int
  }

  lemma {:induction false} BigEndianRoundTrip(n: nat, k: nat)
    requires n < Power256(k)
    ensures FromBigEndian(BigEndian(n, k)) == n
  {
    if k > 0 {
      BigEndianRoundTrip(n / 256, k - 1);
      ByteOfInt(n % 256);
      assert BigEndian(n, k)[..k - 1] == BigEndian(n / 256, k - 1);
    }
  }

  /** The byte at distance j from the end is the j-th digit to base 256. */
  lemma {:induction false} BigEndianDigit(n: nat, k: nat, j: nat)
    requires j < k
    ensures BigEndian(n, k)[k - 1 - j] as int == (n / Power256(j)) % 256
    decreases k
  {
    if j == 0 {
      ByteOfInt(n % 256);
    } else {
      BigEndianDigit(n / 256, k - 1, j - 1);
      assert BigEndian(n, k)[..k - 1] == BigEndian(n / 256, k - 1);
      assert BigEndian(n, k)[k - 1 - j] == BigEndian(n / 256, k - 1)[k - 1 - j];
      DivideTwice(n, Power256(j - 1));
    }
  }

  lemma DivideTwice(n: nat, d: nat)
    requires d > 0
    ensures n / 256 / d == n / (256 * d)
  {
    var q := n / (256 * d);
    var r := n % (256 * d);
    assert n == 256 * (d * q) + r;
    assert n / 256 == d * q + r / 256;
    assert 0 <= r / 256 < d;
    QuotientIs(n / 256, d, q, r / 256);
  }

  lemma QuotientIs(x: int, d: int, q: int, r: int)
    requires 0 <= r < d && x == d * q + r
    ensures x / d == q && x % d == r
  {
    var e := q - x / d;
    assert d * e == d * q - d * (x / d) == x % d - r;
    MultiplesApart(d, e);
  }

  lemma MultiplesApart(d: int, e: int)
    requires d > 0
    ensures e > 0 ==> d * e >= d
    ensures e < 0 ==> d * e <= -d
  {
    if e > 0 {
      assert d * (e - 1) >= 0;
    } else if e < 0 {
      assert d * (-e - 1) >= 0;
    }
  }

  // ----- XOR -----

  function XorBytes(x: seq<byte>, y: seq<byte>): (r: seq<byte>)
    requires |x| == |y|
    ensures |r| == |x|
  {
    seq(|x|, i requires 0 <= i < |x| => x[i] ^ y[i])
  }

  lemma XorTwice(a: byte, b: byte)
    ensures (a ^ b) ^ b == a
  {}

  lemma XorBytesTwice(x: seq<byte>, y: seq<byte>)
    requires |x| == |y|
    ensures XorBytes(XorBytes(x, y), y) == x
  {
    forall i | 0 <= i < |x| ensures XorBytes(XorBytes(x, y), y)[i] == x[i] {
      XorTwice(x[i], y[i]);
    }
  }

  // ----- copying into a buffer -----

  function Overwrite(s: seq<byte>, at: nat, src: seq<byte>): (r: seq<byte>)
    requires at + |src| <= |s|
    ensures |r| == |s|
  {
    s[..at] + src + s[at + |src|..]
  }

  method Copy(dst: array<byte>, at: nat, src: seq<byte>)
    requires at + |src| <= dst.Length
    modifies dst
    ensures dst[..] == Overwrite(old(dst[..]), at, src)
  {
    for i := 0 to |src|
      invariant forall k :: 0 <= k < i ==> dst[at + k] == src[k]
      invariant forall k :: 0 <= k < dst.Length && !(at <= k < at + i) ==> dst[k] == old(dst[k])
    {
      dst[at + i] := src[i];
    }
    ghost var was := old(dst[..]);
    assert dst[..at] == was[..at] && dst[at + |src|..] == was[at + |src|..];
    assert dst[at..at + |src|] == src;
    assert dst[..] == dst[..at] + dst[at..at + |src|] + dst[at + |src|..];
  }
}
