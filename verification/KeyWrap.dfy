/** AES key wrap, sections 2.2.1 and 2.2.2 of RFC 3394, as
    services/identity/pkg/didcomm/didcomm.go:413-474 runs it, over any block cipher. */
module KeyWrap {

  import opened Bytes
  import opened Wrappers

  /** A 128-bit block cipher: key and block to block. */
  datatype Cipher = Cipher(enc: (seq<byte>, seq<byte>) -> seq<byte>, dec: (seq<byte>, seq<byte>) -> seq<byte>)

  /** Under each key, encryption and decryption are inverse permutations of the blocks. */
  ghost predicate IsBlockCipher(c: Cipher) {
    forall k, b {:trigger c.enc(k, b)} {:trigger c.dec(k, b)} :: |b| == 16 ==>
      && |c.enc(k, b)| == 16 && |c.dec(k, b)| == 16
      && c.dec(k, c.enc(k, b)) == b
      && c.enc(k, c.dec(k, b)) == b
  }

  datatype Error = BadPlaintextLength | BadCiphertextLength | BadKeyLength | IntegrityCheckFailed

  /** The integrity register and the message register. */
  datatype Registers = Registers(a: seq<byte>, r: seq<byte>)

  predicate Shaped(s: Registers, n: nat) {
    |s.a| == 8 && |s.r| == 8 * n
  }

  const DEFAULT_IV: seq<byte> := [0xA6, 0xA6, 0xA6, 0xA6, 0xA6, 0xA6, 0xA6, 0xA6]

  predicate ValidKey(kek: seq<byte>) {
    |kek| == 16 || |kek| == 24 || |kek| == 32
  }

  predicate ValidPlaintext(p: seq<byte>) {
    |p| >= 16 && |p| % 8 == 0
  }

  predicate ValidCiphertext(c: seq<byte>) {
    |c| >= 24 && |c| % 8 == 0
  }

  // ----- one step and its inverse -----

  ghost function WrapStep(c: Cipher, kek: seq<byte>, s: Registers, n: nat, i: nat, t: nat): (s': Registers)
    requires IsBlockCipher(c) && Shaped(s, n) && i < n
    ensures Shaped(s', n)
  {
    var buf := c.enc(kek, s.a + s.r[8 * i..8 * i + 8]);
    Registers(XorBytes(buf[..8], BigEndian(t, 8)), Overwrite(s.r, 8 * i, buf[8..]))
  }

  ghost function UnwrapStep(c: Cipher, kek: seq<byte>, s: Registers, n: nat, i: nat, t: nat): (s': Registers)
    requires IsBlockCipher(c) && Shaped(s, n) && i < n
    ensures Shaped(s', n)
  {
    var buf := c.dec(kek, XorBytes(s.a, BigEndian(t, 8)) + s.r[8 * i..8 * i + 8]);
    Registers(buf[..8], Overwrite(s.r, 8 * i, buf[8..]))
  }

  /** Overwriting can be read back and undone. */
  lemma OverwriteBack(s: seq<byte>, at: nat, src: seq<byte>)
    requires at + |src| <= |s|
    ensures var s' := Overwrite(s, at, src);
      s'[at..at + |src|] == src && Overwrite(s', at, s[at..at + |src|]) == s
  {
    var s' := Overwrite(s, at, src);
    assert s'[..at] == s[..at] && s'[at + |src|..] == s[at + |src|..];
    assert s == s[..at] + s[at..at + |src|] + s[at + |src|..];
  }

  lemma UnwrapStepUndoes(c: Cipher, kek: seq<byte>, s: Registers, n: nat, i: nat, t: nat)
    requires IsBlockCipher(c) && Shaped(s, n) && i < n
    ensures UnwrapStep(c, kek, WrapStep(c, kek, s, n, i, t), n, i, t) == s
  {
    hide BigEndian, XorBytes, Overwrite;
    var block := s.a + s.r[8 * i..8 * i + 8];
    var buf := c.enc(kek, block);
    XorBytesTwice(buf[..8], BigEndian(t, 8));
    OverwriteBack(s.r, 8 * i, buf[8..]);
    assert buf[..8] + buf[8..] == buf;
    assert block[..8] == s.a && block[8..] == s.r[8 * i..8 * i + 8];
  }

  lemma WrapStepUndoes(c: Cipher, kek: seq<byte>, s: Registers, n: nat, i: nat, t: nat)
    requires IsBlockCipher(c) && Shaped(s, n) && i < n
    ensures WrapStep(c, kek, UnwrapStep(c, kek, s, n, i, t), n, i, t) == s
  {
    hide BigEndian, XorBytes, Overwrite;
    var masked := XorBytes(s.a, BigEndian(t, 8));
    var block := masked + s.r[8 * i..8 * i + 8];
    var buf := c.dec(kek, block);
    XorBytesTwice(s.a, BigEndian(t, 8));
    OverwriteBack(s.r, 8 * i, buf[8..]);
    assert buf[..8] + buf[8..] == buf;
    assert block[..8] == masked && block[8..] == s.r[8 * i..8 * i + 8];
  }

  // ----- passes over the message: step i of pass j uses the counter n * j + i -----

  function Counter(n: nat, j: nat, i: nat): nat {
    n * j + i
  }

  ghost function WrapPass(c: Cipher, kek: seq<byte>, s: Registers, n: nat, j: nat, i: nat): (s': Registers)
    requires IsBlockCipher(c) && Shaped(s, n) && i <= n
    ensures Shaped(s', n)
    decreases j, i
  {
    if i > 0 then WrapStep(c, kek, WrapPass(c, kek, s, n, j, i - 1), n, i - 1, Counter(n, j, i))
    else if j > 0 then WrapPass(c, kek, s, n, j - 1, n)
    else s
  }

  ghost function UnwrapPass(c: Cipher, kek: seq<byte>, s: Registers, n: nat, j: nat, i: nat): (s': Registers)
    requires IsBlockCipher(c) && Shaped(s, n) && i <= n
    ensures Shaped(s', n)
    decreases j, i
  {
    if i > 0 then UnwrapPass(c, kek, UnwrapStep(c, kek, s, n, i - 1, Counter(n, j, i)), n, j, i - 1)
    else if j > 0 then UnwrapPass(c, kek, s, n, j - 1, n)
    else s
  }

  lemma {:induction false} UnwrapPassUndoes(c: Cipher, kek: seq<byte>, s: Registers, n: nat, j: nat, i: nat)
    requires IsBlockCipher(c) && Shaped(s, n) && i <= n
    ensures UnwrapPass(c, kek, WrapPass(c, kek, s, n, j, i), n, j, i) == s
    decreases j, i
  {
    hide WrapStep, UnwrapStep;
    if i > 0 {
      UnwrapStepUndoes(c, kek, WrapPass(c, kek, s, n, j, i - 1), n, i - 1, Counter(n, j, i));
      UnwrapPassUndoes(c, kek, s, n, j, i - 1);
    } else if j > 0 {
      UnwrapPassUndoes(c, kek, s, n, j - 1, n);
    }
  }

  lemma {:induction false} WrapPassUndoes(c: Cipher, kek: seq<byte>, s: Registers, n: nat, j: nat, i: nat)
    requires IsBlockCipher(c) && Shaped(s, n) && i <= n
    ensures WrapPass(c, kek, UnwrapPass(c, kek, s, n, j, i), n, j, i) == s
    decreases j, i
  {
    hide WrapStep, UnwrapStep;
    if i > 0 {
      WrapPassUndoes(c, kek, UnwrapStep(c, kek, s, n, i - 1, Counter(n, j, i)), n, j, i - 1);
      WrapStepUndoes(c, kek, s, n, i - 1, Counter(n, j, i));
    } else if j > 0 {
      WrapPassUndoes(c, kek, s, n, j - 1, n);
    }
  }

  // ----- wrap and unwrap -----

  ghost function Wrapped(c: Cipher, kek: seq<byte>, p: seq<byte>): (w: seq<byte>)
    requires IsBlockCipher(c) && ValidPlaintext(p)
    ensures |w| == |p| + 8
  {
    var n := |p| / 8;
    var s := WrapPass(c, kek, Registers(DEFAULT_IV, p), n, 5, n);
    s.a + s.r
  }

  ghost function Wrap(c: Cipher, kek: seq<byte>, p: seq<byte>): Result<seq<byte>, Error>
    requires IsBlockCipher(c)
  {
    if !ValidPlaintext(p) then Err(BadPlaintextLength)
    else if !ValidKey(kek) then Err(BadKeyLength)
    else Ok(Wrapped(c, kek, p))
  }

  ghost function Unwrapped(c: Cipher, kek: seq<byte>, w: seq<byte>): (s: Registers)
    requires IsBlockCipher(c) && ValidCiphertext(w)
    ensures |s.a| == 8 && |s.r| == |w| - 8
  {
    var n := |w| / 8 - 1;
    UnwrapPass(c, kek, Registers(w[..8], w[8..]), n, 5, n)
  }

  ghost function Unwrap(c: Cipher, kek: seq<byte>, w: seq<byte>): Result<seq<byte>, Error>
    requires IsBlockCipher(c)
  {
    if !ValidCiphertext(w) then Err(BadCiphertextLength)
    else if !ValidKey(kek) then Err(BadKeyLength)
    else if Unwrapped(c, kek, w).a != DEFAULT_IV then Err(IntegrityCheckFailed)
    else Ok(Unwrapped(c, kek, w).r)
  }

  /** Unwrapping undoes wrapping. */
  lemma UnwrapUndoesWrap(c: Cipher, kek: seq<byte>, p: seq<byte>)
    requires IsBlockCipher(c) && ValidPlaintext(p) && ValidKey(kek)
    ensures Wrap(c, kek, p).Ok?
    ensures Unwrap(c, kek, Wrap(c, kek, p).value) == Ok(p)
  {
    hide WrapPass, UnwrapPass;
    var n := |p| / 8;
    var s := WrapPass(c, kek, Registers(DEFAULT_IV, p), n, 5, n);
    var w := Wrapped(c, kek, p);
    assert w[..8] == s.a && w[8..] == s.r;
    UnwrapPassUndoes(c, kek, Registers(DEFAULT_IV, p), n, 5, n);
  }

  /** Whatever unwraps was wrapped: acceptance leaves no second ciphertext for a plaintext. */
  lemma WrapUndoesUnwrap(c: Cipher, kek: seq<byte>, w: seq<byte>, p: seq<byte>)
    requires IsBlockCipher(c) && Unwrap(c, kek, w) == Ok(p)
    ensures Wrap(c, kek, p) == Ok(w)
  {
    hide WrapPass, UnwrapPass;
    var n := |w| / 8 - 1;
    WrapPassUndoes(c, kek, Registers(w[..8], w[8..]), n, 5, n);
    assert w == w[..8] + w[8..];
  }

  /** Unwrap accepts exactly the images of wrap. */
  lemma UnwrapAcceptsExactly(c: Cipher, kek: seq<byte>, w: seq<byte>, p: seq<byte>)
    requires IsBlockCipher(c)
    ensures Unwrap(c, kek, w) == Ok(p) <==> Wrap(c, kek, p) == Ok(w)
  {
    if Unwrap(c, kek, w) == Ok(p) {
      WrapUndoesUnwrap(c, kek, w, p);
    }
    if Wrap(c, kek, p) == Ok(w) {
      UnwrapUndoesWrap(c, kek, p);
    }
  }

  // ----- the wrapping process step by step, as section 2.2.1 of RFC 3394 indexes it -----

  /** The i-th 64-bit block of the message register. */
  function Block(r: seq<byte>, i: nat): seq<byte>
    requires 8 * (i + 1) <= |r|
  {
    r[8 * i..8 * i + 8]
  }

  /** Step t: the block after A is number (t - 1) mod n; A takes the upper half of the encryption, with t
      added, the block takes the lower half, and every other block stays. */
  ghost predicate IsStep(c: Cipher, kek: seq<byte>, n: nat, t: nat, s: Registers, s': Registers)
    requires n > 0 && t > 0
  {
    && Shaped(s, n) && Shaped(s', n)
    && var i := (t - 1) % n;
    && var b := c.enc(kek, s.a + Block(s.r, i));
    && |b| == 16
    && s'.a == XorBytes(b[..8], BigEndian(t, 8))
    && Block(s'.r, i) == b[8..]
    && forall k :: 0 <= k < n && k != i ==> Block(s'.r, k) == Block(s.r, k)
  }

  /** All 6n steps from the initial value, eight bytes A6, and the plaintext, to the ciphertext. */
  ghost predicate IsTrace(c: Cipher, kek: seq<byte>, p: seq<byte>, w: seq<byte>, states: seq<Registers>) {
    && var n := |p| / 8;
    && n > 0 && |p| == 8 * n && |states| == 6 * n + 1
    && |states[0].a| == 8 && (forall i :: 0 <= i < 8 ==> states[0].a[i] == 0xA6) && states[0].r == p
    && (forall t :: 1 <= t <= 6 * n ==> IsStep(c, kek, n, t, states[t - 1], states[t]))
    && w == states[6 * n].a + states[6 * n].r
  }

  lemma BlocksEqual(r: seq<byte>, r': seq<byte>, n: nat)
    requires |r| == |r'| == 8 * n
    requires forall k :: 0 <= k < n ==> Block(r, k) == Block(r', k)
    ensures r == r'
  {
    forall x | 0 <= x < 8 * n ensures r[x] == r'[x] {
      var k := x / 8;
      assert r[x] == Block(r, k)[x - 8 * k] && r'[x] == Block(r', k)[x - 8 * k];
    }
  }

  lemma OverwrittenBlock(r: seq<byte>, n: nat, i: nat, src: seq<byte>, k: nat)
    requires |r| == 8 * n && i < n && k < n && |src| == 8
    ensures Block(Overwrite(r, 8 * i, src), k) == if k == i then src else Block(r, k)
  {
    var r' := Overwrite(r, 8 * i, src);
    assert forall x :: 0 <= x < 8 * n ==> r'[x] == if 8 * i <= x < 8 * i + 8 then src[x - 8 * i] else r[x];
  }

  /** The step relation is the step function. */
  lemma StepIsWrapStep(c: Cipher, kek: seq<byte>, n: nat, t: nat, s: Registers, s': Registers)
    requires IsBlockCipher(c) && n > 0 && t > 0 && Shaped(s, n)
    ensures IsStep(c, kek, n, t, s, s') <==> s' == WrapStep(c, kek, s, n, (t - 1) % n, t)
  {
    hide BigEndian, XorBytes, Overwrite;
    var i := (t - 1) % n;
    var s'' := WrapStep(c, kek, s, n, i, t);
    var b := c.enc(kek, s.a + Block(s.r, i));
    forall k | 0 <= k < n ensures Block(s''.r, k) == if k == i then b[8..] else Block(s.r, k) {
      OverwrittenBlock(s.r, n, i, b[8..], k);
    }
    if IsStep(c, kek, n, t, s, s') {
      BlocksEqual(s'.r, s''.r, n);
    }
  }

  /** After t steps: pass (t - 1) / n, block (t - 1) mod n. */
  ghost function After(c: Cipher, kek: seq<byte>, s: Registers, n: nat, t: nat): (s': Registers)
    requires IsBlockCipher(c) && Shaped(s, n) && n > 0
    ensures Shaped(s', n)
  {
    if t == 0 then s else WrapStep(c, kek, After(c, kek, s, n, t - 1), n, (t - 1) % n, t)
  }

  lemma StepPosition(n: nat, j: nat, i: nat)
    requires 0 < i <= n
    ensures (Counter(n, j, i) - 1) % n == i - 1
  {
    QuotientIs(Counter(n, j, i) - 1, n, j, i - 1);
  }

  lemma {:induction false} PassIsAfter(c: Cipher, kek: seq<byte>, s: Registers, n: nat, j: nat, i: nat)
    requires IsBlockCipher(c) && Shaped(s, n) && n > 0 && i <= n
    ensures WrapPass(c, kek, s, n, j, i) == After(c, kek, s, n, Counter(n, j, i))
    decreases j, i
  {
    hide WrapStep, IsBlockCipher;
    if i > 0 {
      StepPosition(n, j, i);
      PassIsAfter(c, kek, s, n, j, i - 1);
      assert Counter(n, j, i) - 1 == Counter(n, j, i - 1);
    } else if j > 0 {
      PassIsAfter(c, kek, s, n, j - 1, n);
      assert Counter(n, j, 0) == Counter(n, j - 1, n);
    }
  }

  lemma {:induction false} TraceIsAfter(c: Cipher, kek: seq<byte>, p: seq<byte>, w: seq<byte>, states: seq<Registers>,
                                        t: nat)
    requires IsBlockCipher(c) && IsTrace(c, kek, p, w, states) && t < |states|
    ensures Shaped(Registers(DEFAULT_IV, p), |p| / 8)
    ensures states[t] == After(c, kek, Registers(DEFAULT_IV, p), |p| / 8, t)
    decreases t
  {
    hide WrapStep, IsBlockCipher, IsStep;
    if t > 0 {
      TraceIsAfter(c, kek, p, w, states, t - 1);
      StepIsWrapStep(c, kek, |p| / 8, t, states[t - 1], states[t]);
    } else {
      assert states[0].a == DEFAULT_IV;
    }
  }

  ghost function Trace(c: Cipher, kek: seq<byte>, p: seq<byte>): (states: seq<Registers>)
    requires IsBlockCipher(c) && ValidPlaintext(p)
    ensures |states| == 6 * (|p| / 8) + 1
  {
    var n := |p| / 8;
    seq(6 * n + 1, t requires 0 <= t < 6 * n + 1 => After(c, kek, Registers(DEFAULT_IV, p), n, t))
  }

  lemma WrappedIsAfter(c: Cipher, kek: seq<byte>, p: seq<byte>)
    requires IsBlockCipher(c) && ValidPlaintext(p)
    ensures var s := After(c, kek, Registers(DEFAULT_IV, p), |p| / 8, 6 * (|p| / 8)); Wrapped(c, kek, p) == s.a + s.r
  {
    hide WrapPass, After, IsBlockCipher;
    var n := |p| / 8;
    PassIsAfter(c, kek, Registers(DEFAULT_IV, p), n, 5, n);
    assert Counter(n, 5, n) == 6 * n;
  }

  lemma TraceExists(c: Cipher, kek: seq<byte>, p: seq<byte>)
    requires IsBlockCipher(c) && ValidPlaintext(p)
    ensures IsTrace(c, kek, p, Wrapped(c, kek, p), Trace(c, kek, p))
  {
    hide WrapStep, IsBlockCipher, IsStep, Wrapped;
    var n, states := |p| / 8, Trace(c, kek, p);
    WrappedIsAfter(c, kek, p);
    forall t | 1 <= t <= 6 * n ensures IsStep(c, kek, n, t, states[t - 1], states[t]) {
      StepIsWrapStep(c, kek, n, t, states[t - 1], states[t]);
    }
  }

  /** Wrapping yields w if and only if the 6n steps of the standard lead from the plaintext to w. */
  lemma WrapFollowsStandard(c: Cipher, kek: seq<byte>, p: seq<byte>, w: seq<byte>)
    requires IsBlockCipher(c)
    ensures Wrap(c, kek, p) == Ok(w)
       <==> ValidPlaintext(p) && ValidKey(kek) && exists states :: IsTrace(c, kek, p, w, states)
  {
    hide IsBlockCipher, IsTrace, Wrapped;
    if ValidPlaintext(p) && ValidKey(kek) {
      TraceExists(c, kek, p);
      if states :| IsTrace(c, kek, p, w, states) {
        OneTrace(c, kek, p, w, states);
      }
    }
  }

  lemma OneTrace(c: Cipher, kek: seq<byte>, p: seq<byte>, w: seq<byte>, states: seq<Registers>)
    requires IsBlockCipher(c) && ValidPlaintext(p) && IsTrace(c, kek, p, w, states)
    ensures w == Wrapped(c, kek, p)
  {
    hide IsBlockCipher, IsStep, Wrapped, After;
    TraceIsAfter(c, kek, p, w, states, 6 * (|p| / 8));
    WrappedIsAfter(c, kek, p);
  }

  // ----- a check value: the cipher that does nothing -----

  /** a with the counters 1 to t added. */
  function CountedXor(a: seq<byte>, t: nat): (r: seq<byte>)
    requires |a| == 8
    ensures |r| == 8
  {
    if t == 0 then a else XorBytes(CountedXor(a, t - 1), BigEndian(t, 8))
  }

  lemma {:induction false} IdentityAfter(c: Cipher, kek: seq<byte>, s: Registers, n: nat, t: nat)
    requires IsBlockCipher(c) && Shaped(s, n) && n > 0 && forall b :: c.enc(kek, b) == b
    ensures After(c, kek, s, n, t) == Registers(CountedXor(s.a, t), s.r)
  {
    hide BigEndian, XorBytes, IsBlockCipher;
    if t > 0 {
      IdentityAfter(c, kek, s, n, t - 1);
      var a, i := CountedXor(s.a, t - 1), (t - 1) % n;
      var buf := a + Block(s.r, i);
      assert buf[..8] == a && buf[8..] == Block(s.r, i);
      OverwriteSelf(s.r, 8 * i, 8);
    }
  }

  lemma OverwriteSelf(s: seq<byte>, at: nat, len: nat)
    requires at + len <= |s|
    ensures Overwrite(s, at, s[at..at + len]) == s
  {
  }

  /** Under the identity cipher the plaintext comes through unchanged behind the eight bytes A6 with all
      counters from 1 to 6n added. */
  lemma IdentityWrap(c: Cipher, kek: seq<byte>, p: seq<byte>)
    requires IsBlockCipher(c) && ValidPlaintext(p) && ValidKey(kek) && forall b :: c.enc(kek, b) == b
    ensures Wrap(c, kek, p) == Ok(CountedXor([0xA6, 0xA6, 0xA6, 0xA6, 0xA6, 0xA6, 0xA6, 0xA6], 6 * (|p| / 8)) + p)
  {
    hide IsBlockCipher, Wrapped, After, CountedXor;
    WrappedIsAfter(c, kek, p);
    IdentityAfter(c, kek, Registers(DEFAULT_IV, p), |p| / 8, 6 * (|p| / 8));
  }

  // ----- the loops -----

  /** didcomm.go:417-444 */
  method AesKeyWrap(c: Cipher, kek: seq<byte>, plaintext: seq<byte>) returns (result: Result<seq<byte>, Error>)
    requires IsBlockCipher(c)
    ensures result == Wrap(c, kek, plaintext)
  {
    hide WrapStep;
    if |plaintext| < 16 || |plaintext| % 8 != 0 {
      return Err(BadPlaintextLength);
    }
    if |kek| != 16 && |kek| != 24 && |kek| != 32 {
      return Err(BadKeyLength);
    }
    var n := |plaintext| / 8;
    var R := new byte[|plaintext|](i requires 0 <= i < |plaintext| => plaintext[i]);
    var A := new byte[8](i requires 0 <= i < 8 => DEFAULT_IV[i]);
    var buf := new byte[16](_ => 0);
    ghost var start := Registers(DEFAULT_IV, plaintext);
    assert A[..] == DEFAULT_IV && R[..] == plaintext;
    for j := 0 to 6
      invariant Registers(A[..], R[..]) == WrapPass(c, kek, start, n, j, 0)
    {
      for i := 0 to n
        invariant Registers(A[..], R[..]) == WrapPass(c, kek, start, n, j, i)
      {
        WrapRound(c, kek, A, R, buf, n, i, Counter(n, j, i + 1));
      }
    }
    result := Ok(A[..] + R[..]);
  }

  method LoadBlock(buf: array<byte>, a: seq<byte>, r: seq<byte>)
    requires buf.Length == 16 && |a| == 8 && |r| == 8
    modifies buf
    ensures buf[..] == a + r
  {
    Copy(buf, 0, a);
    Copy(buf, 8, r);
  }

  method StoreAll(dst: array<byte>, src: seq<byte>)
    requires dst.Length == |src|
    modifies dst
    ensures dst[..] == src
  {
    Copy(dst, 0, src);
  }

  /** didcomm.go:432-437 */
  method WrapRound(c: Cipher, kek: seq<byte>, A: array<byte>, R: array<byte>, buf: array<byte>, n: nat, i: nat, t: nat)
    requires IsBlockCipher(c)
    requires A.Length == 8 && R.Length == 8 * n && buf.Length == 16 && i < n
    requires A != R && A != buf && R != buf
    modifies A, R, buf
    ensures Registers(A[..], R[..]) == WrapStep(c, kek, old(Registers(A[..], R[..])), n, i, t)
  {
    hide Overwrite, XorBytes, BigEndian;
    LoadBlock(buf, A[..], R[8 * i..8 * i + 8]);
    assert old(R[..])[8 * i..8 * i + 8] == old(R[8 * i..8 * i + 8]);
    ghost var block := c.enc(kek, buf[..]);
    StoreAll(buf, c.enc(kek, buf[..]));
    assert buf[..8] == block[..8] && buf[8..] == block[8..];
    StoreAll(A, XorBytes(buf[..8], BigEndian(t, 8)));
    Copy(R, 8 * i, buf[8..]);
  }

  /** didcomm.go:446-474 */
  method AesKeyUnwrap(c: Cipher, kek: seq<byte>, ciphertext: seq<byte>) returns (result: Result<seq<byte>, Error>)
    requires IsBlockCipher(c)
    ensures result == Unwrap(c, kek, ciphertext)
  {
    hide UnwrapStep;
    if |ciphertext| < 24 || |ciphertext| % 8 != 0 {
      return Err(BadCiphertextLength);
    }
    if |kek| != 16 && |kek| != 24 && |kek| != 32 {
      return Err(BadKeyLength);
    }
    var n := |ciphertext| / 8 - 1;
    var R := new byte[n * 8](i requires 0 <= i < n * 8 => ciphertext[8 + i]);
    var A := new byte[8](i requires 0 <= i < 8 => ciphertext[i]);
    var buf := new byte[16](_ => 0);
    assert A[..] == ciphertext[..8] && R[..] == ciphertext[8..];
    ghost var goal := Unwrapped(c, kek, ciphertext);
    var j := 5;
    while j >= 0
      invariant -1 <= j <= 5
      invariant UnwrapPass(c, kek, Registers(A[..], R[..]), n, j + 1, 0) == goal
    {
      var i := n - 1;
      while i >= 0
        invariant -1 <= i < n
        invariant UnwrapPass(c, kek, Registers(A[..], R[..]), n, j, i + 1) == goal
      {
        UnwrapRound(c, kek, A, R, buf, n, i, Counter(n, j, i + 1));
        i := i - 1;
      }
      j := j - 1;
    }
    if A[..] != DEFAULT_IV {
      return Err(IntegrityCheckFailed);
    }
    result := Ok(R[..]);
  }

  /** didcomm.go:462-467 */
  method UnwrapRound(c: Cipher, kek: seq<byte>, A: array<byte>, R: array<byte>, buf: array<byte>, n: nat, i: nat,
                     t: nat)
    requires IsBlockCipher(c)
    requires A.Length == 8 && R.Length == 8 * n && buf.Length == 16 && i < n
    requires A != R && A != buf && R != buf
    modifies A, R, buf
    ensures Registers(A[..], R[..]) == UnwrapStep(c, kek, old(Registers(A[..], R[..])), n, i, t)
  {
    hide Overwrite, XorBytes, BigEndian;
    LoadBlock(buf, XorBytes(A[..], BigEndian(t, 8)), R[8 * i..8 * i + 8]);
    assert old(R[..])[8 * i..8 * i + 8] == old(R[8 * i..8 * i + 8]);
    ghost var block := c.dec(kek, buf[..]);
    StoreAll(buf, c.dec(kek, buf[..]));
    assert buf[..8] == block[..8] && buf[8..] == block[8..];
    StoreAll(A, buf[..8]);
    Copy(R, 8 * i, buf[8..]);
  }
}
