/** M-of-N secret sharing (services/identity/pkg/recovery/recovery.go). */
module Shamir {

  import opened Bytes
  import opened Wrappers
  import opened Fields
  import opened Polynomials
  import opened GfBytes

  /** One guardian's share: the secret's polynomials, one per byte, at `index`. */
  datatype Share = Share(index: byte, value: seq<byte>)

  datatype Error = EmptySecret | BadParameters | EntropyFailure | TooFewShares | InconsistentLengths

  /** The non-constant coefficients drawn for each byte of the secret. */
  type Draws = seq<seq<byte>>

  predicate DrawsFit(draws: Draws, threshold: int) {
    forall b :: 0 <= b < |draws| ==> |draws[b]| == threshold - 1
  }

  // ----- what the operations compute -----

  function ShareAt(secret: seq<byte>, draws: Draws, x: byte): Share
    requires |secret| <= |draws|
  {
    Share(x, seq(|secret|, b requires 0 <= b < |secret| => Eval(GF, [secret[b]] + draws[b], x)))
  }

  function Index(i: nat): byte
    requires i < 255
  {
    (i + 1) as byte
  }

  predicate ValidParameters(threshold: int, n: int) {
    2 <= threshold <= n <= 255
  }

  function Shares(secret: seq<byte>, n: nat, draws: Draws): (shares: seq<Share>)
    requires n <= 255 && |secret| <= |draws|
    ensures |shares| == n
  {
    seq(n, i requires 0 <= i < n => ShareAt(secret, draws, Index(i)))
  }

  function Indices(shares: seq<Share>): (xs: seq<byte>)
    ensures |xs| == |shares|
  {
    seq(|shares|, i requires 0 <= i < |shares| => shares[i].index)
  }

  predicate SameLengths(shares: seq<Share>) {
    forall i :: 0 <= i < |shares| ==> |shares[i].value| == |shares[0].value|
  }

  function Column(shares: seq<Share>, b: nat): (ys: seq<byte>)
    requires forall i :: 0 <= i < |shares| ==> b < |shares[i].value|
    ensures |ys| == |shares|
  {
    seq(|shares|, i requires 0 <= i < |shares| => shares[i].value[b])
  }

  function Combined(shares: seq<Share>): seq<byte>
    requires |shares| > 0 && SameLengths(shares)
  {
    seq(|shares[0].value|, b requires 0 <= b < |shares[0].value| =>
      Lagrange(GF, Indices(shares), Column(shares, b), |shares|))
  }

  // ----- the loops -----

  /** recovery.go:126-132 */
  method GfPolyEval(coeffs: seq<byte>, x: byte) returns (result: byte)
    ensures result == Eval(GF, coeffs, x)
  {
    hide Mul, Inv;
    result := 0;
    var i := |coeffs| - 1;
    while i >= 0
      invariant -1 <= i < |coeffs|
      invariant result == Eval(GF, coeffs[i + 1..], x)
    {
      var product := GfMul(result, x);
      MulCommutes(result, x);
      assert coeffs[i..][1..] == coeffs[i + 1..];
      XorLaws(product, coeffs[i], 0);
      result := product ^ coeffs[i];
      i := i - 1;
    }
    assert coeffs[0..] == coeffs;
  }

  /** recovery.go:150-165 */
  method GfLagrange(xs: seq<byte>, ys: seq<byte>) returns (result: byte)
    requires |xs| <= |ys|
    ensures result == Lagrange(GF, xs, ys, |xs|)
  {
    hide Mul, Inv;
    result := 0;
    for i := 0 to |xs|
      invariant result == Lagrange(GF, xs, ys, i)
    {
      var num: byte, den: byte := 1, 1;
      for j := 0 to |xs|
        invariant num == Num(GF, xs, i, j)
        invariant den == Den(GF, xs, i, xs[i], j)
      {
        if i != j {
          num := GfMul(num, xs[j]);
          den := GfMul(den, xs[i] ^ xs[j]);
        }
      }
      var inverse := GfInv(den);
      var weight := GfMul(num, inverse);
      var term := GfMul(ys[i], weight);
      result := result ^ term;
    }
  }

  /** recovery.go:42-68; `draws` is what the random source yields, one draw per byte of
      the secret, and a missing draw is a read error. */
  method Split(secret: seq<byte>, threshold: int, n: int, draws: Draws) returns (r: Result<seq<Share>, Error>)
    requires DrawsFit(draws, threshold)
    ensures secret == [] ==> r == Err(EmptySecret)
    ensures secret != [] && !ValidParameters(threshold, n) ==> r == Err(BadParameters)
    ensures secret != [] && ValidParameters(threshold, n) && |draws| < |secret| ==> r == Err(EntropyFailure)
    ensures secret != [] && ValidParameters(threshold, n) && |secret| <= |draws| ==> r == Ok(Shares(secret, n, draws))
  {
    hide Eval, GF, Index, Shares;
    if |secret| == 0 {
      return Err(EmptySecret);
    }
    if threshold < 2 || threshold > n || n > 255 {
      return Err(BadParameters);
    }
    var shares := new Share[n](i requires 0 <= i < n => Share(Index(i), seq(|secret|, _ => 0)));
    for b := 0 to |secret|
      invariant b <= |draws|
      invariant Filled(shares[..], secret, draws, b)
    {
      if b >= |draws| {
        return Err(EntropyFailure);
      }
      ghost var before := shares[..];
      FillColumn(shares, [secret[b]] + draws[b], b);
      ColumnFilled(before, shares[..], secret, draws, b);
    }
    SharesByColumn(secret, n, draws, shares[..]);
    r := Ok(shares[..]);
  }

  /** The shares carry their indices and the first `b` bytes of their values. */
  predicate Filled(shares: seq<Share>, secret: seq<byte>, draws: Draws, b: nat) {
    && |shares| <= 255 && b <= |secret| && b <= |draws|
    && (forall i :: 0 <= i < |shares| ==> shares[i].index == Index(i) && |shares[i].value| == |secret|)
    && (forall i, k :: 0 <= i < |shares| && 0 <= k < b ==>
          shares[i].value[k] == Eval(GF, [secret[k]] + draws[k], Index(i)))
  }

  function WithByte(share: Share, coefficients: seq<byte>, b: nat): Share
    requires b < |share.value|
  {
    Share(share.index, share.value[b := Eval(GF, coefficients, share.index)])
  }

  /** recovery.go:63-65 */
  method FillColumn(shares: array<Share>, coefficients: seq<byte>, b: nat)
    requires forall i :: 0 <= i < shares.Length ==> b < |shares[i].value|
    modifies shares
    ensures forall i :: 0 <= i < shares.Length ==> shares[i] == old(WithByte(shares[i], coefficients, b))
  {
    hide Eval, GF;
    for i := 0 to shares.Length
      invariant forall j :: i <= j < shares.Length ==> shares[j] == old(shares[j])
      invariant forall j :: 0 <= j < i ==> shares[j] == old(WithByte(shares[j], coefficients, b))
    {
      var y := GfPolyEval(coefficients, shares[i].index);
      shares[i] := shares[i].(value := shares[i].value[b := y]);
    }
  }

  lemma ColumnFilled(before: seq<Share>, after: seq<Share>, secret: seq<byte>, draws: Draws, b: nat)
    requires b < |secret| && b < |draws| && Filled(before, secret, draws, b)
    requires |after| == |before|
    requires forall i :: 0 <= i < |after| ==> after[i] == WithByte(before[i], [secret[b]] + draws[b], b)
    ensures Filled(after, secret, draws, b + 1)
  {
    hide Eval, GF, Index;
    forall i, k | 0 <= i < |after| && 0 <= k < b + 1
      ensures after[i].value[k] == Eval(GF, [secret[k]] + draws[k], Index(i))
    {
      assert after[i] == WithByte(before[i], [secret[b]] + draws[b], b);
      if k < b {
        assert after[i].value[k] == before[i].value[k];
      }
    }
  }

  lemma SharesByColumn(secret: seq<byte>, n: nat, draws: Draws, shares: seq<Share>)
    requires n == |shares| && Filled(shares, secret, draws, |secret|)
    ensures shares == Shares(secret, n, draws)
  {
    hide Eval, GF, Index;
    forall i | 0 <= i < n ensures shares[i] == ShareAt(secret, draws, Index(i)) {
      assert shares[i].value == ShareAt(secret, draws, Index(i)).value;
    }
  }

  /** recovery.go:72-95 */
  method Combine(shares: seq<Share>) returns (r: Result<seq<byte>, Error>)
    ensures |shares| < 2 ==> r == Err(TooFewShares)
    ensures |shares| >= 2 && !SameLengths(shares) ==> r == Err(InconsistentLengths)
    ensures |shares| >= 2 && SameLengths(shares) ==> r == Ok(Combined(shares))
  {
    hide Lagrange, GF, Column, Indices;
    if |shares| < 2 {
      return Err(TooFewShares);
    }
    var length := |shares[0].value|;
    for i := 1 to |shares|
      invariant forall k :: 0 <= k < i ==> |shares[k].value| == length
    {
      if |shares[i].value| != length {
        return Err(InconsistentLengths);
      }
    }
    var secret := new byte[length](_ => 0);
    for b := 0 to length
      invariant forall k :: 0 <= k < b ==> secret[k] == Lagrange(GF, Indices(shares), Column(shares, k), |shares|)
    {
      var y := GfLagrange(Indices(shares), Column(shares, b));
      secret[b] := y;
    }
    assert secret[..] == Combined(shares);
    r := Ok(secret[..]);
  }

  // ----- any threshold-sized selection of shares reconstructs the secret -----

  function Select(shares: seq<Share>, pick: seq<nat>): (r: seq<Share>)
    requires forall k :: 0 <= k < |pick| ==> pick[k] < |shares|
    ensures |r| == |pick|
  {
    seq(|pick|, k requires 0 <= k < |pick| => shares[pick[k]])
  }

  lemma IndexInjective(i: nat, j: nat)
    requires i < 255 && j < 255 && i != j
    ensures Index(i) != Index(j)
  {
    ByteOfInt(i + 1);
    ByteOfInt(j + 1);
  }

  lemma SelectedIndicesDistinct(secret: seq<byte>, n: nat, draws: Draws, pick: seq<nat>)
    requires n <= 255 && |secret| <= |draws|
    requires forall k :: 0 <= k < |pick| ==> pick[k] < n
    requires Distinct(pick)
    ensures Distinct(Indices(Select(Shares(secret, n, draws), pick)))
  {
    hide Eval, GF;
    var xs := Indices(Select(Shares(secret, n, draws), pick));
    forall i, j | 0 <= i < j < |xs| ensures xs[i] != xs[j] {
      assert xs[i] == Index(pick[i]) && xs[j] == Index(pick[j]);
      IndexInjective(pick[i], pick[j]);
    }
  }

  lemma ColumnDecodes(secret: seq<byte>, shares: seq<Share>, draws: Draws, b: nat)
    requires |secret| <= |draws| && b < |secret| && |draws[b]| < |shares|
    requires forall i :: 0 <= i < |shares| ==> |shares[i].value| == |secret|
    requires forall i :: 0 <= i < |shares| ==> shares[i] == ShareAt(secret, draws, shares[i].index)
    requires Distinct(Indices(shares))
    ensures Lagrange(GF, Indices(shares), Column(shares, b), |shares|) == secret[b]
  {
    var xs, ys, c := Indices(shares), Column(shares, b), [secret[b]] + draws[b];
    GfIsField();
    assert forall i :: 0 <= i < |xs| ==> ys[i] == Eval(GF, c, xs[i]) by {
      hide Eval, GF;
      forall i | 0 <= i < |xs| ensures ys[i] == Eval(GF, c, xs[i]) {
        assert ys[i] == shares[i].value[b];
      }
    }
    LagrangeAtZero(GF, xs, c, ys);
    EvalAtZero(GF, c);
  }

  /** For every secret, threshold, share count and choice of coefficients, any `threshold`
      or more of the shares, in any order, combine to the secret. */
  lemma Reconstruction(secret: seq<byte>, threshold: int, n: int, draws: Draws, pick: seq<nat>)
    requires ValidParameters(threshold, n) && |secret| <= |draws| && DrawsFit(draws, threshold)
    requires |pick| >= threshold && Distinct(pick)
    requires forall k :: 0 <= k < |pick| ==> pick[k] < n
    ensures var chosen := Select(Shares(secret, n, draws), pick);
            SameLengths(chosen) && Combined(chosen) == secret
  {
    hide Eval, Lagrange, GF;
    var chosen := Select(Shares(secret, n, draws), pick);
    SelectedIndicesDistinct(secret, n, draws, pick);
    forall i | 0 <= i < |chosen| ensures chosen[i] == ShareAt(secret, draws, chosen[i].index) {
      assert chosen[i] == ShareAt(secret, draws, Index(pick[i]));
    }
    forall b | 0 <= b < |secret| ensures Combined(chosen)[b] == secret[b] {
      ColumnDecodes(secret, chosen, draws, b);
    }
  }

  /** Split followed by Combine. */
  method SplitThenCombine(secret: seq<byte>, threshold: int, n: int, draws: Draws, pick: seq<nat>)
    returns (r: Result<seq<byte>, Error>)
    requires secret != [] && ValidParameters(threshold, n) && |secret| <= |draws| && DrawsFit(draws, threshold)
    requires |pick| >= threshold && Distinct(pick)
    requires forall k :: 0 <= k < |pick| ==> pick[k] < n
    ensures r == Ok(secret)
  {
    var shares := Split(secret, threshold, n, draws);
    Reconstruction(secret, threshold, n, draws, pick);
    r := Combine(Select(shares.value, pick));
  }

  // ----- fewer shares fix nothing -----

  /** The shares in `seen` are what `Split` computes for `secret` from `draws`. */
  predicate Explains(secret: seq<byte>, draws: Draws, seen: seq<Share>)
    requires |secret| <= |draws|
  {
    forall k :: 0 <= k < |seen| ==> seen[k] == ShareAt(secret, draws, seen[k].index)
  }

  lemma SplitExplains(secret: seq<byte>, n: nat, draws: Draws, pick: seq<nat>)
    requires n <= 255 && |secret| <= |draws|
    requires forall k :: 0 <= k < |pick| ==> pick[k] < n
    ensures Explains(secret, draws, Select(Shares(secret, n, draws), pick))
  {
    hide Eval, GF;
    var seen := Select(Shares(secret, n, draws), pick);
    forall k | 0 <= k < |seen| ensures seen[k] == ShareAt(secret, draws, seen[k].index) {
      assert seen[k] == ShareAt(secret, draws, Index(pick[k]));
    }
  }

  /** Conditions on a coalition's view: distinct nonzero indices, values as long as the secret. */
  predicate View(seen: seq<Share>, length: nat) {
    && Distinct(Indices(seen))
    && forall k :: 0 <= k < |seen| ==> seen[k].index != 0 && |seen[k].value| == length
  }

  lemma PointsWithZero(seen: seq<Share>, length: nat)
    requires View(seen, length)
    ensures Distinct([0] + Indices(seen))
  {
    var xs := Indices(seen);
    assert forall k :: 0 <= k < |xs| ==> xs[k] == seen[k].index;
    var points := [0] + xs;
    assert forall i :: 0 < i < |points| ==> points[i] == xs[i - 1];
  }

  /** One byte: the coefficients that send 0 to `s` and each seen index to its value. */
  lemma ByteCoefficients(seen: seq<Share>, length: nat, s: byte, b: nat) returns (draw: seq<byte>)
    requires View(seen, length) && b < length
    ensures |draw| == |seen|
    ensures forall k :: 0 <= k < |seen| ==> seen[k].value[b] == Eval(GF, [s] + draw, seen[k].index)
  {
    hide Eval, GF;
    GfIsField();
    PointsWithZero(seen, length);
    var points, values := [0] + Indices(seen), [s] + Column(seen, b);
    var c := InterpolantExists(GF, points, values);
    StartsWith(c, points, values, s);
    draw := c[1..];
    assert c == [s] + draw;
    forall k | 0 <= k < |seen| ensures seen[k].value[b] == Eval(GF, [s] + draw, seen[k].index) {
      assert points[k + 1] == seen[k].index && values[k + 1] == seen[k].value[b];
    }
  }

  /** A polynomial with value s at zero has constant coefficient s. */
  lemma StartsWith(c: seq<byte>, points: seq<byte>, values: seq<byte>, s: byte)
    requires |c| == |points| == |values| && |c| > 0 && points[0] == 0 && values[0] == s
    requires forall i :: 0 <= i < |points| ==> Eval(GF, c, points[i]) == values[i]
    ensures c[0] == s
  {
    hide Eval;
    GfIsField();
    EvalAtZero(GF, c);
    assert GF.zero == 0;
  }

  /** Any `threshold - 1` shares are consistent with every candidate secret of their length. */
  lemma {:induction false} EverySecretPossible(seen: seq<Share>, candidate: seq<byte>,
                                               length: nat) returns (draws: Draws)
    requires View(seen, length) && |candidate| <= length
    ensures |draws| == |candidate|
    ensures DrawsFit(draws, |seen| + 1)
    ensures forall k, b :: 0 <= k < |seen| && 0 <= b < |candidate| ==>
              seen[k].value[b] == Eval(GF, [candidate[b]] + draws[b], seen[k].index)
    decreases |candidate|
  {
    hide Eval, GF;
    if |candidate| == 0 {
      draws := [];
    } else {
      var n := |candidate| - 1;
      var prefix := candidate[..n];
      var earlier := EverySecretPossible(seen, prefix, length);
      var draw := ByteCoefficients(seen, length, candidate[n], n);
      draws := earlier + [draw];
      forall k, b | 0 <= k < |seen| && 0 <= b < |candidate|
        ensures seen[k].value[b] == Eval(GF, [candidate[b]] + draws[b], seen[k].index)
      {
        if b < n {
          assert prefix[b] == candidate[b] && draws[b] == earlier[b];
        }
      }
    }
  }

  /** Fewer than `threshold` shares fix nothing: every secret of the right length explains
      them, with exactly one choice of coefficients. */
  lemma Secrecy(seen: seq<Share>, candidate: seq<byte>) returns (draws: Draws)
    requires View(seen, |candidate|)
    ensures |draws| == |candidate| && DrawsFit(draws, |seen| + 1)
    ensures Explains(candidate, draws, seen)
    ensures forall other: Draws ::
              (|other| == |candidate| && DrawsFit(other, |seen| + 1) && Explains(candidate, other, seen)) ==>
                other == draws
  {
    hide Eval, GF;
    draws := EverySecretPossible(seen, candidate, |candidate|);
    forall k | 0 <= k < |seen| ensures seen[k] == ShareAt(candidate, draws, seen[k].index) {
      assert seen[k].value == ShareAt(candidate, draws, seen[k].index).value;
    }
    forall other: Draws |
      |other| == |candidate| && DrawsFit(other, |seen| + 1) && Explains(candidate, other, seen)
      ensures other == draws
    {
      ExplanationUnique(seen, candidate, draws, other);
    }
  }

  /** The i-th share carries the index i + 1, never zero, and a value as long as the secret. */
  lemma SharesIndexed(secret: seq<byte>, n: nat, draws: Draws, i: nat)
    requires n <= 255 && |secret| <= |draws| && i < n
    ensures Shares(secret, n, draws)[i].index as int == i + 1
    ensures Shares(secret, n, draws)[i].index != 0
    ensures |Shares(secret, n, draws)[i].value| == |secret|
  {
    hide Eval, GF, Index;
    IndexIs(i);
  }

  lemma IndexIs(i: nat)
    requires i < 255
    ensures Index(i) as int == i + 1 && Index(i) != 0
  {
    ByteOfInt(i + 1);
  }

  /** Any distinct shares that `Split` hands out form a view in the sense of `Secrecy`. */
  lemma SplitView(secret: seq<byte>, n: nat, draws: Draws, pick: seq<nat>)
    requires n <= 255 && |secret| <= |draws|
    requires Distinct(pick) && forall k :: 0 <= k < |pick| ==> pick[k] < n
    ensures View(Select(Shares(secret, n, draws), pick), |secret|)
  {
    hide Eval, GF, Shares;
    SelectedIndicesDistinct(secret, n, draws, pick);
    var seen := Select(Shares(secret, n, draws), pick);
    forall k | 0 <= k < |seen| ensures seen[k].index != 0 && |seen[k].value| == |secret| {
      SharesIndexed(secret, n, draws, pick[k]);
    }
  }

  lemma ExplainedView(secret: seq<byte>, n: nat, draws: Draws, pick: seq<nat>, candidate: seq<byte>, other: Draws)
    requires n <= 255 && |secret| <= |draws| && |candidate| <= |other|
    requires forall k :: 0 <= k < |pick| ==> pick[k] < n
    ensures Explains(candidate, other, Select(Shares(secret, n, draws), pick))
       <==> Select(Shares(candidate, n, other), pick) == Select(Shares(secret, n, draws), pick)
  {
    hide Eval, GF;
    var seen, alike := Select(Shares(secret, n, draws), pick), Select(Shares(candidate, n, other), pick);
    forall k | 0 <= k < |pick| ensures alike[k] == ShareAt(candidate, other, seen[k].index) {
      assert seen[k].index == Index(pick[k]);
    }
  }

  /** Whatever `threshold - 1` guardians see of a split secret, they would see of any other secret of that
      length, under exactly one choice of coefficients. */
  lemma SplitSecrecy(secret: seq<byte>, threshold: int, n: int, draws: Draws, pick: seq<nat>, candidate: seq<byte>)
    returns (other: Draws)
    requires ValidParameters(threshold, n) && |secret| <= |draws| && |candidate| == |secret|
    requires |pick| == threshold - 1 && Distinct(pick) && forall k :: 0 <= k < |pick| ==> pick[k] < n
    ensures |other| == |candidate| && DrawsFit(other, threshold)
    ensures Select(Shares(candidate, n, other), pick) == Select(Shares(secret, n, draws), pick)
    ensures forall third: Draws ::
              (|third| == |candidate| && DrawsFit(third, threshold)
               && Select(Shares(candidate, n, third), pick) == Select(Shares(secret, n, draws), pick)) ==>
                third == other
  {
    hide Eval, GF, Shares, View, Explains;
    SplitView(secret, n, draws, pick);
    var seen := Select(Shares(secret, n, draws), pick);
    other := Secrecy(seen, candidate);
    ExplainedView(secret, n, draws, pick, candidate, other);
    forall third: Draws |
      |third| == |candidate| && DrawsFit(third, threshold)
      && Select(Shares(candidate, n, third), pick) == Select(Shares(secret, n, draws), pick)
      ensures third == other
    {
      ExplainedView(secret, n, draws, pick, candidate, third);
    }
  }

  lemma ExplanationUnique(seen: seq<Share>, candidate: seq<byte>, draws: Draws, other: Draws)
    requires View(seen, |candidate|)
    requires |draws| == |other| == |candidate| && DrawsFit(draws, |seen| + 1) && DrawsFit(other, |seen| + 1)
    requires Explains(candidate, draws, seen) && Explains(candidate, other, seen)
    ensures draws == other
  {
    forall b | 0 <= b < |candidate| ensures draws[b] == other[b] {
      ByteUnique(seen, candidate, draws, other, b);
    }
  }

  lemma ByteUnique(seen: seq<Share>, candidate: seq<byte>, draws: Draws, other: Draws, b: nat)
    requires View(seen, |candidate|) && b < |candidate|
    requires |draws| == |other| == |candidate| && DrawsFit(draws, |seen| + 1) && DrawsFit(other, |seen| + 1)
    requires Explains(candidate, draws, seen) && Explains(candidate, other, seen)
    ensures draws[b] == other[b]
  {
    GfIsField();
    PointsWithZero(seen, |candidate|);
    var points := [0] + Indices(seen);
    var c, d := [candidate[b]] + draws[b], [candidate[b]] + other[b];
    EvalAtZero(GF, c);
    EvalAtZero(GF, d);
    SamplesAgree(seen, candidate, draws, other, b);
    InterpolantUnique(GF, points, c, d);
    assert c[1..] == draws[b] && d[1..] == other[b];
  }

  lemma SamplesAgree(seen: seq<Share>, candidate: seq<byte>, draws: Draws, other: Draws, b: nat)
    requires |draws| == |other| == |candidate| && b < |candidate|
    requires Explains(candidate, draws, seen) && Explains(candidate, other, seen)
    requires Eval(GF, [candidate[b]] + draws[b], 0) == Eval(GF, [candidate[b]] + other[b], 0)
    ensures var points := [0] + Indices(seen);
            forall i :: 0 <= i < |points| ==>
              Eval(GF, [candidate[b]] + draws[b], points[i]) == Eval(GF, [candidate[b]] + other[b], points[i])
  {
    hide Eval, GF;
    var points := [0] + Indices(seen);
    forall i | 0 <= i < |points|
      ensures Eval(GF, [candidate[b]] + draws[b], points[i]) == Eval(GF, [candidate[b]] + other[b], points[i])
    {
      if i > 0 {
        var x := seen[i - 1].index;
        assert points[i] == x;
        assert seen[i - 1] == ShareAt(candidate, draws, x) == ShareAt(candidate, other, x);
        assert seen[i - 1].value[b] == ShareAt(candidate, draws, x).value[b];
      }
    }
  }
}
