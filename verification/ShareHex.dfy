/** The stored form of a share, "HEX(index):HEX(value)" (recovery.go:19-38). */
module ShareHex {

  import opened Bytes
  import opened Wrappers
  import opened Polynomials
  import opened Shamir

  const DIGITS: string := "0123456789abcdef"

  datatype ParseError = BadFormat | BadIndex | BadValue

  function HexByte(b: byte): (r: string)
    ensures |r| == 2
  {
    [DIGITS[(b >> 4) as int], DIGITS[(b & 15) as int]]
  }

  function EncodeHex(bs: seq<byte>): string {
    if |bs| == 0 then "" else HexByte(bs[0]) + EncodeHex(bs[1..])
  }

  /** Both letter cases are accepted. */
  function DigitValue(c: char): Option<byte> {
    if '0' <= c <= '9' then Some((c as int - '0' as int) as byte)
    else if 'a' <= c <= 'f' then Some((c as int - 'a' as int + 10) as byte)
    else if 'A' <= c <= 'F' then Some((c as int - 'A' as int + 10) as byte)
    else None
  }

  function DecodeHex(s: string): Option<seq<byte>> {
    if |s| == 0 then Some([])
    else if |s| == 1 then None
    else
      match (DigitValue(s[0]), DigitValue(s[1]), DecodeHex(s[2..]))
      case (Some(hi), Some(lo), Some(rest)) => Some([(hi << 4) | lo] + rest)
      case _ => None
  }

  function Hex(share: Share): string {
    HexByte(share.index) + ":" + EncodeHex(share.value)
  }

  function ParseHex(encoded: string): Result<Share, ParseError> {
    if |encoded| < 4 || encoded[2] != ':' then Err(BadFormat)
    else
      match DecodeHex(encoded[..2])
      case None => Err(BadIndex)
      case Some(idx) =>
        if |idx| != 1 then Err(BadIndex)
        else
          match DecodeHex(encoded[3..])
          case None => Err(BadValue)
          case Some(value) => Ok(Share(idx[0], value))
  }

  // ----- digits -----

  function Lower(c: char): char {
    if 'A' <= c <= 'F' then (c as int - 'A' as int + 'a' as int) as char else c
  }

  function LowerAll(s: string): (r: string)
    ensures |r| == |s| && forall i :: 0 <= i < |s| ==> r[i] == Lower(s[i])
  {
    seq(|s|, i requires 0 <= i < |s| => Lower(s[i]))
  }

  lemma DigitRoundTrip(v: int)
    requires 0 <= v < 16
    ensures DigitValue(DIGITS[v]) == Some(v as byte)
  {
    assert DIGITS[v] == if v < 10 then ('0' as int + v) as char else ('a' as int + v - 10) as char;
  }

  lemma Nibbles(b: byte)
    ensures (b >> 4) as int < 16 && (b & 15) as int < 16
    ensures ((b >> 4) << 4) | (b & 15) == b
  {}

  lemma ByteRoundTrip(b: byte, rest: string)
    ensures DecodeHex(HexByte(b) + rest)
         == match DecodeHex(rest) case None => None case Some(bs) => Some([b] + bs)
  {
    Nibbles(b);
    var s := HexByte(b) + rest;
    DigitRoundTrip((b >> 4) as int);
    DigitRoundTrip((b & 15) as int);
    IntOfByte(b >> 4);
    IntOfByte(b & 15);
    assert s[2..] == rest;
  }

  lemma {:induction false} HexRoundTrip(bs: seq<byte>)
    ensures DecodeHex(EncodeHex(bs)) == Some(bs)
    ensures |EncodeHex(bs)| == 2 * |bs|
  {
    hide HexByte;
    if |bs| > 0 {
      HexRoundTrip(bs[1..]);
      ByteRoundTrip(bs[0], EncodeHex(bs[1..]));
      assert bs == [bs[0]] + bs[1..];
    } else {
      assert bs == [] && EncodeHex(bs) == "";
    }
  }

  lemma DecimalDigit(c: char)
    requires '0' <= c <= '9'
    ensures DIGITS[c as int - '0' as int] == c
  {
  }

  lemma LetterDigit(c: char)
    requires 'a' <= c <= 'f'
    ensures DIGITS[c as int - 'a' as int + 10] == c
  {
  }

  /** The value of a hexadecimal digit of either case. */
  function DigitIndex(c: char): int {
    if '0' <= c <= '9' then c as int - '0' as int
    else if 'a' <= c <= 'f' then c as int - 'a' as int + 10
    else c as int - 'A' as int + 10
  }

  lemma UpperDigit(c: char)
    requires 'A' <= c <= 'F'
    ensures 'a' <= Lower(c) <= 'f' && DigitIndex(c) == DigitIndex(Lower(c))
  {
  }

  lemma DigitAt(c: char)
    requires DigitValue(c).Some?
    ensures 0 <= DigitIndex(c) < 16 && DigitValue(c).value == DigitIndex(c) as byte
    ensures DIGITS[DigitIndex(c)] == Lower(c)
  {
    hide DIGITS;
    if '0' <= c <= '9' {
      DecimalDigit(c);
    } else if 'a' <= c <= 'f' {
      LetterDigit(c);
    } else {
      UpperDigit(c);
      LetterDigit(Lower(c));
    }
  }

  lemma DigitIsLower(c: char)
    ensures match DigitValue(c) case None => true case Some(v) => v as int < 16 && DIGITS[v as int] == Lower(c)
  {
    hide DigitValue, DIGITS, Lower, DigitIndex;
    if DigitValue(c).Some? {
      DigitAt(c);
      ByteOfInt(DigitIndex(c));
    }
  }

  lemma JoinNibbles(hi: byte, lo: byte)
    requires hi < 16 && lo < 16
    ensures ((hi << 4) | lo) >> 4 == hi && ((hi << 4) | lo) & 15 == lo
  {}

  lemma NibbleBound(v: byte)
    requires v as int < 16
    ensures v < 16
  {}

  lemma JoinedByte(c: char, d: char)
    requires DigitValue(c).Some? && DigitValue(d).Some?
    ensures HexByte((DigitValue(c).value << 4) | DigitValue(d).value) == [Lower(c), Lower(d)]
  {
    DigitIsLower(c);
    DigitIsLower(d);
    var hi, lo := DigitValue(c).value, DigitValue(d).value;
    NibbleBound(hi);
    NibbleBound(lo);
    JoinNibbles(hi, lo);
  }

  lemma DecodeHexStep(s: string)
    requires |s| > 0 && DecodeHex(s).Some?
    ensures |s| >= 2 && DigitValue(s[0]).Some? && DigitValue(s[1]).Some? && DecodeHex(s[2..]).Some?
    ensures DecodeHex(s).value == [(DigitValue(s[0]).value << 4) | DigitValue(s[1]).value] + DecodeHex(s[2..]).value
  {
    hide DigitValue;
  }

  lemma EncodeHexCons(b: byte, bs: seq<byte>)
    ensures EncodeHex([b] + bs) == HexByte(b) + EncodeHex(bs)
  {
    hide HexByte;
    assert ([b] + bs)[1..] == bs;
  }

  lemma LowerAllStep(s: string)
    requires |s| >= 2
    ensures LowerAll(s) == [Lower(s[0]), Lower(s[1])] + LowerAll(s[2..])
  {
    hide Lower;
  }

  lemma {:induction false} DecodedHexIsLower(s: string)
    requires DecodeHex(s).Some?
    ensures EncodeHex(DecodeHex(s).value) == LowerAll(s)
    ensures |s| == 2 * |DecodeHex(s).value|
  {
    if |s| == 0 {
      assert DecodeHex(s).value == [];
    } else {
      hide HexByte, DigitValue, Lower, LowerAll, DecodeHex, EncodeHex;
      DecodeHexStep(s);
      DecodedHexIsLower(s[2..]);
      var b := (DigitValue(s[0]).value << 4) | DigitValue(s[1]).value;
      EncodeHexCons(b, DecodeHex(s[2..]).value);
      JoinedByte(s[0], s[1]);
      LowerAllStep(s);
    }
  }

  // ----- shares -----

  /** A share survives storage exactly when its value is not empty. */
  lemma ShareRoundTrip(share: Share)
    ensures ParseHex(Hex(share)) == if |share.value| > 0 then Ok(share) else Err(BadFormat)
  {
    hide HexByte, DecodeHex, EncodeHex;
    var h, v := HexByte(share.index), EncodeHex(share.value);
    var s := Hex(share);
    HexRoundTrip(share.value);
    HexRoundTrip([share.index]);
    SingleByte(share.index);
    assert s[..2] == h && s[3..] == v && s[2] == ':';
  }

  lemma SingleByte(b: byte)
    ensures EncodeHex([b]) == HexByte(b)
  {
    hide HexByte;
    assert [b][1..] == [];
    assert EncodeHex([]) == "";
    assert HexByte(b) + "" == HexByte(b);
  }

  lemma DigitIgnoresCase(c: char)
    ensures DigitValue(Lower(c)) == DigitValue(c)
  {
    if 'A' <= c <= 'F' {
      UpperDigit(c);
    }
  }

  lemma {:induction false} DecodeIgnoresCase(s: string)
    ensures DecodeHex(LowerAll(s)) == DecodeHex(s)
  {
    hide DigitValue, Lower;
    if |s| >= 2 {
      var t := LowerAll(s);
      DecodeIgnoresCase(s[2..]);
      assert t[2..] == LowerAll(s[2..]);
      DigitIgnoresCase(s[0]);
      DigitIgnoresCase(s[1]);
    }
  }

  lemma ColonOnly(c: char)
    ensures Lower(c) == ':' <==> c == ':'
  {
  }

  lemma ParseIgnoresCase(encoded: string)
    ensures ParseHex(LowerAll(encoded)) == ParseHex(encoded)
  {
    hide DecodeHex, Lower;
    var t := LowerAll(encoded);
    if |encoded| >= 4 {
      ColonOnly(encoded[2]);
      assert t[..2] == LowerAll(encoded[..2]) && t[3..] == LowerAll(encoded[3..]);
      DecodeIgnoresCase(encoded[..2]);
      DecodeIgnoresCase(encoded[3..]);
    }
  }

  lemma ParsedIsText(encoded: string, share: Share)
    requires ParseHex(encoded) == Ok(share)
    ensures Hex(share) == LowerAll(encoded)
    ensures |share.value| > 0
  {
    hide HexByte, DecodeHex, EncodeHex;
    var front, back := encoded[..2], encoded[3..];
    DecodedHexIsLower(front);
    DecodedHexIsLower(back);
    SingleByte(share.index);
    assert DecodeHex(front).value == [share.index];
    assert encoded == front + ":" + back;
    assert LowerAll(encoded) == LowerAll(front) + ":" + LowerAll(back);
  }

  /** A text parses to a share exactly when it is that share's text up to the case of its digits, and the
      share has a value. */
  lemma ParsedShareText(encoded: string, share: Share)
    ensures ParseHex(encoded) == Ok(share) <==> Hex(share) == LowerAll(encoded) && |share.value| > 0
  {
    hide ParseHex, Hex, LowerAll;
    ParseIgnoresCase(encoded);
    ShareRoundTrip(share);
    if ParseHex(encoded) == Ok(share) {
      ParsedIsText(encoded, share);
    }
  }

  /** Reconstruction from stored shares: parse what was printed and combine. */
  lemma StoredReconstruction(secret: seq<byte>, threshold: int, n: int, draws: Draws, pick: seq<nat>)
    requires secret != []
    requires ValidParameters(threshold, n) && |secret| <= |draws| && DrawsFit(draws, threshold)
    requires |pick| >= threshold && Distinct(pick)
    requires forall k :: 0 <= k < |pick| ==> pick[k] < n
    ensures var chosen := Select(Shares(secret, n, draws), pick);
            && (forall k :: 0 <= k < |chosen| ==> ParseHex(Hex(chosen[k])) == Ok(chosen[k]))
            && SameLengths(chosen) && Combined(chosen) == secret
  {
    var chosen := Select(Shares(secret, n, draws), pick);
    Reconstruction(secret, threshold, n, draws, pick);
    forall k | 0 <= k < |chosen| ensures ParseHex(Hex(chosen[k])) == Ok(chosen[k]) {
      ShareRoundTrip(chosen[k]);
    }
  }
}
