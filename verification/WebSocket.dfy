/** WebSocket frames of the streaming client (crates/keystone/tpt-keystone-cli/src/stream.rs:79-151),
    sections 5.2 and 5.3 of RFC 6455. */
module WebSocket {

  import opened Bytes
  import opened Wrappers

  /** The three ways to write a payload length. */
  datatype LengthForm = Short | Medium | Long

  /** A frame: its first byte, an optional masking key, and the unmasked payload. */
  datatype Frame = Frame(b0: byte, mask: Option<seq<byte>>, form: LengthForm, payload: seq<byte>)

  predicate Fits(form: LengthForm, len: nat) {
    match form
    case Short => len <= 125
    case Medium => len < Power256(2)
    case Long => len < Power256(8)
  }

  predicate WellFormed(f: Frame) {
    Fits(f.form, |f.payload|) && (f.mask.Some? ==> |f.mask.value| == 4)
  }

  function Opcode(b0: byte): byte {
    b0 & 0x0F
  }

  const TEXT: byte := 1
  const CLOSE: byte := 8

  // ----- writing -----

  function Masked(payload: seq<byte>, mask: seq<byte>): (r: seq<byte>)
    requires |mask| == 4
    ensures |r| == |payload|
  {
    seq(|payload|, i requires 0 <= i < |payload| => payload[i] ^ mask[i % 4])
  }

  function LengthCode(form: LengthForm, len: nat): byte
    requires Fits(form, len)
  {
    match form
    case Short => len as byte
    case Medium => 126
    case Long => 127
  }

  function ExtendedLength(form: LengthForm, len: nat): seq<byte> {
    match form
    case Short => []
    case Medium => BigEndian(len, 2)
    case Long => BigEndian(len, 8)
  }

  /** The second header byte: mask bit and length code. */
  function SecondByte(f: Frame): byte
    requires WellFormed(f)
  {
    var code := LengthCode(f.form, |f.payload|);
    if f.mask.Some? then 0x80 | code else code
  }

  /** Masking key and payload as sent. */
  function Body(f: Frame): seq<byte>
    requires WellFormed(f)
  {
    match f.mask
    case Some(m) => m + Masked(f.payload, m)
    case None => f.payload
  }

  function Encode(f: Frame): seq<byte>
    requires WellFormed(f)
  {
    [f.b0, SecondByte(f)] + (ExtendedLength(f.form, |f.payload|) + Body(f))
  }

  /** The shortest form that holds the length. */
  function FormFor(len: nat): LengthForm {
    if len <= 125 then Short else if len < Power256(2) then Medium else Long
  }

  /** The frame the client sends: final, text, masked. */
  function TextFrame(payload: seq<byte>, mask: seq<byte>): Frame {
    Frame(0x81, Some(mask), FormFor(|payload|), payload)
  }

  lemma Powers()
    ensures Power256(2) == 0x1_0000
    ensures Power256(4) == 0x1_0000_0000
    ensures Power256(8) == 0x1_0000_0000_0000_0000
  {
    assert Power256(1) == 256;
    assert Power256(3) == 256 * Power256(2);
    assert Power256(4) == 256 * Power256(3);
    assert Power256(5) == 256 * Power256(4);
    assert Power256(6) == 256 * Power256(5);
    assert Power256(7) == 256 * Power256(6);
  }

  /** stream.rs:81-104 */
  method WriteMaskedTextFrame(payload: seq<byte>, mask: seq<byte>) returns (frame: seq<byte>)
    requires |mask| == 4 && |payload| < Power256(8)
    ensures WellFormed(TextFrame(payload, mask))
    ensures frame == Encode(TextFrame(payload, mask))
  {
    hide Masked;
    Powers();
    var header := WriteLength(|payload|);
    var masked := WriteMasked(payload, mask);
    frame := [0x81] + header + mask + masked;
    assert frame == [0x81, header[0]] + (header[1..] + (mask + masked));
  }

  /** stream.rs:88-97 */
  method WriteLength(len: nat) returns (bytes: seq<byte>)
    requires len < Power256(8)
    ensures Fits(FormFor(len), len)
    ensures bytes == [0x80 | LengthCode(FormFor(len), len)] + ExtendedLength(FormFor(len), len)
  {
    Powers();
    if len <= 125 {
      bytes := [0x80 | (len as byte)];
    } else if len <= 65535 {
      bytes := [0x80 | 126];
      bytes := bytes + BigEndian(len, 2);
    } else {
      bytes := [0x80 | 127];
      bytes := bytes + BigEndian(len, 8);
    }
  }

  /** stream.rs:99-101 */
  method WriteMasked(payload: seq<byte>, mask: seq<byte>) returns (bytes: seq<byte>)
    requires |mask| == 4
    ensures bytes == Masked(payload, mask)
  {
    bytes := [];
    for i := 0 to |payload|
      invariant bytes == Masked(payload, mask)[..i]
    {
      bytes := bytes + [payload[i] ^ mask[i % 4]];
    }
  }

  // ----- reading -----

  datatype Decoded = Decoded(b0: byte, payload: seq<byte>, rest: seq<byte>) | AtEnd | Truncated

  /** The length, and the bytes after it. */
  function DecodeLength(code: byte, bytes: seq<byte>): Option<(nat, seq<byte>)> {
    if code == 126 then
      if |bytes| < 2 then None else Some((FromBigEndian(bytes[..2]), bytes[2..]))
    else if code == 127 then
      if |bytes| < 8 then None else Some((FromBigEndian(bytes[..8]), bytes[8..]))
    else Some((code as int, bytes))
  }

  /** The payload after an optional masking key. */
  function DecodeBody(b0: byte, masked: bool, len: nat, bytes: seq<byte>): Decoded {
    if masked then
      if |bytes| < 4 + len then Truncated
      else Decoded(b0, Masked(bytes[4..4 + len], bytes[..4]), bytes[4 + len..])
    else if |bytes| < len then Truncated
    else Decoded(b0, bytes[..len], bytes[len..])
  }

  function DecodeOne(bytes: seq<byte>): Decoded {
    if |bytes| < 2 then AtEnd
    else
      match DecodeLength(bytes[1] & 0x7F, bytes[2..])
      case None => Truncated
      case Some((len, more)) => DecodeBody(bytes[0], bytes[1] & 0x80 != 0, len, more)
  }

  /** What `read_frame` returns, with the bytes it leaves unread. */
  datatype Read = Text(payload: seq<byte>, rest: seq<byte>) | Closed(rest: seq<byte>) | Failed

  lemma DecodeConsumes(bytes: seq<byte>)
    ensures var d := DecodeOne(bytes); d.Decoded? ==> |d.rest| < |bytes|
  {}

  /** `lossy` is `from_utf8_lossy`, which leaves valid UTF-8 as it is. */
  function ReadFrame(lossy: seq<byte> -> seq<byte>, bytes: seq<byte>): Read
    decreases |bytes|
  {
    match DecodeOne(bytes)
    case AtEnd => Closed([])
    case Truncated => Failed
    case Decoded(b0, payload, rest) =>
      DecodeConsumes(bytes);
      if Opcode(b0) == TEXT then Text(lossy(payload), rest)
      else if Opcode(b0) == CLOSE then Closed(rest)
      else ReadFrame(lossy, rest)
  }

  // ----- the round trip -----

  lemma MaskTwice(payload: seq<byte>, mask: seq<byte>)
    requires |mask| == 4
    ensures Masked(Masked(payload, mask), mask) == payload
  {
    forall i | 0 <= i < |payload| ensures Masked(Masked(payload, mask), mask)[i] == payload[i] {
      XorTwice(payload[i], mask[i % 4]);
    }
  }

  lemma MaskBit(code: byte)
    requires code < 128
    ensures (0x80 | code) & 0x7F == code && (0x80 | code) & 0x80 != 0
    ensures code & 0x7F == code && code & 0x80 == 0
  {}

  lemma SmallCode(code: byte)
    requires code as int <= 125
    ensures code < 126
  {}

  lemma LengthRoundTrip(form: LengthForm, len: nat, more: seq<byte>)
    requires Fits(form, len)
    ensures LengthCode(form, len) < 128
    ensures DecodeLength(LengthCode(form, len), ExtendedLength(form, len) + more) == Some((len, more))
  {
    var bytes := ExtendedLength(form, len) + more;
    match form
    case Short =>
      ByteOfInt(len);
      SmallCode(len as byte);
      assert bytes == more;
    case Medium =>
      BigEndianRoundTrip(len, 2);
      assert bytes[..2] == BigEndian(len, 2) && bytes[2..] == more;
    case Long =>
      BigEndianRoundTrip(len, 8);
      assert bytes[..8] == BigEndian(len, 8) && bytes[8..] == more;
  }

  lemma BodyRoundTrip(f: Frame, rest: seq<byte>)
    requires WellFormed(f)
    ensures DecodeBody(f.b0, f.mask.Some?, |f.payload|, Body(f) + rest) == Decoded(f.b0, f.payload, rest)
  {
    hide Masked, Fits;
    var bytes, len := Body(f) + rest, |f.payload|;
    if f.mask.Some? {
      var m := f.mask.value;
      MaskTwice(f.payload, m);
      assert bytes[..4] == m && bytes[4..4 + len] == Masked(f.payload, m) && bytes[4 + len..] == rest;
    } else {
      assert bytes[..len] == f.payload && bytes[len..] == rest;
    }
  }

  /** Decoding undoes encoding and leaves exactly the bytes that follow. */
  lemma DecodeEncoded(f: Frame, rest: seq<byte>)
    requires WellFormed(f)
    ensures DecodeOne(Encode(f) + rest) == Decoded(f.b0, f.payload, rest)
  {
    hide DecodeLength, LengthCode, ExtendedLength, DecodeBody, Body;
    var bytes, more := Encode(f) + rest, Body(f) + rest;
    LengthRoundTrip(f.form, |f.payload|, more);
    MaskBit(LengthCode(f.form, |f.payload|));
    BodyRoundTrip(f, rest);
    assert bytes[2..] == ExtendedLength(f.form, |f.payload|) + more;
  }

  function EncodeAll(frames: seq<Frame>): seq<byte>
    requires forall i :: 0 <= i < |frames| ==> WellFormed(frames[i])
  {
    if |frames| == 0 then [] else Encode(frames[0]) + EncodeAll(frames[1..])
  }

  predicate Skipped(f: Frame) {
    Opcode(f.b0) != TEXT && Opcode(f.b0) != CLOSE
  }

  /** Whatever ping, pong, binary or continuation frames come first, the reader returns the
      payload of the text frame and leaves exactly the bytes after it. */
  lemma {:induction false} ReadAfterSkipped(lossy: seq<byte> -> seq<byte>, before: seq<Frame>, f: Frame,
                                            rest: seq<byte>)
    requires forall i :: 0 <= i < |before| ==> WellFormed(before[i])
    requires forall i :: 0 <= i < |before| ==> Skipped(before[i])
    requires WellFormed(f) && Opcode(f.b0) == TEXT
    ensures ReadFrame(lossy, EncodeAll(before) + Encode(f) + rest) == Text(lossy(f.payload), rest)
    decreases |before|
  {
    hide Encode, DecodeOne, Opcode, WellFormed;
    if |before| == 0 {
      assert EncodeAll(before) + Encode(f) + rest == Encode(f) + rest;
      DecodeEncoded(f, rest);
    } else {
      var tail := EncodeAll(before[1..]) + Encode(f) + rest;
      assert EncodeAll(before) + Encode(f) + rest == Encode(before[0]) + tail;
      DecodeEncoded(before[0], tail);
      ReadAfterSkipped(lossy, before[1..], f, rest);
    }
  }

  /** Reading what `write_masked_text_frame` wrote, after any skipped frames. */
  lemma ReadUndoesWrite(lossy: seq<byte> -> seq<byte>, before: seq<Frame>, payload: seq<byte>, mask: seq<byte>,
                        rest: seq<byte>)
    requires forall i :: 0 <= i < |before| ==> WellFormed(before[i])
    requires forall i :: 0 <= i < |before| ==> Skipped(before[i])
    requires |mask| == 4 && |payload| < Power256(8)
    ensures WellFormed(TextFrame(payload, mask))
    ensures ReadFrame(lossy, EncodeAll(before) + Encode(TextFrame(payload, mask)) + rest) == Text(lossy(payload), rest)
  {
    Powers();
    assert Opcode(0x81) == TEXT;
    ReadAfterSkipped(lossy, before, TextFrame(payload, mask), rest);
  }

  // ----- the format -----

  /** Each byte sent differs from the payload by the key byte at its position modulo four. */
  lemma MaskIsKey(payload: seq<byte>, mask: seq<byte>, i: nat)
    requires |mask| == 4 && i < |payload|
    ensures Masked(payload, mask)[i] ^ payload[i] == mask[i % 4]
  {
    XorTwice(mask[i % 4], payload[i]);
    XorSwap(payload[i], mask[i % 4]);
  }

  lemma XorSwap(a: byte, b: byte)
    ensures a ^ b == b ^ a
  {
  }

  /** The bytes the client sends: final text frame, mask bit, the shortest length form, key, masked payload. */
  lemma TextFrameLayout(payload: seq<byte>, mask: seq<byte>)
    requires |mask| == 4 && |payload| < Power256(8)
    ensures WellFormed(TextFrame(payload, mask))
    ensures var bytes, len := Encode(TextFrame(payload, mask)), |payload|;
      var ext := if len <= 125 then 0 else if len <= 65535 then 2 else 8;
      && |bytes| == 2 + ext + 4 + len && bytes[0] == 0x81
      && bytes[1] == 0x80 | (if len <= 125 then len as byte else if len <= 65535 then 126 else 127)
      && bytes[2 + ext..6 + ext] == mask && bytes[6 + ext..] == Masked(payload, mask)
      && (ext > 0 ==> bytes[2..2 + ext] == BigEndian(len, ext))
  {
    hide Masked, BigEndian;
    Powers();
    var f := TextFrame(payload, mask);
    var head, extended, body := [f.b0, SecondByte(f)], ExtendedLength(f.form, |payload|), Body(f);
    var bytes := head + (extended + body);
    assert bytes[2..2 + |extended|] == extended && bytes[2 + |extended|..] == body;
    assert body[..4] == mask && body[4..] == Masked(payload, mask);
  }

  // ----- where reading stops -----

  lemma {:induction false} ReadSkips(lossy: seq<byte> -> seq<byte>, before: seq<Frame>, rest: seq<byte>)
    requires forall i :: 0 <= i < |before| ==> WellFormed(before[i])
    requires forall i :: 0 <= i < |before| ==> Skipped(before[i])
    ensures ReadFrame(lossy, EncodeAll(before) + rest) == ReadFrame(lossy, rest)
    decreases |before|
  {
    hide Encode, DecodeOne, Opcode, WellFormed;
    if |before| == 0 {
      assert EncodeAll(before) + rest == rest;
    } else {
      var tail := EncodeAll(before[1..]) + rest;
      assert EncodeAll(before) + rest == Encode(before[0]) + tail;
      DecodeEncoded(before[0], tail);
      ReadSkips(lossy, before[1..], rest);
    }
  }

  /** A close frame, or the end of the stream before a whole header, ends the reading without error. */
  lemma ReadEndsCleanly(lossy: seq<byte> -> seq<byte>, before: seq<Frame>, f: Frame, rest: seq<byte>, scrap: seq<byte>)
    requires forall i :: 0 <= i < |before| ==> WellFormed(before[i])
    requires forall i :: 0 <= i < |before| ==> Skipped(before[i])
    requires WellFormed(f) && Opcode(f.b0) == CLOSE && |scrap| < 2
    ensures ReadFrame(lossy, EncodeAll(before) + (Encode(f) + rest)) == Closed(rest)
    ensures ReadFrame(lossy, EncodeAll(before) + scrap) == Closed([])
  {
    ReadSkips(lossy, before, Encode(f) + rest);
    ReadSkips(lossy, before, scrap);
    DecodeEncoded(f, rest);
    hide Encode, EncodeAll, WellFormed;
  }

  lemma TruncatedBody(f: Frame, bytes: seq<byte>)
    requires WellFormed(f) && |bytes| < |Body(f)|
    ensures DecodeBody(f.b0, f.mask.Some?, |f.payload|, bytes) == Truncated
  {
  }

  lemma TruncatedLength(form: LengthForm, len: nat, bytes: seq<byte>)
    requires Fits(form, len) && |bytes| < |ExtendedLength(form, len)|
    ensures DecodeLength(LengthCode(form, len), bytes) == None
  {
    hide BigEndian;
  }

  /** A frame cut short anywhere after its second byte is not decoded. */
  lemma TruncatedFrame(f: Frame, k: nat)
    requires WellFormed(f) && 2 <= k < |Encode(f)|
    ensures DecodeOne(Encode(f)[..k]) == Truncated
  {
    hide Body, ExtendedLength, DecodeBody, DecodeLength, LengthCode, BigEndian;
    var ext, body, bytes := ExtendedLength(f.form, |f.payload|), Body(f), Encode(f)[..k];
    LengthRoundTrip(f.form, |f.payload|, []);
    MaskBit(LengthCode(f.form, |f.payload|));
    assert bytes[0] == f.b0 && bytes[1] == SecondByte(f);
    if k - 2 < |ext| {
      assert bytes[2..] == ext[..k - 2];
      TruncatedLength(f.form, |f.payload|, bytes[2..]);
    } else {
      var more := body[..k - 2 - |ext|];
      assert bytes[2..] == ext + more;
      LengthRoundTrip(f.form, |f.payload|, more);
      TruncatedBody(f, more);
    }
  }

  /** And it is reported as a failure. */
  lemma ReadFailsWhenCut(lossy: seq<byte> -> seq<byte>, before: seq<Frame>, f: Frame, k: nat)
    requires forall i :: 0 <= i < |before| ==> WellFormed(before[i])
    requires forall i :: 0 <= i < |before| ==> Skipped(before[i])
    requires WellFormed(f) && 2 <= k < |Encode(f)|
    ensures ReadFrame(lossy, EncodeAll(before) + Encode(f)[..k]) == Failed
  {
    ReadSkips(lossy, before, Encode(f)[..k]);
    TruncatedFrame(f, k);
    hide Encode, EncodeAll, DecodeOne;
  }

  // ----- the reading loop -----

  /** The socket, as the bytes still to be read. */
  class Stream {
    var pending: seq<byte>

    constructor (bytes: seq<byte>)
      ensures pending == bytes
    {
      pending := bytes;
    }

    /** All of the next n bytes, or an end-of-file error. */
    method ReadExact(n: nat) returns (r: Option<seq<byte>>)
      modifies this
      ensures |old(pending)| < n ==> r == None && pending == []
      ensures |old(pending)| >= n ==> r == Some(old(pending)[..n]) && pending == old(pending)[n..]
    {
      if |pending| < n {
        pending := [];
        return None;
      }
      r := Some(pending[..n]);
      pending := pending[n..];
    }
  }

  /** stream.rs:140-144 */
  method Unmask(payload: array<byte>, mask: seq<byte>)
    requires |mask| == 4
    modifies payload
    ensures payload[..] == Masked(old(payload[..]), mask)
  {
    for i := 0 to payload.Length
      invariant forall k :: 0 <= k < i ==> payload[k] == old(payload[k]) ^ mask[k % 4]
      invariant forall k :: i <= k < payload.Length ==> payload[k] == old(payload[k])
    {
      payload[i] := payload[i] ^ mask[i % 4];
    }
  }

  /** stream.rs:119-128 */
  method ReadLength(stream: Stream, code: byte) returns (len: Option<nat>)
    modifies stream
    ensures DecodeLength(code, old(stream.pending)).None? <==> len.None?
    ensures len.Some? ==> DecodeLength(code, old(stream.pending)) == Some((len.value, stream.pending))
  {
    if code == 126 {
      var ext := stream.ReadExact(2);
      if ext.None? {
        return None;
      }
      return Some(FromBigEndian(ext.value));
    } else if code == 127 {
      var ext := stream.ReadExact(8);
      if ext.None? {
        return None;
      }
      return Some(FromBigEndian(ext.value));
    }
    return Some(code as int);
  }

  /** stream.rs:129-144 */
  method ReadBody(stream: Stream, b0: byte, masked: bool, len: nat) returns (d: Decoded)
    modifies stream
    ensures d == DecodeBody(b0, masked, len, old(stream.pending))
    ensures d.Decoded? ==> stream.pending == d.rest
  {
    hide Masked;
    ghost var bytes := stream.pending;
    var mask: Option<seq<byte>> := None;
    if masked {
      mask := stream.ReadExact(4);
      if mask.None? {
        return Truncated;
      }
    }
    var raw := stream.ReadExact(len);
    if raw.None? {
      return Truncated;
    }
    assert masked ==> raw.value == bytes[4..4 + len] && stream.pending == bytes[4 + len..];
    var payload := new byte[len](i requires 0 <= i < len => raw.value[i]);
    assert payload[..] == raw.value;
    if mask.Some? {
      Unmask(payload, mask.value);
    }
    d := Decoded(b0, payload[..], stream.pending);
  }

  /** stream.rs:111-144: one pass of the loop, up to the decoded payload. */
  method ReadOne(stream: Stream) returns (d: Decoded)
    modifies stream
    ensures d == DecodeOne(old(stream.pending))
    ensures d.Decoded? ==> stream.pending == d.rest
    ensures d.AtEnd? ==> stream.pending == []
  {
    hide DecodeLength, DecodeBody;
    var header := stream.ReadExact(2);
    if header.None? {
      return AtEnd;
    }
    var len := ReadLength(stream, header.value[1] & 0x7F);
    if len.None? {
      return Truncated;
    }
    d := ReadBody(stream, header.value[0], header.value[1] & 0x80 != 0, len.value);
    BodyNeverAtEnd(header.value[0], header.value[1] & 0x80 != 0, len.value);
  }

  lemma BodyNeverAtEnd(b0: byte, masked: bool, len: nat)
    ensures forall bytes :: !DecodeBody(b0, masked, len, bytes).AtEnd?
  {}

  /** stream.rs:109-151 */
  method ReadFrameLoop(lossy: seq<byte> -> seq<byte>, stream: Stream) returns (r: Read)
    modifies stream
    ensures r == ReadFrame(lossy, old(stream.pending))
    ensures r.Text? || r.Closed? ==> stream.pending == r.rest
  {
    hide DecodeOne, Opcode;
    while true
      invariant ReadFrame(lossy, stream.pending) == ReadFrame(lossy, old(stream.pending))
      decreases |stream.pending|
    {
      DecodeConsumes(stream.pending);
      var d := ReadOne(stream);
      match d {
        case AtEnd => return Closed([]);
        case Truncated => return Failed;
        case Decoded(b0, payload, rest) =>
          if Opcode(b0) == TEXT {
            return Text(lossy(payload), rest);
          } else if Opcode(b0) == CLOSE {
            return Closed(rest);
          }
      }
    }
  }
}
